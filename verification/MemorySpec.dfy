/**
 * Simulated physical memory as its users see it: a finite map from addresses to bytes. Ranges, pages,
 * tables and loading (memory/memory.c, memory/memory_range.c) are ways to represent such a map.
 */
module MemorySpec {

  type byte = b: int | 0 <= b < 256

  type Image = map<nat, byte>

  // From an address on there are n of size bytes, up to the first that is missing.
  ghost predicate Reaches(c: Image, address: nat, size: nat, n: nat) {
    && n <= size
    && (forall a: nat :: address <= a < address + n ==> a in c)
    && (n < size ==> address + n !in c)
  }

  function Present(c: Image, address: nat, size: nat): (n: nat)
    ensures Reaches(c, address, size, n)
    decreases size
  {
    if size == 0 || address !in c then 0 else 1 + Present(c, address + 1, size - 1)
  }

  // r is what is in the image from an address on.
  ghost predicate Shows(c: Image, address: nat, r: seq<byte>) {
    forall k :: 0 <= k < |r| ==> address + k in c && r[k] == c[address + k]
  }

  /** What a read of size bytes delivers: the bytes up to the first that is missing. */
  function Read(c: Image, address: nat, size: nat): (r: seq<byte>)
    ensures |r| == Present(c, address, size) && Shows(c, address, r)
  {
    seq(Present(c, address, size), k requires 0 <= k < Present(c, address, size) => c[address + k])
  }

  // d is c with the first n bytes of the value stored from an address on.
  ghost predicate StoredAs(c: Image, d: Image, address: nat, value: seq<byte>, n: nat) {
    && n <= |value| && d.Keys == c.Keys
    && forall a :: a in c.Keys ==> d[a] == if address <= a < address + n then value[a - address] else c[a]
  }

  /** What a write leaves behind: the value's bytes are stored up to the first address that is missing. */
  function Store(c: Image, address: nat, value: seq<byte>): (d: Image)
    ensures StoredAs(c, d, address, value, Present(c, address, |value|))
  {
    var n := Present(c, address, |value|);
    map a | a in c :: if address <= a < address + n then value[a - address] else c[a]
  }

  lemma PresentIs(c: Image, address: nat, size: nat, n: nat)
    requires Reaches(c, address, size, n)
    ensures Present(c, address, size) == n
  {
    var m := Present(c, address, size);
    assert n < m ==> address + n in c;
    assert m < n ==> address + m in c;
  }

  /** Which bytes are there depends on the addresses alone. */
  lemma SamePresent(c: Image, d: Image, address: nat, size: nat)
    requires c.Keys == d.Keys
    ensures Present(c, address, size) == Present(d, address, size)
  {
    var n := Present(c, address, size);
    assert forall a: nat :: address <= a < address + n ==> a in c.Keys;
    PresentIs(d, address, size, n);
  }

  /** A read depends on the bytes it covers. */
  lemma ReadLocal(c: Image, d: Image, address: nat, size: nat)
    requires forall a: nat :: address <= a < address + size ==> (a in c <==> a in d) && (a in c ==> c[a] == d[a])
    ensures Read(c, address, size) == Read(d, address, size)
  {
    var n := Present(c, address, size);
    assert n < size ==> address + n !in c;
    assert forall a: nat :: address <= a < address + n ==> a in c;
    PresentIs(d, address, size, n);
    var r, s := Read(c, address, size), Read(d, address, size);
    forall k | 0 <= k < n ensures r[k] == s[k] {
      assert address + k in c;
    }
  }

  // An access may be cut in two wherever the first part is all there.
  lemma PresentSplit(c: Image, address: nat, left: nat, right: nat)
    requires Present(c, address, left) == left
    ensures Present(c, address, left + right) == left + Present(c, address + left, right)
  {
    var m := Present(c, address + left, right);
    assert Reaches(c, address, left, left) && Reaches(c, address + left, right, m);
    PresentIs(c, address, left + right, left + m);
  }

  lemma ReadSplit(c: Image, address: nat, left: nat, right: nat)
    requires Present(c, address, left) == left
    ensures Read(c, address, left + right) == Read(c, address, left) + Read(c, address + left, right)
  {
    PresentSplit(c, address, left, right);
    var l, r, whole := Read(c, address, left), Read(c, address + left, right), Read(c, address, left + right);
    ShownInTwo(c, address, l, r, whole);
  }

  lemma ShownAt(c: Image, address: nat, r: seq<byte>, k: nat)
    requires Shows(c, address, r) && k < |r|
    ensures address + k in c && r[k] == c[address + k]
  {
  }

  lemma ShownInTwo(c: Image, address: nat, l: seq<byte>, r: seq<byte>, whole: seq<byte>)
    requires Shows(c, address, l) && Shows(c, address + |l|, r) && Shows(c, address, whole) && |whole| == |l| + |r|
    ensures whole == l + r
  {
    hide Shows;
    forall k | 0 <= k < |whole| ensures whole[k] == (l + r)[k] {
      ShownAt(c, address, whole, k);
      if k < |l| {
        ShownAt(c, address, l, k);
      } else {
        ShownAt(c, address + |l|, r, k - |l|);
        assert address + |l| + (k - |l|) == address + k;
      }
    }
  }

  lemma StoredInTwo(c: Image, d: Image, e: Image, address: nat, l: seq<byte>, r: seq<byte>, n: nat)
    requires StoredAs(c, d, address, l, |l|) && StoredAs(d, e, address + |l|, r, n)
    ensures StoredAs(c, e, address, l + r, |l| + n)
  {
    forall a | a in c.Keys ensures e[a] == if address <= a < address + |l| + n then (l + r)[a - address] else c[a] {
      assert a in d.Keys;
    }
  }

  lemma StoredOneWay(c: Image, d: Image, e: Image, address: nat, value: seq<byte>, n: nat)
    requires StoredAs(c, d, address, value, n) && StoredAs(c, e, address, value, n)
    ensures d == e
  {
  }

  lemma KeysStay(c: Image, address: nat, value: seq<byte>)
    ensures Store(c, address, value).Keys == c.Keys
  {
  }

  // A value may be stored in two parts wherever there is room for all of the first.
  lemma StoreSplit(c: Image, address: nat, l: seq<byte>, r: seq<byte>)
    requires Present(c, address, |l|) == |l|
    ensures var d := Store(c, address, l);
      && Store(c, address, l + r) == Store(d, address + |l|, r)
      && Present(c, address, |l + r|) == |l| + Present(d, address + |l|, |r|)
  {
    hide *;
    var d := Store(c, address, l);
    var e, n := Store(d, address + |l|, r), Present(d, address + |l|, |r|);
    KeysStay(c, address, l);
    SamePresent(c, d, address + |l|, |r|);
    PresentSplit(c, address, |l|, |r|);
    StoredInTwo(c, d, e, address, l, r, n);
    StoredOneWay(c, Store(c, address, l + r), e, address, l + r, |l| + n);
  }

  lemma AllPresent(c: Image, address: nat, size: nat)
    requires forall a: nat :: address <= a < address + size ==> a in c
    ensures Present(c, address, size) == size
  {
  }

  lemma NonePresent(c: Image, address: nat, value: seq<byte>)
    requires address !in c
    ensures Present(c, address, |value|) == 0 && Store(c, address, value) == c
  {
  }

  /** A read sees the bytes of the last write where both meet, and everything else as it was. */
  lemma ReadAfterStore(c: Image, address: nat, value: seq<byte>, from: nat, size: nat)
    ensures var r, r0 := Read(Store(c, address, value), from, size), Read(c, from, size);
      && |r| == |r0|
      && forall k :: 0 <= k < |r| ==>
        r[k] ==
          if address <= from + k < address + Present(c, address, |value|) then value[from + k - address] else r0[k]
  {
    SamePresent(c, Store(c, address, value), from, size);
  }

  /** A write away from what is read does not change the read. */
  lemma ReadFramed(c: Image, address: nat, value: seq<byte>, from: nat, size: nat)
    requires address + |value| <= from || from + size <= address
    ensures Read(Store(c, address, value), from, size) == Read(c, from, size)
  {
    ReadAfterStore(c, address, value, from, size);
  }

  /** A value that fits is read back as written. */
  lemma ReadBack(c: Image, address: nat, value: seq<byte>)
    requires Present(c, address, |value|) == |value|
    ensures Read(Store(c, address, value), address, |value|) == value
  {
    ReadAfterStore(c, address, value, address, |value|);
  }

  // ----- several images, the first that has an address wins

  function Join(parts: seq<Image>): Image {
    if parts == [] then map[] else Join(parts[1..]) + parts[0]
  }

  // The first part with this address, or -1.
  function First(parts: seq<Image>, a: nat): (i: int)
    ensures i == -1 <==> forall k :: 0 <= k < |parts| ==> a !in parts[k]
    ensures i != -1 ==> 0 <= i < |parts| && a in parts[i] && forall k :: 0 <= k < i ==> a !in parts[k]
  {
    if parts == [] then -1
    else if a in parts[0] then 0
    else
      var i := First(parts[1..], a);
      assert forall k :: 1 <= k < |parts| ==> parts[k] == parts[1..][k - 1];
      if i == -1 then -1 else i + 1
  }

  lemma {:induction false} JoinAt(parts: seq<Image>, a: nat)
    ensures a in Join(parts) <==> First(parts, a) != -1
    ensures First(parts, a) != -1 ==> Join(parts)[a] == parts[First(parts, a)][a]
  {
    if parts != [] {
      JoinAt(parts[1..], a);
    }
  }

  // Storing into the part that is first for all the addresses concerned is storing into the whole.
  lemma JoinStore(parts: seq<Image>, i: nat, address: nat, value: seq<byte>)
    requires i < |parts| && forall a: nat :: address <= a < address + |value| ==> First(parts, a) == i
    ensures Join(parts[i := Store(parts[i], address, value)]) == Store(Join(parts), address, value)
    ensures Present(Join(parts), address, |value|) == |value|
  {
    var c := Join(parts);
    forall a: nat | address <= a < address + |value| ensures a in c && a in parts[i] {
      JoinAt(parts, a);
      var k := First(parts, a);
    }
    AllPresent(c, address, |value|);
    AllPresent(parts[i], address, |value|);
    var q := Store(parts[i], address, value);
    JoinStored(parts, i, q, address, value);
    StoredOneWay(c, Store(c, address, value), Join(parts[i := q]), address, value, |value|);
  }

  // Reading from the part that is first for all the addresses concerned is reading from the whole.
  lemma JoinReads(parts: seq<Image>, i: nat, address: nat, size: nat)
    requires i < |parts| && forall a: nat :: address <= a < address + size ==> First(parts, a) == i
    ensures Read(parts[i], address, size) == Read(Join(parts), address, size)
    ensures Present(Join(parts), address, size) == size
  {
    var c := Join(parts);
    forall a: nat | address <= a < address + size ensures a in c && a in parts[i] && c[a] == parts[i][a] {
      JoinAt(parts, a);
    }
    AllPresent(c, address, size);
    AllPresent(parts[i], address, size);
  }

  lemma JoinStored(parts: seq<Image>, i: nat, q: Image, address: nat, value: seq<byte>)
    requires i < |parts| && forall a: nat :: address <= a < address + |value| ==> First(parts, a) == i
    requires StoredAs(parts[i], q, address, value, |value|)
    ensures StoredAs(Join(parts), Join(parts[i := q]), address, value, |value|)
  {
    var c, d := Join(parts), Join(parts[i := q]);
    forall a: nat
      ensures a in c <==> a in d
      ensures a in c ==> d[a] == if address <= a < address + |value| then value[a - address] else c[a]
    {
      JoinAt(parts, a);
      JoinAt(parts[i := q], a);
      SameFirst(parts, i, q, a);
    }
  }

  lemma SameFirst(parts: seq<Image>, i: nat, q: Image, a: nat)
    requires i < |parts| && q.Keys == parts[i].Keys
    ensures First(parts[i := q], a) == First(parts, a)
  {
    var s := parts[i := q];
    assert forall k :: 0 <= k < |s| ==> s[k].Keys == parts[k].Keys;
    FirstByKeys(parts, s, a);
  }

  lemma {:induction false} FirstByKeys(parts: seq<Image>, s: seq<Image>, a: nat)
    requires |s| == |parts| && forall k :: 0 <= k < |s| ==> s[k].Keys == parts[k].Keys
    ensures First(s, a) == First(parts, a)
  {
    if s != [] {
      assert a in s[0].Keys <==> a in parts[0].Keys;
      FirstByKeys(parts[1..], s[1..], a);
    }
  }
}
