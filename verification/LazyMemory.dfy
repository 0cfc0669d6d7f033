/**
 * The two-level memory that is filled page by page from a backing file (memory/memory.c:14-173). What it
 * holds is a map from addresses to bytes; loading a page never shows in that map.
 */
module LazyMemory {
  import opened MemorySpec

  const PAGE: nat := 4096
  const ENTRIES: nat := 16384                     // 2^14 entries in a table
  const REGION: nat := 0x400_0000                 // 2^26 bytes behind one first-level entry
  const GUARD: nat := 0x400_0000_0000             // 2^42
  const LARGEST: nat := 0x100_0000_0000           // 2^40

  // Where an object of the tree hangs: a table at a first-level index, or a page at a pair of indices.
  datatype Place = Middle(i: nat) | Page(i: nat, j: nat)

  function Upper(address: nat): (i: nat)
    ensures i < ENTRIES
  {
    (address / REGION) % ENTRIES
  }

  function Lower(address: nat): (j: nat)
    ensures j < ENTRIES
  {
    (address / PAGE) % ENTRIES
  }

  // Whether an access reaches over the end of the page of its first byte.
  predicate Crosses(address: nat, size: nat) {
    address % PAGE + size > PAGE
  }

  // The bytes from an address to the end of its page.
  function LeftSize(address: nat): (n: nat)
    ensures n > 0 && !Crosses(address, n)
    ensures forall size :: Crosses(address, size) ==> n < size
  {
    PAGE - address % PAGE
  }

  // In a span of 2^40 bytes the two indices name the page.
  lemma IndicesNameThePage(start: nat, a: nat, b: nat)
    requires start <= a < start + LARGEST && start <= b < start + LARGEST && start % PAGE == 0
    requires Upper(a) == Upper(b) && Lower(a) == Lower(b)
    ensures a / PAGE == b / PAGE
  {
    var p, q := a / PAGE, b / PAGE;
    assert a / REGION == p / ENTRIES && b / REGION == q / ENTRIES;
    assert -(ENTRIES * ENTRIES) < p - q < ENTRIES * ENTRIES;
  }

  // The addresses of one page share its indices.
  lemma PageHasOnePlace(address: nat, a: nat)
    requires a / PAGE == address / PAGE
    ensures Upper(a) == Upper(address) && Lower(a) == Lower(address)
    ensures a - address == a % PAGE - address % PAGE
  {
    assert a / REGION == (a / PAGE) / ENTRIES && address / REGION == (address / PAGE) / ENTRIES;
  }

  // An access that does not reach the page's end stays in the page.
  lemma StaysInPage(address: nat, size: nat, a: nat)
    requires !Crosses(address, size) && address <= a < address + size
    ensures a / PAGE == address / PAGE
  {
  }

  lemma EndsInPage(address: nat, size: nat)
    requires !Crosses(address, size)
    ensures address % PAGE + size <= PAGE
  {
  }

  method CopyInto(page: array<byte>, offset: nat, value: seq<byte>)
    requires offset + |value| <= page.Length
    modifies page
    ensures page[..] == old(page[..offset]) + value + old(page[offset + |value|..])
  {
    forall k | 0 <= k < |value| {
      page[offset + k] := value[k];
    }
  }

  class Memory {
    const start: nat
    const end: nat
    const backing: seq<byte>
    const table: array<array?<array?<byte>>>
    ghost var Repr: set<object>
    ghost var places: map<object, Place>
    ghost var contents: map<nat, byte>

    ghost predicate Placed(o: object, p: Place)
      reads this
    {
      o in places && places[o] == p
    }

    // The page behind a pair of indices, if it has been loaded.
    ghost function PageAt(i: nat, j: nat): array?<byte>
      requires i < table.Length
      reads table, table[i]
    {
      if table[i] == null || j >= table[i].Length then null else table[i][j]
    }

    ghost predicate WellFormed()
      reads this, Repr
    {
      && Repr == {this, table} + places.Keys && table !in places && this !in places
      && table.Length == ENTRIES
      && start <= end <= start + LARGEST
      && start % PAGE == 0 && end % PAGE == 0 && |backing| == end - start
      && (forall i :: 0 <= i < ENTRIES && table[i] != null ==>
        Placed(table[i], Middle(i)) && table[i].Length == ENTRIES)
      && (forall i, j :: 0 <= i < ENTRIES && 0 <= j < ENTRIES && PageAt(i, j) != null ==>
        Placed(PageAt(i, j), Page(i, j)) && PageAt(i, j).Length == PAGE)
    }

    ghost predicate Has(a: nat) {
      start <= a < end
    }

    // The byte at an address: from its page if that is loaded, from the file if not.
    ghost function ByteAt(a: nat): byte
      requires WellFormed() && Has(a)
      reads this, Repr
    {
      var page := PageAt(Upper(a), Lower(a));
      if page == null then backing[a - start] else page[a % PAGE]
    }

    ghost function Image(): (c: map<nat, byte>)
      requires WellFormed()
      reads this, Repr
      ensures forall a: nat :: a in c <==> Has(a)
    {
      map a: nat | start <= a < end :: ByteAt(a)
    }

    /** The contents are what the tree and the file together show. */
    ghost predicate Valid()
      reads this, Repr
    {
      WellFormed() && contents == Image()
    }

    /** A fresh memory shows the file. */
    constructor (file: seq<byte>, from: nat, to: nat)
      requires from <= to <= from + LARGEST && from % PAGE == 0 && to % PAGE == 0 && |file| == to - from
      ensures Valid() && fresh(Repr) && start == from && end == to
      ensures forall a: nat :: a in contents <==> from <= a < to
      ensures forall a: nat :: from <= a < to ==> contents[a] == file[a - from]
    {
      start, end, backing := from, to, file;
      table := new array?<array?<byte>>[ENTRIES](_ => null);
      places, Repr := map[], {this, table};
      new;
      assert forall i, j :: 0 <= i < ENTRIES && 0 <= j < ENTRIES ==> PageAt(i, j) == null;
      KeepTrack();
    }

    // An empty table has been hung behind a first-level index: nothing that can be seen has changed.
    twostate lemma MiddleAdded(i: nat)
      requires old(WellFormed()) && i < ENTRIES && old(table[i]) == null && table[i] != null && fresh(table[i])
      requires table[i].Length == ENTRIES && forall j :: 0 <= j < ENTRIES ==> table[i][j] == null
      requires forall k :: 0 <= k < ENTRIES && k != i ==> table[k] == old(table[k])
      requires var t: object := table[i]; places == old(places)[t := Middle(i)] && Repr == old(Repr) + {t}
      requires forall o :: o in old(Repr) && o != this && o != table ==> unchanged(o)
      ensures WellFormed() && Image() == old(Image())
    {
      assert forall p :: p in old(places) ==> p in places && places[p] == old(places)[p];
      forall k, j | 0 <= k < ENTRIES && 0 <= j < ENTRIES ensures PageAt(k, j) == old(PageAt(k, j)) {
      }
      assert WellFormed();
      hide Upper, Lower;
      assert forall a: nat :: Has(a) ==> ByteAt(a) == old(ByteAt(a));
    }

    // The second-level table behind a first-level index, made if it is missing.
    method FindMiddle(address: nat) returns (middle: array<array?<byte>>)
      requires WellFormed()
      modifies this`places, this`Repr, table
      ensures WellFormed() && fresh(Repr - old(Repr)) && old(Repr) <= Repr
      ensures table[Upper(address)] == middle && Placed(middle, Middle(Upper(address)))
      ensures Image() == old(Image())
    {
      var i := Upper(address);
      if table[i] == null {
        var t := new array?<byte>[ENTRIES](_ => null);
        table[i] := t;
        places, Repr := places[t := Middle(i)], Repr + {t};
        MiddleAdded(i);
      }
      middle := table[i];
    }

    // A new page with the bytes the file has for it.
    method LoadPage(address: nat) returns (page: array<byte>)
      requires WellFormed() && Has(address)
      ensures fresh(page) && page.Length == PAGE
      ensures forall a: nat :: Has(a) && a / PAGE == address / PAGE ==> page[a % PAGE] == backing[a - start]
    {
      var at := (address - start) / PAGE * PAGE;
      PageOfTheFile(address);
      page := new byte[PAGE](k requires 0 <= k < PAGE && at + PAGE <= |backing| => backing[at + k]);
    }

    lemma PageOfTheFile(address: nat)
      requires WellFormed() && Has(address)
      ensures var at := (address - start) / PAGE * PAGE;
        && at + PAGE <= |backing|
        && forall a: nat :: a / PAGE == address / PAGE ==> Has(a) && a - start == at + a % PAGE
    {
    }

    // A page with the file's bytes has been hung into a table: nothing that can be seen has changed.
    twostate lemma PageAdded(address: nat)
      requires old(WellFormed()) && Has(address) && unchanged(table)
      requires var i, j := Upper(address), Lower(address);
        && table[i] != null && old(PageAt(i, j)) == null && PageAt(i, j) != null && fresh(PageAt(i, j))
        && PageAt(i, j).Length == PAGE
        && (forall a: nat :: Has(a) && a / PAGE == address / PAGE ==> PageAt(i, j)[a % PAGE] == backing[a - start])
        && (var p: object := PageAt(i, j); places == old(places)[p := Page(i, j)] && Repr == old(Repr) + {p})
        && (forall k :: 0 <= k < ENTRIES && k != j ==> table[i][k] == old(table[i][k]))
        && (forall o :: o in old(Repr) && o != this && o != table[i] ==> unchanged(o))
      ensures WellFormed() && Image() == old(Image())
    {
      hide Upper, Lower;
      var i, j := Upper(address), Lower(address);
      assert forall o :: o in old(places) ==> o in places && places[o] == old(places)[o];
      forall k, l | 0 <= k < ENTRIES && 0 <= l < ENTRIES && !(k == i && l == j)
        ensures PageAt(k, l) == old(PageAt(k, l))
      {
      }
      assert WellFormed();
      forall a: nat | Has(a) ensures ByteAt(a) == old(ByteAt(a)) {
        if Upper(a) == i && Lower(a) == j {
          IndicesNameThePage(start, a, address);
        }
      }
    }

    // The page of an address, loaded if it is missing.
    method FindPage(middle: array<array?<byte>>, address: nat) returns (page: array<byte>)
      requires WellFormed() && Has(address) && table[Upper(address)] == middle && Placed(middle, Middle(Upper(address)))
      modifies this`places, this`Repr, middle
      ensures WellFormed() && fresh(Repr - old(Repr)) && old(Repr) <= Repr
      ensures PageAt(Upper(address), Lower(address)) == page && page in Repr
      ensures Image() == old(Image())
    {
      hide Memory.Image, Memory.ByteAt, Upper, Lower;
      var i, j := Upper(address), Lower(address);
      if middle[j] == null {
        var p := LoadPage(address);
        middle[j] := p;
        places, Repr := places[p := Page(i, j)], Repr + {p};
        PageAdded(address);
      }
      page := middle[j];
    }

    lemma Unfold()
      requires Valid()
      ensures this in Repr && table in Repr && WellFormed() && contents == Image()
    {
    }

    lemma Fold()
      requires WellFormed() && contents == Image()
      ensures Valid()
    {
    }

    // The page of an address; nothing that can be seen changes.
    method GetPage(address: nat) returns (page: array<byte>)
      requires Valid() && Has(address)
      modifies Repr
      ensures Valid() && fresh(Repr - old(Repr)) && old(Repr) <= Repr
      ensures PageAt(Upper(address), Lower(address)) == page && page in Repr
      ensures contents == old(contents)
    {
      hide *;
      Unfold();
      var middle := FindMiddle(address);
      page := FindPage(middle, address);
      Fold();
    }

    /** Reading inside a page: the tree may grow, what it holds stays. */
    method ReadInPage(address: nat, size: nat) returns (r: seq<byte>)
      requires Valid() && Has(address) && !Crosses(address, size)
      modifies Repr
      ensures Valid() && fresh(Repr - old(Repr)) && old(Repr) <= Repr
      ensures contents == old(contents) && r == Read(contents, address, size)
    {
      hide Memory.Image;
      var page := GetPage(address);
      var offset := address % PAGE;
      r := page[offset..offset + size];
      PageBytes(address, size);
    }

    lemma PageBytes(address: nat, size: nat)
      requires WellFormed() && Has(address) && !Crosses(address, size) && PageAt(Upper(address), Lower(address)) != null
      ensures var page := PageAt(Upper(address), Lower(address));
        page[address % PAGE..address % PAGE + size] == Read(Image(), address, size)
    {
      hide Upper, Lower, Read, Crosses;
      var page, at := PageAt(Upper(address), Lower(address)), address % PAGE;
      EndsInPage(address, size);
      forall a: nat | address <= a < address + size ensures Has(a) && ByteAt(a) == page[at + (a - address)] {
        PlaceInPage(address, size, a);
      }
      SliceIsRead(Image(), page[at..at + size], address);
    }

    // The bytes of an access that stays in a page.
    lemma PlaceInPage(address: nat, size: nat, a: nat)
      requires WellFormed() && Has(address) && !Crosses(address, size) && address <= a < address + size
      ensures Has(a) && Upper(a) == Upper(address) && Lower(a) == Lower(address)
      ensures a % PAGE == address % PAGE + (a - address)
    {
      StaysInPage(address, size, a);
      PageHasOnePlace(address, a);
      PageOfTheFile(address);
    }

    lemma SliceIsRead(c: Image, bytes: seq<byte>, address: nat)
      requires forall a: nat :: address <= a < address + |bytes| ==> a in c && c[a] == bytes[a - address]
      ensures bytes == Read(c, address, |bytes|)
    {
      AllPresent(c, address, |bytes|);
    }

    /** Writing inside a page stores the value. */
    method WriteInPage(address: nat, value: seq<byte>)
      requires Valid() && Has(address) && !Crosses(address, |value|)
      modifies Repr
      ensures Valid() && fresh(Repr - old(Repr)) && old(Repr) <= Repr
      ensures contents == Store(old(contents), address, value)
    {
      hide *;
      Unfold();
      var page := GetPage(address);
      Unfold();
      PutBytes(page, address, value);
      KeepTrack();
    }

    ghost method KeepTrack()
      requires WellFormed()
      modifies this`contents
      ensures Valid() && contents == old(Image()) && Repr == old(Repr)
    {
      hide Upper, Lower;
      contents := Image();
    }

    // The copy into a loaded page.
    method PutBytes(page: array<byte>, address: nat, value: seq<byte>)
      requires WellFormed() && Has(address) && !Crosses(address, |value|)
      requires PageAt(Upper(address), Lower(address)) == page
      modifies page
      ensures WellFormed() && Repr == old(Repr)
      ensures Image() == Store(old(Image()), address, value)
    {
      var offset := address % PAGE;
      ghost var before := Image();
      assert Placed(page, Page(Upper(address), Lower(address)));
      ghost var bytes := page[..];
      CopyInto(page, offset, value);
      assert forall i, j :: 0 <= i < ENTRIES && 0 <= j < ENTRIES ==> PageAt(i, j) == old(PageAt(i, j));
      assert WellFormed();
      PageOfTheFile(address);
      forall a: nat | Has(a)
        ensures ByteAt(a) == if address <= a < address + |value| then value[a - address] else before[a]
      {
        PutByte(page, address, |value|, a);
        assert PageAt(Upper(a), Lower(a)) == old(PageAt(Upper(a), Lower(a)));
        if a / PAGE == address / PAGE {
          assert before[a] == bytes[a % PAGE];
        }
      }
      hide *;
      ghost var after := Image();
      StoreIsOnly(before, after, address, value);
    }

    lemma StoreIsOnly(c: Image, d: Image, address: nat, value: seq<byte>)
      requires d.Keys == c.Keys
      requires forall a: nat :: address <= a < address + |value| ==> a in c
      requires forall a: nat :: a in c ==> d[a] == if address <= a < address + |value| then value[a - address] else c[a]
      ensures d == Store(c, address, value)
    {
      AllPresent(c, address, |value|);
    }

    // Where an address of this memory shares the page of another, and where it is in the written part.
    lemma PutByte(page: array<byte>, address: nat, size: nat, a: nat)
      requires WellFormed() && Has(address) && Has(a) && !Crosses(address, size)
      requires PageAt(Upper(address), Lower(address)) == page
      ensures PageAt(Upper(a), Lower(a)) == page <==> a / PAGE == address / PAGE
      ensures a / PAGE == address / PAGE ==> a - address == a % PAGE - address % PAGE
      ensures address <= a < address + size ==> a / PAGE == address / PAGE
    {
      hide Upper, Lower;
      if PageAt(Upper(a), Lower(a)) == page {
        assert Placed(page, Page(Upper(a), Lower(a)));
        IndicesNameThePage(start, a, address);
      }
      if address <= a < address + size {
        StaysInPage(address, size, a);
      }
      if a / PAGE == address / PAGE {
        PageHasOnePlace(address, a);
      }
    }
  }

  // ----- a list of memories

  ghost function Footprint(ms: seq<Memory>): set<object>
    reads ms
  {
    set m, o | m in ms && o in m.Repr :: o
  }

  ghost predicate AllValid(ms: seq<Memory>)
    reads ms, Footprint(ms)
  {
    (forall m :: m in ms ==> m.Valid()) && forall i, j :: 0 <= i < |ms| && 0 <= j < |ms| && i != j ==>
      ms[i].Repr !! ms[j].Repr
  }

  ghost function Parts(ms: seq<Memory>): (r: seq<Image>)
    reads ms
    ensures |r| == |ms| && forall i :: 0 <= i < |ms| ==> r[i] == ms[i].contents
  {
    if ms == [] then [] else
      assert forall m :: m in ms[1..] ==> m in ms;
      [ms[0].contents] + Parts(ms[1..])
  }

  /** What the memories hold together: the first one that has an address answers for it. */
  ghost function Holds(ms: seq<Memory>): Image
    reads ms
  {
    Join(Parts(ms))
  }

  // What the reader can see: it refuses addresses from 2^42 on.
  function Below(c: Image): Image {
    map a | a in c && a < GUARD :: c[a]
  }

  lemma ValidHas(m: Memory)
    requires m.Valid()
    ensures m in m.Repr
    ensures m.start % PAGE == 0 && m.end % PAGE == 0
    ensures forall a: nat :: a in m.contents <==> m.Has(a)
  {
  }

  /** The index of the first memory with an address, or -1 (memory/memory_range.c:35-46). */
  method GetMemoryForAddress(ms: seq<Memory>, address: nat) returns (r: int)
    requires AllValid(ms)
    ensures r == MemorySpec.First(Parts(ms), address)
  {
    ghost var ps := Parts(ms);
    r := -1;
    for i := 0 to |ms|
      invariant Parts(ms) == ps && AllValid(ms)
      invariant forall k :: 0 <= k < i ==> address !in ps[k]
    {
      ValidHas(ms[i]);
      assert address in ps[i] <==> ms[i].Has(address);
      if ms[i].start <= address && address < ms[i].end {
        return i;
      }
    }
  }

  // The addresses of a page are all in the same memory.
  lemma PageIsInOne(ms: seq<Memory>, address: nat, a: nat)
    requires AllValid(ms) && a / PAGE == address / PAGE
    ensures MemorySpec.First(Parts(ms), a) == MemorySpec.First(Parts(ms), address)
  {
    hide Memory.Valid;
    var ps := Parts(ms);
    forall k | 0 <= k < |ps| ensures a in ps[k] <==> address in ps[k] {
      ValidHas(ms[k]);
    }
    SameFirstOf(ps, address, a);
  }

  lemma SameFirstOf(ps: seq<Image>, address: nat, a: nat)
    requires forall k :: 0 <= k < |ps| ==> (a in ps[k] <==> address in ps[k])
    ensures MemorySpec.First(ps, a) == MemorySpec.First(ps, address)
  {
    var i, j := MemorySpec.First(ps, a), MemorySpec.First(ps, address);
    assert i != -1 ==> address in ps[i];
    assert j != -1 ==> a in ps[j];
  }

  // Below the guard the reader sees everything.
  lemma BelowReads(c: Image, address: nat, size: nat)
    requires address + size <= GUARD
    ensures Read(Below(c), address, size) == Read(c, address, size)
    ensures Present(Below(c), address, size) == Present(c, address, size)
  {
    PresentIs(Below(c), address, size, Present(c, address, size));
  }

  // How much of an access the reader sees: what is there, up to the guard.
  lemma PresentBelow(c: Image, address: nat, size: nat)
    ensures Present(Below(c), address, size) == UpToGuard(address, Present(c, address, size))
  {
    PresentIs(Below(c), address, size, UpToGuard(address, Present(c, address, size)));
  }

  function UpToGuard(address: nat, n: nat): nat {
    if address + n <= GUARD then n else if address < GUARD then GUARD - address else 0
  }

  // What the reader sees is how the bytes there begin.
  lemma BelowBegins(c: Image, address: nat, size: nat)
    ensures Read(Below(c), address, size) <= Read(c, address, size)
  {
    PresentBelow(c, address, size);
  }

  /** The reader sees all that is there exactly if none of it lies at the guard or above. */
  lemma ReaderSeesIff(c: Image, address: nat, size: nat)
    ensures Read(Below(c), address, size) == Read(c, address, size) <==>
      Present(c, address, size) == 0 || address + Present(c, address, size) <= GUARD
  {
    PresentBelow(c, address, size);
    BelowBegins(c, address, size);
  }

  /** A value that was written completely is read back exactly if it ends below the guard. */
  lemma ReadBackIff(c: Image, address: nat, value: seq<byte>)
    requires Present(c, address, |value|) == |value|
    ensures Read(Below(Store(c, address, value)), address, |value|) == value <==>
      value == [] || address + |value| <= GUARD
  {
    ReadBack(c, address, value);
    SamePresent(c, Store(c, address, value), address, |value|);
    ReaderSeesIff(Store(c, address, value), address, |value|);
  }

  /** So a byte at the guard is written, and counted as written, and cannot be read. */
  lemma GuardedByteIsLost(c: Image, x: byte)
    requires GUARD in c
    ensures Present(c, GUARD, |[x]|) == 1 && Store(c, GUARD, [x])[GUARD] == x
    ensures Read(Below(Store(c, GUARD, [x])), GUARD, 1) == []
  {
    AllPresent(c, GUARD, 1);
    PresentBelow(Store(c, GUARD, [x]), GUARD, 1);
  }

  /** As far as it sees anything, the reader sees the last write where both meet, and everything else as it was. */
  lemma ReadAfterWrite(c: Image, address: nat, value: seq<byte>, from: nat, size: nat)
    ensures var r, r0 := Read(Below(Store(c, address, value)), from, size), Read(Below(c), from, size);
      && |r| == |r0|
      && forall k :: 0 <= k < |r| ==>
        r[k] ==
          if address <= from + k < address + Present(c, address, |value|) then value[from + k - address] else r0[k]
  {
    var d := Store(c, address, value);
    KeysStay(c, address, value);
    SamePresent(Below(c), Below(d), from, size);
    ReadAfterStore(c, address, value, from, size);
    BelowBegins(c, from, size);
    BelowBegins(d, from, size);
  }

  // A page below the guard ends below it.
  lemma EndsBelow(address: nat, size: nat)
    requires !Crosses(address, size) && address < GUARD
    ensures address + size <= GUARD
  {
  }

  lemma AllInOne(ms: seq<Memory>, i: int, address: nat, size: nat)
    requires AllValid(ms) && MemorySpec.First(Parts(ms), address) == i && !Crosses(address, size)
    ensures forall a: nat :: address <= a < address + size ==> MemorySpec.First(Parts(ms), a) == i
  {
    hide *;
    forall a: nat | address <= a < address + size ensures MemorySpec.First(Parts(ms), a) == i {
      StaysInPage(address, size, a);
      PageIsInOne(ms, address, a);
    }
  }

  lemma PageReads(ms: seq<Memory>, i: nat, address: nat, size: nat)
    requires AllValid(ms) && MemorySpec.First(Parts(ms), address) == i && !Crosses(address, size) && address < GUARD
    ensures Read(Parts(ms)[i], address, size) == Read(Below(Holds(ms)), address, size)
    ensures Present(Below(Holds(ms)), address, size) == size
  {
    hide Memory.Valid, Crosses, Read, Below, Join, AllValid;
    EndsBelow(address, size);
    AllInOne(ms, i, address, size);
    JoinReads(Parts(ms), i, address, size);
    BelowReads(Holds(ms), address, size);
  }

  // A memory none of whose objects changed keeps everything.
  twostate predicate Kept(m: Memory)
    reads m, m.Repr
  {
    m.Valid() && m.Repr == old(m.Repr) && m.contents == old(m.contents)
  }

  twostate lemma Untouched(m: Memory)
    requires old(m.Valid()) && unchanged(old(m.Repr))
    ensures Kept(m)
  {
  }

  // Memories of which at most one took in new objects stay apart.
  twostate predicate Grown(m: Memory)
    reads m, m.Repr
  {
    m.Valid() && fresh(m.Repr - old(m.Repr)) && old(m.Repr) <= m.Repr
  }

  twostate lemma AllGrown(ms: seq<Memory>)
    requires old(AllValid(ms)) && forall k :: 0 <= k < |ms| ==> Grown(ms[k])
    requires forall j, k :: 0 <= j < |ms| && 0 <= k < |ms| && j != k ==> Kept(ms[j]) || Kept(ms[k])
    ensures AllValid(ms) && fresh(Footprint(ms) - old(Footprint(ms))) && old(Footprint(ms)) <= Footprint(ms)
  {
    hide Memory.Valid;
    forall j, k | 0 <= j < |ms| && 0 <= k < |ms| && j != k ensures ms[j].Repr !! ms[k].Repr {
      assert old(ms[j].Repr) !! old(ms[k].Repr);
      assert Grown(ms[j]) && Grown(ms[k]);
    }
    forall o | o in Footprint(ms) && o !in old(Footprint(ms)) ensures fresh(o) {
      var k :| 0 <= k < |ms| && o in ms[k].Repr;
      assert Grown(ms[k]);
    }
    forall o | o in old(Footprint(ms)) ensures o in Footprint(ms) {
      var k :| 0 <= k < |ms| && o in old(ms[k].Repr);
      assert Grown(ms[k]);
    }
  }

  lemma PageWrites(ms: seq<Memory>, i: nat, address: nat, value: seq<byte>)
    requires AllValid(ms) && MemorySpec.First(Parts(ms), address) == i && !Crosses(address, |value|)
    ensures Join(Parts(ms)[i := Store(Parts(ms)[i], address, value)]) == Store(Holds(ms), address, value)
    ensures Present(Holds(ms), address, |value|) == |value|
  {
    hide Memory.Valid, Crosses, Store, Join, AllValid;
    AllInOne(ms, i, address, |value|);
    JoinStore(Parts(ms), i, address, value);
  }

  lemma OneOf(ms: seq<Memory>, i: nat)
    requires AllValid(ms) && i < |ms|
    ensures ms[i].Valid() && ms[i].Repr <= Footprint(ms)
    ensures forall k :: 0 <= k < |ms| && k != i ==> ms[k].Valid() && ms[k].Repr !! ms[i].Repr
  {
    hide Memory.Valid;
    assert ms[i] in ms;
  }

  lemma SamePart(ms: seq<Memory>, i: int, address: nat)
    requires AllValid(ms) && MemorySpec.First(Parts(ms), address) == i != -1
    ensures 0 <= i < |ms| && ms[i].Valid() && ms[i].Has(address)
  {
    ValidHas(ms[i]);
  }

  twostate lemma KeptIsGrown(m: Memory)
    requires Kept(m)
    ensures Grown(m) && m.contents == old(m.contents)
  {
  }

  // After an access to one memory the others are as they were.
  twostate lemma OthersKept(access: (seq<Memory>, nat))
    requires var (ms, i) := access;
      && i < |ms| && old(AllValid(ms)) && forall k :: 0 <= k < |ms| && k != i ==> unchanged(old(ms[k].Repr))
    ensures var (ms, i) := access; forall k :: 0 <= k < |ms| && k != i ==> Kept(ms[k])
  {
    hide Memory.Valid, Kept;
    var (ms, i) := access;
    forall k | 0 <= k < |ms| && k != i ensures Kept(ms[k]) {
      Untouched(ms[k]);
    }
  }

  twostate lemma OneTouched(access: (seq<Memory>, nat))
    requires var (ms, i) := access;
      && i < |ms| && old(AllValid(ms)) && Grown(ms[i])
      && forall k :: 0 <= k < |ms| && k != i ==> unchanged(old(ms[k].Repr))
    ensures var (ms, i) := access;
      && AllValid(ms) && fresh(Footprint(ms) - old(Footprint(ms))) && old(Footprint(ms)) <= Footprint(ms)
      && Parts(ms) == old(Parts(ms))[i := ms[i].contents]
  {
    hide Memory.Valid, Kept, Grown, AllValid, Footprint, Parts;
    var (ms, i) := access;
    OthersKept(access);
    forall k | 0 <= k < |ms| && k != i ensures Grown(ms[k]) && ms[k].contents == old(ms[k].contents) {
      KeptIsGrown(ms[k]);
    }
    AllGrown(ms);
    assert Parts(ms) == old(Parts(ms))[i := ms[i].contents];
  }

  method ReadFrom(ms: seq<Memory>, i: nat, address: nat, size: nat) returns (r: seq<byte>)
    requires AllValid(ms) && MemorySpec.First(Parts(ms), address) == i && !Crosses(address, size)
    modifies Footprint(ms)
    ensures AllValid(ms) && fresh(Footprint(ms) - old(Footprint(ms))) && old(Footprint(ms)) <= Footprint(ms)
    ensures Parts(ms) == old(Parts(ms)) && r == Read(Parts(ms)[i], address, size)
  {
    hide Memory.Valid, Read, Store, AllValid, Footprint;
    SamePart(ms, i, address);
    OneOf(ms, i);
    r := ms[i].ReadInPage(address, size);
    OneTouched((ms, i));
  }

  method WriteTo(ms: seq<Memory>, i: nat, address: nat, value: seq<byte>)
    requires AllValid(ms) && MemorySpec.First(Parts(ms), address) == i && !Crosses(address, |value|)
    modifies Footprint(ms)
    ensures AllValid(ms) && fresh(Footprint(ms) - old(Footprint(ms))) && old(Footprint(ms)) <= Footprint(ms)
    ensures Parts(ms) == old(Parts(ms))[i := Store(old(Parts(ms))[i], address, value)]
  {
    hide Memory.Valid, Read, Store, AllValid, Footprint;
    SamePart(ms, i, address);
    OneOf(ms, i);
    ms[i].WriteInPage(address, value);
    OneTouched((ms, i));
  }

  lemma NothingThere(ps: seq<Image>, address: nat)
    requires MemorySpec.First(ps, address) == -1
    ensures address !in Join(ps)
  {
    JoinAt(ps, address);
  }

  /** The memories of a machine, accessed through the one that has the address (memory/memory.c:69-173). */
  class SimMemory {
    const memories: seq<Memory>
    ghost var Repr: set<object>
    ghost var contents: map<nat, byte>

    ghost predicate Valid()
      reads this, Repr
    {
      && (forall m :: m in memories ==> m in Repr)
      && Repr == {this} + Footprint(memories) && this !in Footprint(memories)
      && AllValid(memories)
      && contents == Holds(memories)
    }

    constructor (ms: seq<Memory>)
      requires AllValid(ms)
      ensures Valid() && memories == ms && contents == Holds(ms) && Repr == {this} + Footprint(ms)
    {
      memories := ms;
      new;
      KeepTrack();
    }

    // Memory i is the one that answers for an address.
    ghost predicate Answers(i: int, address: nat)
      requires Valid()
      reads this, Repr
    {
      0 <= i < |memories| && MemorySpec.First(Parts(memories), address) == i
    }

    // The index of the memory with an address; addresses of a page are all in the same one.
    method Find(address: nat) returns (i: int)
      requires Valid()
      ensures i == -1 ==> address !in contents
      ensures i != -1 ==> Answers(i, address)
    {
      i := GetMemoryForAddress(memories, address);
      if i == -1 {
        NothingThere(Parts(memories), address);
      }
    }

    ghost method KeepTrack()
      requires AllValid(memories) && this !in Footprint(memories)
      modifies this
      ensures Valid() && contents == old(Holds(memories)) && Repr == {this} + old(Footprint(memories))
    {
      hide Memory.Valid, Join, Parts;
      contents := Holds(memories);
      Repr := {this} + Footprint(memories);
      forall m | m in memories ensures m in Repr {
        ValidHas(m);
      }
    }

    method ReadFromOne(i: int, address: nat, size: nat) returns (r: seq<byte>)
      requires Valid() && Answers(i, address)
      requires address < GUARD && !Crosses(address, size)
      modifies Repr
      ensures Valid() && fresh(Repr - old(Repr))
      ensures contents == old(contents) && r == Read(Below(contents), address, size) && |r| == size
    {
      hide Memory.Valid, Join, Below, Parts, Read, Footprint;
      ghost var parts := Parts(memories);
      PageReads(memories, i, address, size);
      r := ReadFrom(memories, i, address, size);
      assert Parts(memories) == parts;
      KeepTrack();
    }

    method WriteToOne(i: int, address: nat, value: seq<byte>)
      requires Valid() && Answers(i, address) && !Crosses(address, |value|)
      modifies Repr
      ensures Valid() && fresh(Repr - old(Repr))
      ensures contents == Store(old(contents), address, value) && Present(old(contents), address, |value|) == |value|
    {
      hide Memory.Valid, Join, Below, Parts, Read, Store, Footprint;
      ghost var parts := Parts(memories);
      PageWrites(memories, i, address, value);
      WriteTo(memories, i, address, value);
      assert Parts(memories) == parts[i := Store(parts[i], address, value)];
      KeepTrack();
    }

    lemma RestOfPage(i: int, address: nat, size: nat)
      requires Valid() && Answers(i, address) && !Crosses(address, size)
      ensures Present(contents, address, size) == size
      ensures address < GUARD ==> Present(Below(contents), address, size) == size
    {
      PageWrites(memories, i, address, seq(size, k => 0));
      if address < GUARD {
        PageReads(memories, i, address, size);
      }
    }
  }

  lemma NothingToRead(c: Image, address: nat, size: nat)
    requires address !in c || address >= GUARD
    ensures Read(Below(c), address, size) == []
  {
  }
}
