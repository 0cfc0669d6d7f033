/** Listing the small pages of a page table (pagetable/pagetable.c:134-182), and the walk's view of them. */
module PageList {
  import opened Arith
  import opened Options
  import opened MemorySpec
  import opened LazyMemory
  import opened MemoryAccess
  import opened PageTable
  import opened PageWalk
  import opened Numbers

  // The program looks at the size bit in the two upper levels only.
  predicate Skipped(e: nat, level: Level) {
    !PresentBit(e) || (level >= 3 && SizeBit(e))
  }

  type Pairs = seq<(nat, nat)>

  // The pages of the addresses from lo to hi that a table leads to, in order, each once.
  ghost predicate Lists(look: Look, table: nat, level: Level, lo: nat, hi: nat, pairs: Pairs) {
    && (forall k :: 0 <= k < |pairs| ==> lo <= pairs[k].0 < hi && pairs[k].0 % 0x1000 == 0)
    && (forall k :: 0 <= k < |pairs| ==> Reach(look, table, pairs[k].0, level, 3) == Some(pairs[k].1))
    && (forall v: nat :: lo <= v < hi && v % 0x1000 == 0 && Reach(look, table, v, level, 3).Some? ==> Listed(pairs, v))
    && (forall j, k :: 0 <= j < k < |pairs| ==> pairs[j].0 < pairs[k].0)
  }

  ghost predicate Listed(pairs: Pairs, v: nat) {
    exists k :: 0 <= k < |pairs| && pairs[k].0 == v
  }

  // Of 512 blocks of s bytes, an address in block i has index i.
  lemma BlockIndex(s: nat, q: nat, i: nat, v: nat)
    requires i < 512 && q * (512 * s) + i * s <= v < q * (512 * s) + i * s + s
    ensures v / s % 512 == i
  {
    var k := 512 * q + i;
    assert k * s == q * (512 * s) + i * s;
    DivideUnique(v, s, k, v - k * s);
  }

  // Bases are multiples of what their table covers.
  ghost predicate IsBase(base: nat, level: Level) {
    exists q: nat :: base == q * (512 * Span(level))
  }

  lemma Covered(level: Level, base: nat, i: nat, v: nat)
    requires IsBase(base, level) && i < 512
    requires base + i * Span(level) <= v < base + i * Span(level) + Span(level)
    ensures Index(v, level) == i
  {
    var q: nat :| base == q * (512 * Span(level));
    BlockIndex(Span(level), q, i, v);
  }

  lemma NextBase(level: Level, base: nat, i: nat)
    requires level > 1 && IsBase(base, level)
    ensures IsBase(From(base, level, i), level - 1)
  {
    var s := Span(level);
    var q: nat :| base == q * (512 * s);
    assert s == 512 * Span(level - 1);
    assert base + i * s == (512 * q + i) * s;
  }

  lemma Appended(look: Look, table: nat, level: Level, lo: nat, mid: nat, hi: nat, p: Pairs, q: Pairs)
    requires lo <= mid <= hi && Lists(look, table, level, lo, mid, p) && Lists(look, table, level, mid, hi, q)
    ensures Lists(look, table, level, lo, hi, p + q)
  {
    var all := p + q;
    forall v: nat | lo <= v < hi && v % 0x1000 == 0 && Reach(look, table, v, level, 3).Some? ensures Listed(all, v) {
      if v < mid {
        assert Listed(p, v);
        var k :| 0 <= k < |p| && p[k].0 == v;
        assert all[k].0 == v;
      } else {
        assert Listed(q, v);
        var k :| 0 <= k < |q| && q[k].0 == v;
        assert all[|p| + k].0 == v;
      }
    }
  }

  // Where the part that entry i of a table covers begins.
  function From(base: nat, level: Level, i: nat): nat {
    base + i * Span(level)
  }

  // What entry i of a table covers, and what the whole table does.
  function Part(base: nat, level: Level, i: nat): (nat, nat) {
    (From(base, level, i), From(base, level, i + 1))
  }

  ghost predicate ListsPart(look: Look, table: nat, level: Level, part: (nat, nat), pairs: Pairs) {
    Lists(look, table, level, part.0, part.1, pairs)
  }

  // Entry i of a table is e.
  ghost predicate Slotted(look: Look, table: nat, i: nat, e: nat) {
    i < 512 && look(Frame(table) + 8 * i) == Some(e)
  }

  // As the walk of an address it covers meets it.
  lemma EntryOf(look: Look, table: nat, level: Level, base: nat, i: nat, e: nat, v: nat)
    requires IsBase(base, level) && Slotted(look, table, i, e)
    requires From(base, level, i) <= v < From(base, level, i + 1)
    ensures Find(look, table, v, level) == if PresentBit(e) then Some(e) else None
  {
    Covered(level, base, i, v);
  }

  lemma NothingListed(look: Look, table: nat, level: Level, base: nat, i: nat, e: nat)
    requires IsBase(base, level) && Slotted(look, table, i, e) && Skipped(e, level)
    ensures ListsPart(look, table, level, Part(base, level, i), [])
  {
    hide From;
    forall v: nat | From(base, level, i) <= v < From(base, level, i + 1) ensures Reach(look, table, v, level, 3).None? {
      EntryOf(look, table, level, base, i, e, v);
    }
  }

  lemma PartOfOne(base: nat, i: nat)
    requires IsBase(base, 1)
    ensures From(base, 1, i) % 0x1000 == 0 && From(base, 1, i + 1) == From(base, 1, i) + 0x1000
  {
    var q: nat :| base == q * (512 * Span(1));
    assert base == (q * 512) * 0x1000;
  }

  lemma OneListed(look: Look, table: nat, base: nat, i: nat, e: nat)
    requires IsBase(base, 1) && Slotted(look, table, i, e) && PresentBit(e)
    ensures ListsPart(look, table, 1, Part(base, 1, i), [(From(base, 1, i), e)])
  {
    hide From, Slotted, IsBase, Find, PresentBit;
    var lo := From(base, 1, i);
    PartOfOne(base, i);
    EntryOf(look, table, 1, base, i, e, lo);
    OnePage(look, table, lo, e);
  }

  // In a page there is one address that is a page's.
  lemma OnePage(look: Look, table: nat, lo: nat, e: nat)
    requires lo % 0x1000 == 0 && Find(look, table, lo, 1) == Some(e)
    ensures Lists(look, table, 1, lo, lo + 0x1000, [(lo, e)])
  {
    hide Find;
    var p := [(lo, e)];
    forall v: nat | lo <= v < lo + 0x1000 && v % 0x1000 == 0 ensures Listed(p, v) {
      assert p[0].0 == v;
    }
  }

  lemma PartOfMore(base: nat, level: Level, i: nat)
    requires level > 1
    ensures From(base, level, i + 1) == From(base, level, i) + 512 * Span(level - 1)
  {
  }

  lemma BelowReached(look: Look, table: nat, level: Level, base: nat, i: nat, e: nat, v: nat)
    requires level > 1 && IsBase(base, level) && Slotted(look, table, i, e) && !Skipped(e, level)
    requires From(base, level, i) <= v < From(base, level, i + 1)
    ensures Reach(look, table, v, level, 3) == Reach(look, e, v, level - 1, 3)
  {
    hide IsBase, From, Slotted;
    EntryOf(look, table, level, base, i, e, v);
  }

  lemma SameLists(look: Look, t: nat, l: Level, t': nat, l': Level, lo: nat, hi: nat, p: Pairs)
    requires Lists(look, t', l', lo, hi, p)
    requires forall v: nat :: lo <= v < hi ==> Reach(look, t, v, l, 3) == Reach(look, t', v, l', 3)
    ensures Lists(look, t, l, lo, hi, p)
  {
    hide Reach;
  }

  lemma BelowListed(look: Look, table: nat, level: Level, base: nat, i: nat, e: nat, p: Pairs)
    requires level > 1 && IsBase(base, level) && Slotted(look, table, i, e) && !Skipped(e, level)
    requires ListsTable(look, e, level - 1, From(base, level, i), p)
    ensures ListsPart(look, table, level, Part(base, level, i), p)
  {
    hide Reach, From, Slotted, IsBase, Lists, Skipped, Span;
    PartOfMore(base, level, i);
    var lo, hi := From(base, level, i), From(base, level, i + 1);
    forall v: nat | lo <= v < hi ensures Reach(look, table, v, level, 3) == Reach(look, e, v, level - 1, 3) {
      BelowReached(look, table, level, base, i, e, v);
    }
    SameLists(look, table, level, e, level - 1, lo, hi, p);
  }

  // The pages of the first i entries of a table, and of all of them.
  ghost predicate ListsFirst(look: Look, table: nat, level: Level, base: nat, i: nat, pairs: Pairs) {
    Lists(look, table, level, base, From(base, level, i), pairs)
  }

  ghost predicate ListsTable(look: Look, table: nat, level: Level, base: nat, pairs: Pairs) {
    Lists(look, table, level, base, base + 512 * Span(level), pairs)
  }

  lemma FirstNone(look: Look, table: nat, level: Level, base: nat)
    ensures ListsFirst(look, table, level, base, 0, [])
  {
  }

  lemma FirstOneMore(look: Look, table: nat, level: Level, base: nat, i: nat, pairs: Pairs, block: Pairs)
    requires ListsFirst(look, table, level, base, i, pairs)
    requires ListsPart(look, table, level, Part(base, level, i), block)
    ensures ListsFirst(look, table, level, base, i + 1, pairs + block)
  {
    hide Lists;
    Appended(look, table, level, base, From(base, level, i), From(base, level, i + 1), pairs, block);
  }

  lemma FirstAll(look: Look, table: nat, level: Level, base: nat, pairs: Pairs)
    requires ListsFirst(look, table, level, base, 512, pairs)
    ensures ListsTable(look, table, level, base, pairs)
  {
    hide Lists;
  }

  // ----- the tables themselves

  // All tables that the listing of a table comes to can be read.
  ghost predicate Readable(c: Image, table: nat, level: Level)
    decreases level, 1
  {
    Present(c, Frame(table), TABLE) == TABLE && forall i :: 0 <= i < 512 ==> EntryReadable(c, table, level, i)
  }

  ghost predicate EntryReadable(c: Image, table: nat, level: Level, i: nat)
    decreases level, 0
  {
    var e := EntryAt(c, Frame(table) + 8 * i);
    level > 1 && e.Some? && !Skipped(e.value, level) ==> Readable(c, e.value, level - 1)
  }

  // What goes wrong first, in the order of the entries, and the code for its level.
  ghost predicate Fails(c: Image, table: nat, level: Level, code: int)
    decreases level, 1
  {
    if Present(c, Frame(table), TABLE) != TABLE then
      code == if level == 4 then -1 else if level == 3 then -2 else -3
    else
      exists i :: 0 <= i < 512 && FirstReadable(c, table, level, i) && EntryFails(c, table, level, i, code)
  }

  ghost predicate EntryFails(c: Image, table: nat, level: Level, i: nat, code: int)
    decreases level, 0
  {
    var e := EntryAt(c, Frame(table) + 8 * i);
    level > 1 && e.Some? && !Skipped(e.value, level) && Fails(c, e.value, level - 1, code)
  }

  ghost predicate FirstReadable(c: Image, table: nat, level: Level, n: nat) {
    forall i :: 0 <= i < n ==> EntryReadable(c, table, level, i)
  }

  // The table is in the buffer; entry i of it is one of the 512.
  predicate Buffered(c: Image, table: nat, buffer: seq<byte>) {
    buffer == Read(c, Frame(table), TABLE) && |buffer| == TABLE
  }

  function Slot(buffer: seq<byte>, i: nat): nat
    requires |buffer| == TABLE && i < 512
  {
    Little(buffer[8 * i..8 * i + 8])
  }

  lemma SlotIs(c: Image, table: nat, level: Level, buffer: seq<byte>, i: nat)
    requires Buffered(c, table, buffer) && i < 512
    ensures Slotted(Looks(c), table, i, Slot(buffer, i))
    ensures EntryReadable(c, table, level, i) <==>
      (level > 1 && !Skipped(Slot(buffer, i), level) ==> Readable(c, Slot(buffer, i), level - 1))
    ensures forall code :: EntryFails(c, table, level, i, code) <==>
      level > 1 && !Skipped(Slot(buffer, i), level) && Fails(c, Slot(buffer, i), level - 1, code)
  {
    hide Read, Present, Readable, Fails, Skipped, Little, EntryAt, Frame;
    EntryOfPage(c, Frame(table), buffer, 8 * i);
  }

  lemma OneMoreReadable(c: Image, table: nat, level: Level, i: nat)
    ensures FirstReadable(c, table, level, 0)
    ensures FirstReadable(c, table, level, i + 1) <==>
      FirstReadable(c, table, level, i) && EntryReadable(c, table, level, i)
    ensures Readable(c, table, level) ==> i < 512 ==> EntryReadable(c, table, level, i)
    ensures Present(c, Frame(table), TABLE) == TABLE && FirstReadable(c, table, level, 512) ==>
      Readable(c, table, level)
  {
  }

  lemma FailsThere(c: Image, table: nat, level: Level, i: nat, code: int)
    requires i < 512 && Present(c, Frame(table), TABLE) == TABLE
    requires FirstReadable(c, table, level, i) && EntryFails(c, table, level, i, code)
    ensures Fails(c, table, level, code)
  {
  }

  lemma BufferedIf(c: Image, table: nat, level: Level, buffer: seq<byte>)
    requires buffer == Read(c, Frame(table), TABLE)
    ensures |buffer| == TABLE ==> Buffered(c, table, buffer)
    ensures |buffer| == TABLE <==> Present(c, Frame(table), TABLE) == TABLE
    ensures |buffer| != TABLE ==>
      !Readable(c, table, level) && Fails(c, table, level, if level == 4 then -1 else if level == 3 then -2 else -3)
  {
  }

  /**
   * The loops of the listing, one level each: the small pages of a table in order, each once, or a negative
   * code if some table cannot be read.
   */
  method ListTable(m: SimMemory, table: nat, level: Level, base: nat) returns (code: int, pairs: Pairs)
    requires m.Valid() && IsBase(base, level)
    modifies m.Repr
    ensures m.Valid() && fresh(m.Repr - old(m.Repr)) && m.contents == old(m.contents)
    ensures code == 0 <==> Readable(Below(m.contents), table, level)
    ensures code == 0 ==> ListsTable(Looks(Below(m.contents)), table, level, base, pairs)
    ensures code != 0 ==> Fails(Below(m.contents), table, level, code)
    decreases level
  {
    hide *;
    ghost var c := Below(m.contents);
    ghost var look := Looks(c);
    code, pairs := 0, [];
    var buffer := ReadSimMemory(m, Frame(table), TABLE);
    BufferedIf(c, table, level, buffer);
    if |buffer| != TABLE {
      return if level == 4 then -1 else if level == 3 then -2 else -3, [];
    }
    FirstNone(look, table, level, base);
    OneMoreReadable(c, table, level, 0);
    for i := 0 to 512
      invariant m.Valid() && fresh(m.Repr - old(m.Repr)) && m.contents == old(m.contents)
      invariant FirstReadable(c, table, level, i)
      invariant ListsFirst(look, table, level, base, i, pairs)
      invariant code == 0
    {
      SlotIs(c, table, level, buffer, i);
      OneMoreReadable(c, table, level, i);
      var e := Slot(buffer, i);
      var block: Pairs := [];
      if Skipped(e, level) {
        NothingListed(look, table, level, base, i, e);
      } else if level == 1 {
        block := [(From(base, 1, i), e)];
        NotSkipped(e);
        OneListed(look, table, base, i, e);
      } else {
        NextBase(level, base, i);
        code, block := ListTable(m, e, level - 1, From(base, level, i));
        if code != 0 {
          FailsThere(c, table, level, i, code);
          return;
        }
        BelowListed(look, table, level, base, i, e, block);
      }
      FirstOneMore(look, table, level, base, i, pairs, block);
      pairs := pairs + block;
    }
    OneMoreReadable(c, table, level, 512);
    FirstAll(look, table, level, base, pairs);
  }

  lemma NotSkipped(e: nat)
    requires !Skipped(e, 1)
    ensures PresentBit(e)
  {
  }

  // ----- the whole listing

  // A 48-bit address of a page.
  predicate IsPage(v: nat) {
    v < 0x1_0000_0000_0000 && v % 0x1000 == 0
  }

  /**
   * Everything the listing prints, or the code for the first table it cannot read: -1 for the root, -2 for one
   * below it, -3 for others. It is complete exactly if every table it comes to can be read.
   */
  method PrintPagetable(m: SimMemory, cr3: nat) returns (code: int, pairs: Pairs)
    requires m.Valid()
    modifies m.Repr
    ensures m.Valid() && fresh(m.Repr - old(m.Repr)) && m.contents == old(m.contents)
    ensures code == 0 <==> Readable(Below(m.contents), cr3, 4)
    ensures code == 0 ==> ListsTable(Looks(Below(m.contents)), cr3, 4, 0, pairs)
    ensures code != 0 ==> Fails(Below(m.contents), cr3, 4, code)
  {
    assert 0 == 0 * (512 * Span(4));
    code, pairs := ListTable(m, cr3, 4, 0);
  }

  /** A complete listing has exactly the pages whose tables, size bits aside at the third level, lead to one. */
  lemma ListedIffReached(look: Look, root: nat, pairs: Pairs, v: nat, e: nat)
    requires ListsTable(look, root, 4, 0, pairs)
    ensures (v, e) in pairs <==> IsPage(v) && Reach(look, root, v, 4, 3) == Some(e)
  {
    if (v, e) in pairs {
      var k :| 0 <= k < |pairs| && pairs[k] == (v, e);
    }
    if IsPage(v) && Reach(look, root, v, 4, 3) == Some(e) {
      assert Listed(pairs, v);
      var k :| 0 <= k < |pairs| && pairs[k].0 == v;
      assert pairs[k] == (v, e);
    }
  }

  // A page is listed with an entry exactly if the walk reaches that entry.
  ghost predicate AgreesAt(look: Look, root: nat, pairs: Pairs, v: nat) {
    forall e: nat :: (v, e) in pairs <==> Reach(look, root, v, 4, 2) == Some(e)
  }

  /** A complete listing and the walk agree on a page if and only if nothing is misread on its way. */
  lemma ListingAgreesIff(look: Look, root: nat, pairs: Pairs, v: nat)
    requires ListsTable(look, root, 4, 0, pairs) && IsPage(v)
    ensures AgreesAt(look, root, pairs, v) <==> !Misread(look, root, v)
  {
    hide ListsTable, IsPage, Misread, Reach;
    forall e: nat ensures (v, e) in pairs <==> Reach(look, root, v, 4, 3) == Some(e) {
      ListedIffReached(look, root, pairs, v, e);
    }
    StopsAgreeIff(look, root, v);
    SameOption(Reach(look, root, v, 4, 3), Reach(look, root, v, 4, 2));
  }

  lemma SameOption(p: Option<nat>, q: Option<nat>)
    ensures (forall e: nat :: p == Some(e) <==> q == Some(e)) <==> p == q
  {
    if forall e: nat :: p == Some(e) <==> q == Some(e) {
      assert p.Some? ==> q == Some(p.value);
      assert q.Some? ==> p == Some(q.value);
    }
  }

  /** They agree on all pages if and only if no two-megabyte page holds anything that looks like a present entry. */
  lemma WholeListingAgreesIff(look: Look, root: nat, pairs: Pairs)
    requires ListsTable(look, root, 4, 0, pairs)
    ensures (forall v: nat :: IsPage(v) ==> AgreesAt(look, root, pairs, v)) <==>
      (forall v: nat :: IsPage(v) ==> !Misread(look, root, v))
  {
    hide *;
    forall v: nat | IsPage(v) ensures AgreesAt(look, root, pairs, v) <==> !Misread(look, root, v) {
      ListingAgreesIff(look, root, pairs, v);
    }
  }

  /**
   * Where nothing is misread, an address is listed with an entry exactly if the walk of it reaches that entry, and
   * then the walk returns its frame and the place in the page. Where something is, the page is listed with what the
   * two-megabyte page holds, and the walk ends in that page.
   */
  lemma ListingAgreesWithWalk(look: Look, root: nat, pairs: Pairs, v: nat, e: nat, offset: nat)
    requires ListsTable(look, root, 4, 0, pairs) && IsPage(v) && offset < 0x1000
    ensures !Misread(look, root, v) ==> ((v, e) in pairs <==> Reach(look, root, v, 4, 2) == Some(e))
    ensures !Misread(look, root, v) && (v, e) in pairs ==> Walk(look, root, v + offset).phys == Frame(e) + offset
    ensures Misread(look, root, v) ==>
      var page := MiddlePage(look, root, v).value;
      && ((v, e) in pairs <==> Find(look, page, v, 1) == Some(e))
      && Walk(look, root, v + offset).phys == LeafAddress(page, v + offset, 2)
  {
    hide *;
    ListedIffReached(look, root, pairs, v, e);
    StopsAgreeIff(look, root, v);
    MisreadMeans(look, root, v);
    PageAligned(v);
    SameMiddlePage(look, root, v, offset);
    MiddlePageMet(look, root, v);
    MiddlePageMet(look, root, v + offset);
    if !Misread(look, root, v) && (v, e) in pairs {
      SamePage(look, root, v, offset, 4, 2);
      ReachedIsWalked(look, root, v + offset, 4, true);
      Start(look, root, v + offset);
      InPage(v, offset);
    }
  }

  lemma MisreadMeans(look: Look, root: nat, v: nat)
    ensures Misread(look, root, v) ==> MiddlePage(look, root, v).Some?
  {
  }

  lemma SameMiddlePage(look: Look, root: nat, v: nat, offset: nat)
    requires v % 0x1000 == 0 && offset < 0x1000
    ensures MiddlePage(look, root, v + offset) == MiddlePage(look, root, v)
  {
    SameIndex(v, offset, 4);
    SameIndex(v, offset, 3);
    SameIndex(v, offset, 2);
    hide Index, Frame, PresentBit, SizeBit;
  }

  lemma PageAligned(v: nat)
    requires IsPage(v)
    ensures v % 0x1000 == 0
  {
  }

  lemma InPage(v: nat, offset: nat)
    requires IsPage(v) && offset < 0x1000
    ensures (v + offset) % 0x1000 == offset
  {
  }

  // The walk looks at the page of an address only.
  lemma {:induction false} SamePage(look: Look, table: nat, v: nat, offset: nat, level: Level, stop: Level)
    requires v % 0x1000 == 0 && offset < 0x1000
    ensures Reach(look, table, v + offset, level, stop) == Reach(look, table, v, level, stop)
    decreases level
  {
    SameIndex(v, offset, level);
    hide Index, Frame, PresentBit, SizeBit;
    var e := Find(look, table, v, level);
    if e.Some? && level != 1 {
      SamePage(look, e.value, v, offset, level - 1, stop);
    }
  }

  lemma AlignedRest(v: nat, s: nat, k: nat)
    requires v % 0x1000 == 0 && k > 0 && s == k * 0x1000
    ensures v % s + 0x1000 <= s
  {
    var a := v / 0x1000;
    assert a == k * (a / k) + a % k && a % k < k;
    assert v == (a / k) * s + a % k * 0x1000;
    DivideUnique(v, s, a / k, a % k * 0x1000);
  }

  lemma SameIndex(v: nat, offset: nat, level: Level)
    requires v % 0x1000 == 0 && offset < 0x1000
    ensures Index(v + offset, level) == Index(v, level)
  {
    var s, q, r := Span(level), v / Span(level), v % Span(level);
    AlignedRest(v, s, s / 0x1000);
    DivideUnique(v + offset, s, q, r + offset);
  }

  // ----- a memory in which the listing goes wrong

  // Tables at 0, 0x1000 and 0x2000 lead to a two-megabyte page at 0x200000, which begins with the number 0x5001.
  function MiddleEntries(): map<nat, nat> {
    map[0 := 0x1001, 0x1000 := 0x2001, 0x2000 := 0x20_0081, 0x20_0000 := 0x5001]
  }

  function MiddleImage(): Image {
    Holding(0x40_0000, MiddleEntries())
  }

  // An entry that leads to this page of the example.
  predicate InExample(table: nat, frame: nat) {
    Frame(table) == frame && frame % TABLE == 0 && frame + TABLE <= 0x40_0000
  }

  lemma MiddleLooks(at: nat)
    requires at % 8 == 0 && at + 8 <= 0x40_0000
    ensures EntryAt(MiddleImage(), at) == Some(EntryAtOrZero(MiddleEntries(), at))
  {
    HoldingLooks(0x40_0000, MiddleEntries(), at);
  }

  lemma EntryReadableIf(c: Image, table: nat, level: Level, i: nat, e: nat)
    requires EntryAt(c, Frame(table) + 8 * i) == Some(e)
    requires Skipped(e, level) || (level > 1 ==> Readable(c, e, level - 1))
    ensures EntryReadable(c, table, level, i)
  {
  }

  lemma ReadableIf(c: Image, table: nat, level: Level)
    requires Present(c, Frame(table), TABLE) == TABLE && FirstReadable(c, table, level, 512)
    ensures Readable(c, table, level)
  {
  }

  // Entry i of a table of the example; only the first is not zero.
  lemma SlotOfExample(table: nat, frame: nat, level: Level, i: nat, e: nat)
    requires InExample(table, frame) && i < 512 && EntryAtOrZero(MiddleEntries(), frame) == e
    requires Skipped(e, level) || (level > 1 ==> Readable(MiddleImage(), e, level - 1))
    ensures EntryReadable(MiddleImage(), table, level, i)
  {
    hide *;
    SlotOfOne(table, frame, i);
    SkippedZero(level);
    SlotLooks(table, frame, i);
    EntryReadableIf(MiddleImage(), table, level, i, EntryAtOrZero(MiddleEntries(), frame + 8 * i));
  }

  lemma SlotLooks(table: nat, frame: nat, i: nat)
    requires InExample(table, frame) && i < 512
    ensures EntryAt(MiddleImage(), Frame(table) + 8 * i) == Some(EntryAtOrZero(MiddleEntries(), frame + 8 * i))
  {
    hide Frame, EntryAt, EntryAtOrZero, MiddleEntries, MiddleImage;
    MiddleLooks(frame + 8 * i);
  }

  lemma SlotOfOne(table: nat, frame: nat, i: nat)
    requires InExample(table, frame) && i < 512
    ensures EntryAtOrZero(MiddleEntries(), frame + 8 * i) == if i == 0 then EntryAtOrZero(MiddleEntries(), frame) else 0
  {
    if i > 0 {
      OnlyFirst(frame, i);
    }
  }

  lemma OnlyFirst(frame: nat, i: nat)
    requires frame % TABLE == 0 && 0 < i < 512
    ensures EntryAtOrZero(MiddleEntries(), frame + 8 * i) == 0
  {
    assert (frame + 8 * i) % TABLE == 8 * i;
  }

  lemma SkippedZero(level: Level)
    ensures Skipped(0, level)
  {
  }

  lemma TableOfExample(table: nat, frame: nat, level: Level, e: nat)
    requires InExample(table, frame)
    requires EntryAtOrZero(MiddleEntries(), frame) == e
    requires Skipped(e, level) || (level > 1 ==> Readable(MiddleImage(), e, level - 1))
    ensures Readable(MiddleImage(), table, level)
  {
    AllPresent(MiddleImage(), frame, TABLE);
    hide Readable, EntryReadable, Skipped, MiddleEntries, EntryAtOrZero, Frame;
    forall i | 0 <= i < 512 ensures EntryReadable(MiddleImage(), table, level, i) {
      SlotOfExample(table, frame, level, i, e);
    }
    ReadableIf(MiddleImage(), table, level);
  }

  // The frame of an entry with few other bits.
  lemma FrameIs(e: nat, frame: nat, rest: nat)
    requires e == frame + rest && frame % 0x1000 == 0 && rest < 0x1000 && frame < 0x4_0000_0000_0000
    ensures Frame(e) == frame
  {
    DivideUnique(e, 0x1000, frame / 0x1000, rest);
  }

  lemma ExampleFrames()
    ensures InExample(0, 0) && InExample(0x1001, 0x1000) && InExample(0x2001, 0x2000) && InExample(0x20_0081, 0x20_0000)
  {
    FrameIs(0, 0, 0);
    FrameIs(0x1001, 0x1000, 1);
    FrameIs(0x2001, 0x2000, 1);
    FrameIs(0x20_0081, 0x20_0000, 0x81);
  }

  lemma ExampleBits()
    ensures PresentBit(0x1001) && PresentBit(0x2001) && PresentBit(0x20_0081) && PresentBit(0x5001)
    ensures !SizeBit(0x1001) && !SizeBit(0x2001) && SizeBit(0x20_0081)
  {
  }

  lemma ExampleEntries()
    ensures EntryAtOrZero(MiddleEntries(), 0) == 0x1001 && EntryAtOrZero(MiddleEntries(), 0x1000) == 0x2001
    ensures EntryAtOrZero(MiddleEntries(), 0x2000) == 0x20_0081 && EntryAtOrZero(MiddleEntries(), 0x20_0000) == 0x5001
  {
  }

  // All tables that the listing comes to can be read.
  lemma MiddleIsReadable()
    ensures Readable(MiddleImage(), 0, 4)
  {
    hide *;
    ExampleFrames();
    ExampleEntries();
    TableOfExample(0x20_0081, 0x20_0000, 1, 0x5001);
    TableOfExample(0x2001, 0x2000, 2, 0x20_0081);
    TableOfExample(0x1001, 0x1000, 3, 0x2001);
    TableOfExample(0, 0, 4, 0x1001);
  }

  lemma FoundInExample(table: nat, frame: nat, level: Level, e: nat)
    requires InExample(table, frame)
    requires EntryAtOrZero(MiddleEntries(), frame) == e && PresentBit(e)
    ensures Find(Looks(MiddleImage()), table, 0, level) == Some(e)
  {
    IndexOfZero(level);
    hide EntryAtOrZero, MiddleEntries, Frame, PresentBit, Index;
    MiddleLooks(frame);
  }

  lemma IndexOfZero(level: Level)
    ensures Index(0, level) == 0
  {
    DivideUnique(0, Span(level), 0, 0);
  }

  // The walk of address 0 ends in the page, and a table in its place would have an entry.
  lemma ExampleIsMisread()
    ensures var look := Looks(MiddleImage());
      && MiddlePage(look, 0, 0) == Some(0x20_0081) && Misread(look, 0, 0)
      && Find(look, 0x20_0081, 0, 1) == Some(0x5001) && LeafAddress(0x20_0081, 0, 2) == 0x20_0000
  {
    ExampleLeaf();
    ExampleFrames();
    ExampleEntries();
    ExampleBits();
    hide Find, Frame, SizeBit, PresentBit, LeafAddress, EntryAtOrZero, MiddleEntries, MiddleImage, Looks;
    FoundInExample(0, 0, 4, 0x1001);
    FoundInExample(0x1001, 0x1000, 3, 0x2001);
    FoundInExample(0x2001, 0x2000, 2, 0x20_0081);
    FoundInExample(0x20_0081, 0x20_0000, 1, 0x5001);
  }

  lemma ExampleLeaf()
    ensures LeafAddress(0x20_0081, 0, 2) == 0x20_0000
  {
  }

  lemma MiddleIsSeen()
    ensures Below(MiddleImage()) == MiddleImage()
  {
    HoldingIsSeen(0x40_0000, MiddleEntries());
  }

  lemma ZeroIsPage()
    ensures IsPage(0)
  {
  }

  /**
   * In this memory the listing is complete, and has address 0 with the first number of the two-megabyte page; the
   * walk of address 0 ends at that page instead, and reaches no entry of a small page.
   */
  lemma LargePageIsListed(pairs: Pairs)
    ensures Readable(Below(MiddleImage()), 0, 4)
    ensures ListsTable(Looks(Below(MiddleImage())), 0, 4, 0, pairs) ==> (0, 0x5001) in pairs
    ensures Walk(Looks(Below(MiddleImage())), 0, 0).phys == 0x20_0000
    ensures Reach(Looks(Below(MiddleImage())), 0, 0, 4, 2).None?
  {
    hide *;
    MiddleIsSeen();
    MiddleIsReadable();
    ExampleIsMisread();
    ZeroIsPage();
    var look := Looks(MiddleImage());
    MiddlePageMet(look, 0, 0);
    if ListsTable(look, 0, 4, 0, pairs) {
      ListingAgreesWithWalk(look, 0, pairs, 0, 0x5001, 0);
    }
  }
}
