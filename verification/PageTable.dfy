/**
 * The walk of the four-level page tables (pagetable/pagetable.c:41-132), as a function of what the
 * memory answers, compared with the walk the processor manual describes.
 */
module PageTable {
  import opened Options
  import opened Arith

  const NOTFOUND: nat := 0x10_0000_0000_0000      // 2^52
  const HIGH: nat := 0x8000_0000_0000_0000        // 2^63
  const PHYSICAL: nat := 0x4_0000_0000_0000       // 2^50

  // The eight bytes at an address as a number, if all eight are there.
  type Look = nat -> Option<nat>

  // Levels count down from 4, the table that the control register names, to 1, the table of small pages.
  type Level = n: nat | 1 <= n <= 4 witness 1

  predicate PresentBit(e: nat) { e % 2 == 1 }
  predicate UserBit(e: nat) { e / 4 % 2 == 1 }
  predicate CacheBit(e: nat) { e / 16 % 2 == 1 }
  predicate SizeBit(e: nat) { e / 128 % 2 == 1 }

  // The bytes that one entry of a level covers.
  function Span(level: Level): nat {
    match level
    case 1 => 0x1000
    case 2 => 0x20_0000
    case 3 => 0x4000_0000
    case 4 => 0x80_0000_0000
  }

  function Index(v: nat, level: Level): (i: nat)
    ensures i < 512
  {
    v / Span(level) % 512
  }

  // Bits 12 to 49 of an entry.
  function Frame(e: nat): nat {
    e / 0x1000 % 0x40_0000_0000 * 0x1000
  }

  function EntryAddress(table: nat, v: nat, level: Level): nat {
    Frame(table) + 8 * Index(v, level)
  }

  // A present entry, if the walk finds one in a table.
  function Find(look: Look, table: nat, v: nat, level: Level): Option<nat> {
    match look(EntryAddress(table, v, level))
    case None => None
    case Some(e) => if PresentBit(e) then Some(e) else None
  }

  /** An address, whether all entries allow user access, and the cache-disable bit where one was read. */
  datatype Translation = Translation(phys: nat, user: bool, cacheDisable: Option<bool>)

  // ----- the program's walk

  // What the program makes of an entry with the size bit, or of a last entry.
  function LeafAddress(e: nat, v: nat, level: Level): nat {
    match level
    case 4 => e / 0x4000_0000 % 0x4_0000 * 0x4000_0000 + v % 0x4000_0000
    case 1 => Frame(e) + v % 0x1000
    case _ => e % HIGH / Span(level) * Span(level) + v % Span(level)
  }

  function WalkFrom(look: Look, table: nat, v: nat, level: Level, user: bool): Translation
    decreases level
  {
    match Find(look, table, v, level)
    case None => Translation(NOTFOUND, user, None)
    case Some(e) =>
      var user := user && UserBit(e);
      if level == 1 || SizeBit(e) then
        Translation(LeafAddress(e, v, level), user, if level == 4 then None else Some(CacheBit(e)))
      else
        WalkFrom(look, e, v, level - 1, user)
  }

  function Walk(look: Look, root: nat, v: nat): Translation {
    WalkFrom(look, root, v, 4, true)
  }

  // ----- the walk of section 4.5 of the Intel SDM, volume 3A, with 50 bits of physical address

  // The lowest bit of an address that selects an entry of a level; the bits below it are the place in what is mapped.
  function LowBit(level: Level): nat {
    12 + 9 * (level - 1)
  }

  // The physical address in bits 12 to 49 of an entry or of the control register.
  function TableAddress(e: nat): nat {
    ShiftedLeft(Bits(e, 50, 12), 12)
  }

  // What the manual makes of an entry that ends the walk.
  function ManualLeaf(e: nat, v: nat, level: Level): nat {
    ShiftedLeft(Bits(e, 50, LowBit(level)), LowBit(level)) + Bits(v, LowBit(level), 0)
  }

  // Bit 0 of an entry says that it is there, bit 2 that users may come through, bit 4 that caching is disabled, and bit
  // 7 that it maps a page where it could name a table; at the first level, bit 7 is reserved.
  function ManualFrom(look: Look, table: nat, v: nat, level: Level, user: bool): Translation
    decreases level
  {
    match look(table + 8 * Bits(v, LowBit(level) + 9, LowBit(level)))
    case None => Translation(NOTFOUND, user, None)
    case Some(e) =>
      if Bits(e, 1, 0) == 0 then Translation(NOTFOUND, user, None)
      else
        var user := user && Bits(e, 3, 2) == 1;
        if level == 4 && Bits(e, 8, 7) == 1 then Translation(NOTFOUND, user, None)
        else if level == 1 || Bits(e, 8, 7) == 1 then
          Translation(ManualLeaf(e, v, level), user, Some(Bits(e, 5, 4) == 1))
        else ManualFrom(look, TableAddress(e), v, level - 1, user)
  }

  // ----- the program's masks and shifts are those bits

  lemma SpanIs(level: Level)
    ensures Span(level) == TwoTo(LowBit(level)) && 512 * Span(level) == TwoTo(LowBit(level) + 9)
    ensures PHYSICAL == TwoTo(50)
  {
    hide TwoTo;
    SmallPowers();
    FourMore(8);
    NineMore(12);
    NineMore(21);
    NineMore(30);
    NineMore(39);
    OneMore(48);
    OneMore(49);
  }

  lemma FlagBits(e: nat)
    ensures Bits(e, 1, 0) == e % 2 && Bits(e, 3, 2) == e % 8 / 4 && Bits(e, 5, 4) == e % 32 / 16
    ensures Bits(e, 8, 7) == e % 256 / 128
  {
    hide TwoTo;
    SmallPowers();
  }

  lemma UserBitIs(e: nat)
    ensures UserBit(e) <==> e % 8 >= 4
  {
  }

  lemma CacheBitIs(e: nat)
    ensures CacheBit(e) <==> e % 32 >= 16
  {
  }

  lemma SizeBitIs(e: nat)
    ensures SizeBit(e) <==> e % 256 >= 128
  {
  }

  lemma FlagsAre(e: nat)
    ensures Bits(e, 1, 0) == (if PresentBit(e) then 1 else 0) && Bits(e, 3, 2) == if UserBit(e) then 1 else 0
    ensures Bits(e, 5, 4) == (if CacheBit(e) then 1 else 0) && Bits(e, 8, 7) == if SizeBit(e) then 1 else 0
  {
    hide Bits, UserBit, CacheBit, SizeBit;
    FlagBits(e);
    UserBitIs(e);
    CacheBitIs(e);
    SizeBitIs(e);
  }

  lemma FrameBits(e: nat)
    ensures Frame(e) == TableAddress(e)
  {
    hide TwoTo;
    SpanIs(1);
    var q, r := e / PHYSICAL, e % PHYSICAL;
    assert e / 0x1000 == q * 0x40_0000_0000 + r / 0x1000;
  }

  lemma IndexBits(v: nat, level: Level)
    ensures Index(v, level) == Bits(v, LowBit(level) + 9, LowBit(level))
  {
    hide TwoTo, Span;
    SpanIs(level);
    SliceOfNumber(v, Span(level), 512);
  }

  // Digits taken from above or from below.
  lemma SliceOfNumber(v: nat, d: nat, m: nat)
    requires d > 0 && m > 0
    ensures m * d > 0 && v / d % m == v % (m * d) / d
  {
    var q, f := Divided(v, m * d);
    var y, r := Divided(f, d);
    Regroup(q, 1, m, d);
    Distribute(q * m, y, d);
    DivideUnique(v, d, q * m + y, r);
    if y >= m {
      MulMonotone(m, y, d);
    }
    DigitOf(q, 0, y, m);
  }

  lemma ManualLeafIs(e: nat, v: nat, level: Level)
    ensures ManualLeaf(e, v, level) == e % PHYSICAL / Span(level) * Span(level) + v % Span(level)
  {
    hide TwoTo;
    SpanIs(level);
    SmallPowers();
  }

  // One step of the manual's walk, in the program's terms.
  lemma ManualStep(look: Look, table: nat, v: nat, level: Level, user: bool)
    ensures ManualFrom(look, TableAddress(table), v, level, user) ==
      match Find(look, table, v, level)
      case None => Translation(NOTFOUND, user, None)
      case Some(e) =>
        var user := user && UserBit(e);
        if level == 4 && SizeBit(e) then Translation(NOTFOUND, user, None)
        else if level == 1 || SizeBit(e) then Translation(ManualLeaf(e, v, level), user, Some(CacheBit(e)))
        else ManualFrom(look, TableAddress(e), v, level - 1, user)
  {
    hide Bits, PresentBit, UserBit, CacheBit, SizeBit, TableAddress, Frame, Index, ManualLeaf, LowBit;
    FrameBits(table);
    IndexBits(v, level);
    var e := look(EntryAddress(table, v, level));
    if e.Some? {
      FlagsAre(e.value);
    }
  }

  // No reserved size bit is met, and no large page has address bits from 50 on.
  predicate PlainFrom(look: Look, table: nat, v: nat, level: Level)
    decreases level
  {
    match Find(look, table, v, level)
    case None => true
    case Some(e) =>
      if level == 1 then true
      else if SizeBit(e) then level != 4 && e % HIGH < PHYSICAL
      else PlainFrom(look, e, v, level - 1)
  }

  lemma LowBits(e: nat)
    ensures e % HIGH % PHYSICAL == e % PHYSICAL
  {
    var q, f := e / HIGH, e % HIGH;
    assert e == (q * 0x2000) * PHYSICAL + f;
  }

  lemma SmallLeaf(e: nat, v: nat)
    ensures LeafAddress(e, v, 1) == ManualLeaf(e, v, 1)
  {
    hide ManualLeaf;
    ManualLeafIs(e, v, 1);
    var q, r := e / PHYSICAL, e % PHYSICAL;
    assert e / 0x1000 == q * 0x40_0000_0000 + r / 0x1000;
  }

  lemma LargeLeaf(e: nat, v: nat, level: Level)
    requires level == 2 || level == 3
    ensures LeafAddress(e, v, level) == ManualLeaf(e, v, level) <==> e % HIGH < PHYSICAL
    ensures e % HIGH < PHYSICAL ==> LeafAddress(e, v, level) < PHYSICAL
  {
    hide ManualLeaf;
    ManualLeafIs(e, v, level);
    LowBits(e);
    var f := e % HIGH;
    if f < PHYSICAL {
      assert e % PHYSICAL == f;
    } else {
      assert f / Span(level) >= PHYSICAL / Span(level);
    }
  }

  lemma FirstLeaf(e: nat, v: nat)
    ensures LeafAddress(e, v, 4) < PHYSICAL
  {
  }

  lemma {:induction false} FromAgreesIff(look: Look, table: nat, v: nat, level: Level, user: bool)
    ensures WalkFrom(look, table, v, level, user) == ManualFrom(look, TableAddress(table), v, level, user)
      <==> PlainFrom(look, table, v, level)
    decreases level
  {
    hide Find, TableAddress, ManualLeaf, LeafAddress, ManualFrom, UserBit, CacheBit, SizeBit;
    ManualStep(look, table, v, level, user);
    match Find(look, table, v, level)
    case None =>
    case Some(e) =>
      if level == 1 {
        SmallLeaf(e, v);
      } else if !SizeBit(e) {
        FromAgreesIff(look, e, v, level - 1, user && UserBit(e));
      } else if level != 4 {
        LargeLeaf(e, v, level);
      } else {
        FirstLeaf(e, v);
      }
  }

  function Manual(look: Look, root: nat, v: nat): Translation {
    ManualFrom(look, TableAddress(root), v, 4, true)
  }

  predicate Plain(look: Look, root: nat, v: nat) {
    PlainFrom(look, root, v, 4)
  }

  /** The program's walk is the manual's exactly where no odd bits are met; then NOTFOUND means not mapped. */
  lemma WalkIsManualIff(look: Look, root: nat, v: nat)
    ensures Walk(look, root, v) == Manual(look, root, v) <==> Plain(look, root, v)
    ensures Plain(look, root, v) ==> Walk(look, root, v).phys == NOTFOUND || Walk(look, root, v).phys < PHYSICAL
  {
    hide ManualFrom, WalkFrom, TableAddress;
    FromAgreesIff(look, root, v, 4, true);
    ManualIsPhysical(look, root, v, 4, true);
  }

  lemma LeafIsPhysical(e: nat, v: nat, level: Level)
    ensures e % PHYSICAL / Span(level) * Span(level) + v % Span(level) < PHYSICAL
  {
    var a := e % PHYSICAL / Span(level);
    assert a < PHYSICAL / Span(level) && v % Span(level) < Span(level);
  }

  lemma {:induction false} ManualIsPhysical(look: Look, table: nat, v: nat, level: Level, user: bool)
    ensures var r := ManualFrom(look, TableAddress(table), v, level, user).phys; r == NOTFOUND || r < PHYSICAL
    decreases level
  {
    hide Find, TableAddress, ManualLeaf, ManualFrom, UserBit, CacheBit, SizeBit;
    ManualStep(look, table, v, level, user);
    match Find(look, table, v, level)
    case None =>
    case Some(e) =>
      if level == 1 || SizeBit(e) {
        ManualLeafIs(e, v, level);
        LeafIsPhysical(e, v, level);
      } else {
        ManualIsPhysical(look, e, v, level - 1, user && UserBit(e));
      }
  }

  // A first-level entry with the reserved size bit is taken for a page.
  lemma ReservedIsLeaf(look: Look, root: nat, v: nat, e: nat)
    requires Find(look, root, v, 4) == Some(e) && SizeBit(e)
    ensures Walk(look, root, v).phys == LeafAddress(e, v, 4) && Manual(look, root, v).phys == NOTFOUND
  {
    hide Find, TableAddress, ManualFrom, UserBit, CacheBit, SizeBit;
    ManualStep(look, root, v, 4, true);
  }

  // The bits of a large page from 50 on come through.
  lemma LargeIsLeaf(look: Look, root: nat, v: nat, e: nat, large: nat)
    requires Find(look, root, v, 4) == Some(e) && !SizeBit(e)
    requires Find(look, e, v, 3) == Some(large) && SizeBit(large)
    ensures Walk(look, root, v).phys == LeafAddress(large, v, 3)
    ensures Manual(look, root, v).phys == ManualLeaf(large, v, 3)
  {
    hide Find, TableAddress, ManualLeaf, LeafAddress, ManualFrom, UserBit, CacheBit, SizeBit;
    assert WalkFrom(look, e, v, 3, UserBit(e)).phys == LeafAddress(large, v, 3);
    ManualStep(look, root, v, 4, true);
    ManualStep(look, e, v, 3, UserBit(e));
  }

  // ----- what is read on the way

  // The addresses of the entries read, and the present entries among them.
  function Touched(look: Look, table: nat, v: nat, level: Level): (r: seq<nat>)
    ensures 1 <= |r| <= level
    decreases level
  {
    [EntryAddress(table, v, level)] +
    match Find(look, table, v, level)
    case None => []
    case Some(e) => if level == 1 || SizeBit(e) then [] else Touched(look, e, v, level - 1)
  }

  function Traversed(look: Look, table: nat, v: nat, level: Level): seq<nat>
    decreases level
  {
    match Find(look, table, v, level)
    case None => []
    case Some(e) => [e] + if level == 1 || SizeBit(e) then [] else Traversed(look, e, v, level - 1)
  }

  // Bit 2 is set in each of these.
  ghost predicate AllUser(entries: seq<nat>) {
    forall e :: e in entries ==> e % 8 >= 4
  }

  lemma AllUserFrom(e: nat, rest: seq<nat>)
    ensures AllUser([e] + rest) <==> e % 8 >= 4 && AllUser(rest)
  {
    assert e in [e] + rest;
    assert forall x :: x in rest ==> x in [e] + rest;
  }

  /** A page is a user page exactly if every entry on the way has its bit 2 set. */
  lemma {:induction false} UserIsConjunction(look: Look, table: nat, v: nat, level: Level, user: bool)
    ensures WalkFrom(look, table, v, level, user).user <==> user && AllUser(Traversed(look, table, v, level))
    decreases level
  {
    hide Find, UserBit, CacheBit, SizeBit, LeafAddress, AllUser;
    match Find(look, table, v, level)
    case None =>
      NobodyOnTheWay();
    case Some(e) =>
      UserBitIs(e);
      NobodyOnTheWay();
      if level == 1 || SizeBit(e) {
        AllUserFrom(e, []);
      } else {
        AllUserFrom(e, Traversed(look, e, v, level - 1));
        UserIsConjunction(look, e, v, level - 1, user && UserBit(e));
      }
  }

  lemma NobodyOnTheWay()
    ensures AllUser([])
  {
  }

  // The level of the entry that ends the walk, if one does.
  function EndsAt(look: Look, table: nat, v: nat, level: Level): Option<Level>
    decreases level
  {
    match Find(look, table, v, level)
    case None => None
    case Some(e) => if level == 1 || SizeBit(e) then Some(level) else EndsAt(look, e, v, level - 1)
  }

  // The bits of an entry that the program takes for the address of a page, with the place in the page below them.
  function LeafBits(e: nat, v: nat, level: Level): nat {
    var top, low := if level == 1 then 50 else if level == 4 then 48 else 63, if level == 4 then 30 else LowBit(level);
    ShiftedLeft(Bits(e, top, low), low) + Bits(v, low, 0)
  }

  lemma LeafIsBits(e: nat, v: nat, level: Level)
    ensures LeafAddress(e, v, level) == LeafBits(e, v, level)
  {
    hide TwoTo;
    SmallPowers();
    if level == 1 {
      hide Bits, Span;
      FrameBits(e);
      SpanIs(1);
      BitsFromZero(v, 12);
    } else if level == 4 {
      FirstLeafBits(e, v);
    } else {
      SpanIs(level);
      SpanIs(4);
      NineMore(48);
      FourMore(57);
      OneMore(61);
      OneMore(62);
      assert TwoTo(63) == HIGH;
    }
  }

  lemma BitsFromZero(v: nat, n: nat)
    ensures Bits(v, n, 0) == v % TwoTo(n)
  {
  }

  lemma FirstLeafBits(e: nat, v: nat)
    ensures e / 0x4000_0000 % 0x4_0000 * 0x4000_0000 + v % 0x4000_0000 ==
      ShiftedLeft(Bits(e, 48, 30), 30) + Bits(v, 30, 0)
  {
    hide TwoTo;
    SmallPowers();
    SpanIs(3);
    SpanIs(4);
    SliceOfNumber(e, 0x4000_0000, 0x4_0000);
  }

  /**
   * Where a walk ends at an entry, its address and, below the first level, the cache flag are bits of that entry: the
   * last one on the way. Where it does not, it returns that it has found nothing.
   */
  lemma {:induction false} WalkEndsAt(look: Look, table: nat, v: nat, level: Level, user: bool)
    ensures var t, on := WalkFrom(look, table, v, level, user), Traversed(look, table, v, level);
      match EndsAt(look, table, v, level)
      case None => t.phys == NOTFOUND && t.cacheDisable.None?
      case Some(end) =>
        && on != [] && t.phys == LeafBits(on[|on| - 1], v, end)
        && t.cacheDisable == if end == 4 then None else Some(on[|on| - 1] % 32 >= 16)
    decreases level
  {
    hide Find, UserBit, CacheBit, SizeBit, LeafAddress, LeafBits;
    match Find(look, table, v, level)
    case None =>
    case Some(e) =>
      CacheBitIs(e);
      LeafIsBits(e, v, level);
      if !(level == 1 || SizeBit(e)) {
        WalkEndsAt(look, e, v, level - 1, user && UserBit(e));
      }
  }

  /** The walk depends on at most four entries. */
  lemma {:induction false} WalkFramed(f: Look, g: Look, table: nat, v: nat, level: Level, user: bool)
    requires forall a :: a in Touched(f, table, v, level) ==> f(a) == g(a)
    ensures WalkFrom(f, table, v, level, user) == WalkFrom(g, table, v, level, user)
    ensures Touched(f, table, v, level) == Touched(g, table, v, level)
    decreases level
  {
    assert EntryAddress(table, v, level) in Touched(f, table, v, level);
    match Find(f, table, v, level)
    case None =>
    case Some(e) =>
      if !(level == 1 || SizeBit(e)) {
        WalkFramed(f, g, e, v, level - 1, user && UserBit(e));
      }
  }

  // ----- small pages

  // The entry of the small page of an address, if the tables lead to one; at the level stop and above it
  // the size bit ends the walk.
  function Reach(look: Look, table: nat, v: nat, level: Level, stop: Level): Option<nat>
    decreases level
  {
    match Find(look, table, v, level)
    case None => None
    case Some(e) =>
      if level == 1 then Some(e)
      else if level >= stop && SizeBit(e) then None
      else Reach(look, e, v, level - 1, stop)
  }

  /** Where a small page is reached, the walk returns its frame and the place in it. */
  lemma {:induction false} ReachedIsWalked(look: Look, table: nat, v: nat, level: Level, user: bool)
    requires Reach(look, table, v, level, 2).Some?
    ensures var e := Reach(look, table, v, level, 2).value;
      var t := WalkFrom(look, table, v, level, user);
      t.phys == Frame(e) + v % 0x1000 && t.cacheDisable == Some(CacheBit(e))
    decreases level
  {
    var e := Find(look, table, v, level).value;
    if level != 1 {
      ReachedIsWalked(look, e, v, level - 1, user && UserBit(e));
    }
  }

  // The entry that a walk past one level goes on with: present, and not ending the walk by its size bit.
  function Next(look: Look, table: Option<nat>, v: nat, level: Level): Option<nat> {
    match table
    case None => None
    case Some(t) =>
      var e := Find(look, t, v, level);
      if e.Some? && !SizeBit(e.value) then e else None
  }

  // The entry of the two-megabyte page that the walk of an address ends at, if it does.
  function MiddlePage(look: Look, root: nat, v: nat): Option<nat> {
    match Next(look, Next(look, Some(root), v, 4), v, 3)
    case None => None
    case Some(table) =>
      var e := Find(look, table, v, 2);
      if e.Some? && SizeBit(e.value) then e else None
  }

  // Such a page is met, and what it holds looks like a present entry where a table would have that of the address.
  predicate Misread(look: Look, root: nat, v: nat) {
    var page := MiddlePage(look, root, v);
    page.Some? && Find(look, page.value, v, 1).Some?
  }

  // Where the size bit of the third level makes a difference.
  lemma MiddlePageMet(look: Look, root: nat, v: nat)
    ensures MiddlePage(look, root, v).None? ==> Reach(look, root, v, 4, 3) == Reach(look, root, v, 4, 2)
    ensures MiddlePage(look, root, v).Some? ==>
      var page := MiddlePage(look, root, v).value;
      && Reach(look, root, v, 4, 3) == Find(look, page, v, 1)
      && Reach(look, root, v, 4, 2).None?
      && Walk(look, root, v).phys == LeafAddress(page, v, 2)
  {
    hide Find, SizeBit, LeafAddress;
    var e := Find(look, root, v, 4);
    if e.Some? && !SizeBit(e.value) {
      var f := Find(look, e.value, v, 3);
      if f.Some? && !SizeBit(f.value) {
        var g, table, user := Find(look, f.value, v, 2), f.value, UserBit(e.value);
        assert Reach(look, e.value, v, 3, 3) == Reach(look, table, v, 2, 3);
        assert Reach(look, e.value, v, 3, 2) == Reach(look, table, v, 2, 2);
        assert WalkFrom(look, e.value, v, 3, user) == WalkFrom(look, table, v, 2, user && UserBit(table));
      }
    }
  }

  /** Whether the size bit is looked at there makes no difference exactly if nothing is misread. */
  lemma StopsAgreeIff(look: Look, root: nat, v: nat)
    ensures Reach(look, root, v, 4, 3) == Reach(look, root, v, 4, 2) <==> !Misread(look, root, v)
  {
    MiddlePageMet(look, root, v);
    hide Find, Reach, MiddlePage;
  }
}
