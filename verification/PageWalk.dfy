/** The page walk and the page-table loader on simulated memory (pagetable/pagetable.c:41-132, 184-219). */
module PageWalk {
  import opened Arith
  import opened Options
  import opened MemorySpec
  import opened LazyMemory
  import opened MemoryAccess
  import opened PageTable
  import opened Numbers

  const TABLE: nat := 4096                        // 512 entries of 8 bytes
  const RECORD: nat := 8 + TABLE                  // the address of a table, and the table

  function EntryAt(c: Image, a: nat): Option<nat> {
    var r := Read(c, a, 8);
    if |r| == 8 then Some(Little(r)) else None
  }

  // What a memory answers to the walk.
  function Looks(c: Image): Look {
    a => EntryAt(c, a)
  }

  // ----- the walk

  method ReadEntry(m: SimMemory, a: nat) returns (e: Option<nat>)
    requires m.Valid()
    modifies m.Repr
    ensures m.Valid() && fresh(m.Repr - old(m.Repr)) && m.contents == old(m.contents)
    ensures e == Looks(Below(m.contents))(a)
  {
    var r := ReadSimMemory(m, a, 8);
    e := if |r| == 8 then Some(Little(r)) else None;
  }

  // ----- memories in which the walk goes wrong

  // Memory from 0 up to a size with these entries at these addresses, and zeros.
  function Holding(size: nat, entries: map<nat, nat>): (c: Image)
    ensures forall a: nat :: a in c <==> a < size
  {
    map a: nat | a < size :: EntryByte(entries, a)
  }

  function EntryAtOrZero(entries: map<nat, nat>, at: nat): nat {
    if at in entries then entries[at] else 0
  }

  function EntryByte(entries: map<nat, nat>, a: nat): byte {
    LittleBytes(EntryAtOrZero(entries, a / 8 * 8), 8)[a % 8]
  }

  // The eight bytes of an aligned entry.
  lemma BytesOfEntry(entries: map<nat, nat>, at: nat, k: nat)
    requires at % 8 == 0 && k < 8
    ensures EntryByte(entries, at + k) == LittleBytes(EntryAtOrZero(entries, at), 8)[k]
  {
    assert (at + k) / 8 * 8 == at && (at + k) % 8 == k;
  }

  lemma HoldingLooks(size: nat, entries: map<nat, nat>, at: nat)
    requires at % 8 == 0 && at + 8 <= size && EntryAtOrZero(entries, at) < 0x1_0000_0000_0000_0000
    ensures Looks(Holding(size, entries))(at) == Some(EntryAtOrZero(entries, at))
  {
    hide Little, LittleBytes, Power, EntryByte, EntryAtOrZero;
    var c, e := Holding(size, entries), EntryAtOrZero(entries, at);
    Powers();
    LittleRoundTrip(e, 8);
    AllPresent(c, at, 8);
    var r := Read(c, at, 8);
    forall k | 0 <= k < 8 ensures r[k] == LittleBytes(e, 8)[k] {
      BytesOfEntry(entries, at, k);
      assert r[k] == c[at + k];
    }
    assert r == LittleBytes(e, 8);
  }

  // Below the guard, the reader sees all of it.
  lemma HoldingIsSeen(size: nat, entries: map<nat, nat>)
    requires size <= GUARD
    ensures Below(Holding(size, entries)) == Holding(size, entries)
  {
    hide EntryByte;
  }

  // A page with nothing but a first entry that has the reserved size bit.
  function ReservedImage(): Image {
    Holding(PAGE, map[0 := 0x81])
  }

  /** A first-level entry with the reserved size bit is taken for a page that the manual does not have. */
  lemma ReservedBitIsTaken()
    ensures var look := Looks(ReservedImage());
      Walk(look, 0, 0x1234).phys == 0x1234 && Manual(look, 0, 0x1234).phys == NOTFOUND
  {
    ReservedEntry();
    hide *;
    var look := Looks(ReservedImage());
    ReservedNumbers();
    Found(look, 0, 0x1234, 4, 0x81);
    ReservedIsLeaf(look, 0, 0x1234, 0x81);
  }

  lemma ReservedEntry()
    ensures Looks(ReservedImage())(0) == Some(0x81)
  {
    HoldingLooks(PAGE, map[0 := 0x81], 0);
  }

  lemma ReservedNumbers()
    ensures EntryAddress(0, 0x1234, 4) == 0 && LeafAddress(0x81, 0x1234, 4) == 0x1234
    ensures PresentBit(0x81) && SizeBit(0x81)
  {
  }

  // A first-level entry that leads to a table at 0x1000, and there a page of a gigabyte with bit 52 set.
  function HighBitImage(): Image {
    Holding(2 * PAGE, map[0 := 0x1001, 0x1000 := 0x10_0000_0000_0081])
  }

  /** A mapped large page can look as if it were not mapped: bit 52 of its entry comes through. */
  lemma MappedLooksMissing()
    ensures var look := Looks(HighBitImage());
      Walk(look, 0, 0).phys == NOTFOUND && Manual(look, 0, 0).phys == 0
  {
    hide *;
    HighBitEntries();
    TableNumbers();
    RootAddress();
    SecondAddress(0x1001);
    LargeNumbers();
    var look := Looks(HighBitImage());
    Found(look, 0, 0, 4, 0x1001);
    Found(look, 0x1001, 0, 3, 0x10_0000_0000_0081);
    LargeIsLeaf(look, 0, 0, 0x1001, 0x10_0000_0000_0081);
  }

  lemma HighBitEntries()
    ensures Looks(HighBitImage())(0) == Some(0x1001) && Looks(HighBitImage())(0x1000) == Some(0x10_0000_0000_0081)
  {
    HoldingLooks(2 * PAGE, map[0 := 0x1001, 0x1000 := 0x10_0000_0000_0081], 0);
    HoldingLooks(2 * PAGE, map[0 := 0x1001, 0x1000 := 0x10_0000_0000_0081], 0x1000);
  }

  lemma RootAddress()
    ensures EntryAddress(0, 0, 4) == 0
  {
  }

  lemma TableNumbers()
    ensures PresentBit(0x1001) && !SizeBit(0x1001)
  {
  }

  lemma SecondAddress(e: nat)
    requires e == 0x1000 + 1
    ensures EntryAddress(e, 0, 3) == 0x1000
  {
    DivideUnique(e, 0x1000, 1, 1);
    assert Frame(e) == 0x1000 && Index(0, 3) == 0;
  }

  lemma LargeNumbers()
    ensures PresentBit(0x10_0000_0000_0081) && SizeBit(0x10_0000_0000_0081)
    ensures LeafAddress(0x10_0000_0000_0081, 0, 3) == NOTFOUND && ManualLeaf(0x10_0000_0000_0081, 0, 3) == 0
  {
    hide ManualLeaf;
    ManualLeafIs(0x10_0000_0000_0081, 0, 3);
  }

  lemma Found(look: Look, table: nat, v: nat, level: Level, e: nat)
    requires look(EntryAddress(table, v, level)) == Some(e) && PresentBit(e)
    ensures Find(look, table, v, level) == Some(e)
  {
  }

  // Four tables of one entry each, one leading to the next and the last to a page at 0x4000, all with these low bits.
  function ChainEntries(low: nat): map<nat, nat> {
    map[0 := 0x1000 + low, 0x1000 := 0x2000 + low, 0x2000 := 0x3000 + low, 0x3000 := 0x4000 + low]
  }

  function ChainImage(low: nat): Image {
    Holding(4 * PAGE, ChainEntries(low))
  }

  lemma ChainFound(low: nat, k: nat, v: nat)
    requires low < 128 && low % 2 == 1 && k < 4 && v < 0x1000
    ensures Find(Looks(ChainImage(low)), if k == 0 then 0 else 0x1000 * k + low, v, 4 - k) ==
      Some(0x1000 * (k + 1) + low)
  {
    hide Looks, Holding, ChainImage, PresentBit, Index, Frame;
    var table, e := if k == 0 then 0 else 0x1000 * k + low, 0x1000 * (k + 1) + low;
    ChainLooks(low, k);
    ChainNumbers(low, k);
    ChainNumbers(low, k + 1);
    FirstIndex(v, 4 - k);
  }

  lemma ChainLooks(low: nat, k: nat)
    requires low < 128 && k < 4
    ensures Looks(ChainImage(low))(0x1000 * k) == Some(0x1000 * (k + 1) + low)
  {
    hide Looks, Holding, ChainEntries, EntryAtOrZero;
    ChainAt(low, k);
    HoldingLooks(4 * PAGE, ChainEntries(low), 0x1000 * k);
  }

  lemma ChainAt(low: nat, k: nat)
    requires low < 128 && k < 4
    ensures EntryAtOrZero(ChainEntries(low), 0x1000 * k) == 0x1000 * (k + 1) + low
  {
  }

  lemma FirstIndex(v: nat, level: Level)
    requires v < 0x1000
    ensures Index(v, level) == 0
  {
  }

  lemma ChainNumbers(low: nat, k: nat)
    requires low < 128 && low % 2 == 1 && k <= 4
    ensures var e := 0x1000 * k + low;
      && PresentBit(e) && !SizeBit(e) && Frame(e) == 0x1000 * k
      && (UserBit(e) <==> low % 8 >= 4) && (CacheBit(e) <==> low % 32 >= 16)
    ensures Frame(0) == 0
  {
    hide UserBit, CacheBit, SizeBit;
    var e := 0x1000 * k + low;
    UserBitIs(e);
    CacheBitIs(e);
    SizeBitIs(e);
    LowBitsOf(k, low);
    DivideUnique(e, 0x1000, k, low);
  }

  lemma LowBitsOf(k: nat, low: nat)
    requires low < 128
    ensures var e := 0x1000 * k + low;
      e % 2 == low % 2 && e % 8 == low % 8 && e % 32 == low % 32 && e % 256 == low
  {
    DivideUnique(0x1000 * k + low, 2, 0x800 * k + low / 2, low % 2);
    DivideUnique(0x1000 * k + low, 8, 0x200 * k + low / 8, low % 8);
    DivideUnique(0x1000 * k + low, 32, 0x80 * k + low / 32, low % 32);
    DivideUnique(0x1000 * k + low, 256, 0x10 * k, low);
  }

  lemma ChainStep(low: nat, k: nat, v: nat, user: bool)
    requires low < 128 && low % 2 == 1 && k < 4 && v < 0x1000
    ensures var look, e := Looks(ChainImage(low)), 0x1000 * (k + 1) + low;
      var user' := user && low % 8 >= 4;
      WalkFrom(look, if k == 0 then 0 else 0x1000 * k + low, v, 4 - k, user) ==
        if k == 3 then Translation(0x4000 + v, user', Some(low % 32 >= 16)) else WalkFrom(look, e, v, 3 - k, user')
  {
    hide Looks, ChainImage, Find, Frame, UserBit, CacheBit, SizeBit;
    ChainFound(low, k, v);
    ChainNumbers(low, k + 1);
  }

  /** In such a memory, a page is a user page exactly if bit 2 is set in the low bits, and bit 4 is the cache flag. */
  lemma ChainWalk(low: nat, v: nat)
    requires low < 128 && low % 2 == 1 && v < 0x1000
    ensures Walk(Looks(Below(ChainImage(low))), 0, v) == Translation(0x4000 + v, low % 8 >= 4, Some(low % 32 >= 16))
  {
    hide Looks, ChainImage, WalkFrom, Holding;
    ChainIsSeen(low);
    ChainStep(low, 0, v, true);
    ChainStep(low, 1, v, low % 8 >= 4);
    ChainStep(low, 2, v, low % 8 >= 4);
    ChainStep(low, 3, v, low % 8 >= 4);
  }

  lemma ChainIsSeen(low: nat)
    ensures Below(ChainImage(low)) == ChainImage(low)
  {
    hide Holding;
    HoldingIsSeen(4 * PAGE, ChainEntries(low));
  }

  /** Entries that end in 3 (present and writable) lead to a page of the kernel, entries that end in 7 to a user's. */
  lemma KernelAndUserPage(v: nat)
    requires v < 0x1000
    ensures Walk(Looks(Below(ChainImage(0x003))), 0, v) == Translation(0x4000 + v, false, Some(false))
    ensures Walk(Looks(Below(ChainImage(0x007))), 0, v) == Translation(0x4000 + v, true, Some(false))
  {
    hide *;
    ChainWalk(0x003, v);
    ChainWalk(0x007, v);
  }

  function WithoutHighBit(e: nat): nat {
    e % HIGH
  }

  // ----- clearing bit 63 changes nothing the walk looks at

  lemma MaskedUser(e: nat)
    ensures UserBit(e % HIGH) == UserBit(e)
  {
    LowerDigits(e, 4, 2, 0x1000_0000_0000_0000, HIGH);
  }

  lemma MaskedCache(e: nat)
    ensures CacheBit(e % HIGH) == CacheBit(e)
  {
    LowerDigits(e, 16, 2, 0x400_0000_0000_0000, HIGH);
  }

  lemma MaskedSize(e: nat)
    ensures SizeBit(e % HIGH) == SizeBit(e)
  {
    LowerDigits(e, 128, 2, 0x80_0000_0000_0000, HIGH);
  }

  lemma MaskedFrame(e: nat)
    ensures Frame(e % HIGH) == Frame(e)
  {
    LowerDigits(e, 0x1000, 0x40_0000_0000, 0x2000, HIGH);
  }

  lemma MaskedLeaf(e: nat, v: nat, level: Level)
    requires level != 1
    ensures LeafAddress(e % HIGH, v, level) == LeafAddress(e, v, level)
  {
    var f := e % HIGH;
    if level == 4 {
      MaskedHuge(e);
    } else {
      assert f % HIGH == f;
    }
  }

  lemma MaskedHuge(e: nat)
    ensures e % HIGH / 0x4000_0000 % 0x4_0000 == e / 0x4000_0000 % 0x4_0000
  {
    LowerDigits(e, 0x4000_0000, 0x4_0000, 0x8000, HIGH);
  }

  // What a walk comes to where an entry is missing, where it is not the last one, and where it is.
  lemma Missing(look: Look, table: nat, v: nat, level: Level, user: bool, entry: Option<nat>)
    requires entry == look(EntryAddress(table, v, level)) && (entry.None? || !PresentBit(entry.value))
    ensures WalkFrom(look, table, v, level, user) == Translation(NOTFOUND, user, None)
  {
  }

  lemma Step(look: Look, table: nat, v: nat, level: Level, user: bool, e: nat)
    requires level != 1 && Some(e) == look(EntryAddress(table, v, level)) && PresentBit(e)
    ensures var masked := WithoutHighBit(e); var user' := user && UserBit(masked);
      WalkFrom(look, table, v, level, user) ==
        if SizeBit(masked) then
          Translation(LeafAddress(masked, v, level), user', if level == 4 then None else Some(CacheBit(masked)))
        else WalkFrom(look, masked, v, level - 1, user')
  {
    MaskedUser(e);
    MaskedCache(e);
    MaskedSize(e);
    MaskedLeaf(e, v, level);
    SameFrame(look, e, e % HIGH, v, level - 1, user && UserBit(e));
  }

  lemma Final(look: Look, table: nat, v: nat, user: bool, e: nat)
    requires Some(e) == look(EntryAddress(table, v, 1)) && PresentBit(e)
    ensures WalkFrom(look, table, v, 1, user) ==
      Translation(LeafAddress(e, v, 1), user && UserBit(e), Some(CacheBit(e)))
  {
  }

  lemma SameFrame(look: Look, e: nat, e': nat, v: nat, level: Level, user: bool)
    requires e' == e % HIGH
    ensures WalkFrom(look, e, v, level, user) == WalkFrom(look, e', v, level, user)
  {
    MaskedFrame(e);
  }

  lemma Start(look: Look, root: nat, v: nat)
    ensures Walk(look, root, v) == WalkFrom(look, root, v, 4, true)
  {
  }

  /** The walk, step by step, on memory that loads its pages as they are met. */
  method VaddrToPhys(m: SimMemory, root: nat, v: nat, cacheDisable: bool)
    returns (phys: nat, isUserPage: bool, cacheDisable': bool)
    requires m.Valid()
    modifies m.Repr
    ensures m.Valid() && fresh(m.Repr - old(m.Repr)) && m.contents == old(m.contents)
    ensures var t := Walk(Looks(Below(m.contents)), root, v);
      && phys == t.phys && isUserPage == t.user
      && cacheDisable' == if t.cacheDisable.Some? then t.cacheDisable.value else cacheDisable
  {
    hide *;
    ghost var look := Looks(Below(m.contents));
    isUserPage, cacheDisable' := true, cacheDisable;
    Start(look, root, v);

    var entry4 := ReadEntry(m, EntryAddress(root, v, 4));
    if entry4.None? || !PresentBit(entry4.value) {
      Missing(look, root, v, 4, isUserPage, entry4);
      return NOTFOUND, isUserPage, cacheDisable';
    }
    Step(look, root, v, 4, isUserPage, entry4.value);
    var masked4 := WithoutHighBit(entry4.value);
    if isUserPage && !UserBit(masked4) {
      isUserPage := false;
    }
    if SizeBit(masked4) {
      phys := LeafAddress(masked4, v, 4);
      return;
    }

    var entry3 := ReadEntry(m, EntryAddress(masked4, v, 3));
    if entry3.None? || !PresentBit(entry3.value) {
      Missing(look, masked4, v, 3, isUserPage, entry3);
      return NOTFOUND, isUserPage, cacheDisable';
    }
    Step(look, masked4, v, 3, isUserPage, entry3.value);
    var masked3 := WithoutHighBit(entry3.value);
    if isUserPage && !UserBit(masked3) {
      isUserPage := false;
    }
    if SizeBit(masked3) {
      cacheDisable' := CacheBit(masked3);
      phys := LeafAddress(masked3, v, 3);
      return;
    }

    var entry2 := ReadEntry(m, EntryAddress(masked3, v, 2));
    if entry2.None? || !PresentBit(entry2.value) {
      Missing(look, masked3, v, 2, isUserPage, entry2);
      return NOTFOUND, isUserPage, cacheDisable';
    }
    Step(look, masked3, v, 2, isUserPage, entry2.value);
    var masked2 := WithoutHighBit(entry2.value);
    if isUserPage && !UserBit(masked2) {
      isUserPage := false;
    }
    if SizeBit(masked2) {
      cacheDisable' := CacheBit(masked2);
      phys := LeafAddress(masked2, v, 2);
      return;
    }

    var entry1 := ReadEntry(m, EntryAddress(masked2, v, 1));
    if entry1.None? || !PresentBit(entry1.value) {
      Missing(look, masked2, v, 1, isUserPage, entry1);
      return NOTFOUND, isUserPage, cacheDisable';
    }
    Final(look, masked2, v, isUserPage, entry1.value);
    if isUserPage && !UserBit(entry1.value) {
      isUserPage := false;
    }
    cacheDisable' := CacheBit(entry1.value);
    phys := LeafAddress(entry1.value, v, 1);
  }

  // ----- writes elsewhere

  lemma LooksFramed(c: Image, address: nat, value: seq<byte>, a: nat)
    requires address + |value| <= a || a + 8 <= address
    ensures Looks(Below(Store(c, address, value)))(a) == Looks(Below(c))(a)
  {
    ReadLocal(Below(Store(c, address, value)), Below(c), a, 8);
  }

  /** A write that meets none of the entries read leaves the result and the flags of a walk. */
  lemma WriteElsewhere(c: Image, address: nat, value: seq<byte>, root: nat, v: nat)
    requires forall a :: a in Touched(Looks(Below(c)), root, v, 4) ==> address + |value| <= a || a + 8 <= address
    ensures Walk(Looks(Below(Store(c, address, value))), root, v) == Walk(Looks(Below(c)), root, v)
  {
    var f, g := Looks(Below(c)), Looks(Below(Store(c, address, value)));
    forall a | a in Touched(f, root, v, 4) ensures f(a) == g(a) {
      LooksFramed(c, address, value, a);
    }
    WalkFramed(f, g, root, v, 4, true);
  }

  // ----- loading tables from a dump

  // A dump is a sequence of records: the address of a table and its 512 entries.
  predicate Whole(file: seq<byte>) {
    |file| >= 8 + TABLE
  }

  function RecordFrame(file: seq<byte>): (f: nat)
    requires Whole(file)
    ensures f % TABLE == 0
  {
    Frame(Little(file[..8]))
  }

  function RecordTable(file: seq<byte>): (t: seq<byte>)
    requires Whole(file)
    ensures |t| == TABLE
  {
    file[8..8 + TABLE]
  }

  function Rest(file: seq<byte>): (rest: seq<byte>)
    requires Whole(file)
    ensures |rest| < |file|
  {
    file[8 + TABLE..]
  }

  // What the loader leaves: whole records are stored one after the other, each at its frame.
  function Load(c: Image, file: seq<byte>): Image
    decreases |file|
  {
    if Whole(file) then Load(Store(c, RecordFrame(file), RecordTable(file)), Rest(file)) else c
  }

  // The last whole record of a dump for a frame.
  function LastRecord(file: seq<byte>, frame: nat): (r: Option<seq<byte>>)
    ensures r.Some? ==> |r.value| == TABLE
    decreases |file|
  {
    if !Whole(file) then None else
      var later := LastRecord(Rest(file), frame);
      if later.Some? then later else if RecordFrame(file) == frame then Some(RecordTable(file)) else None
  }

  function Last(file: seq<byte>, frame: nat, otherwise: seq<byte>): seq<byte> {
    var r := LastRecord(file, frame);
    if r.Some? then r.value else otherwise
  }

  lemma LastStep(file: seq<byte>, frame: nat, otherwise: seq<byte>)
    ensures !Whole(file) ==> Last(file, frame, otherwise) == otherwise
    ensures Whole(file) ==>
      && var otherwise' := if RecordFrame(file) == frame then RecordTable(file) else otherwise;
      && Last(file, frame, otherwise) == Last(Rest(file), frame, otherwise')
  {
  }

  lemma LoadStep(c: Image, file: seq<byte>)
    ensures !Whole(file) ==> Load(c, file) == c
    ensures Whole(file) ==> Load(c, file) == Load(Store(c, RecordFrame(file), RecordTable(file)), Rest(file))
  {
  }

  /** After loading, a frame that is there holds its last record, or what it held if it has none. */
  lemma {:induction false} LastRecordStays(c: Image, file: seq<byte>, frame: nat)
    requires frame % TABLE == 0 && Present(c, frame, TABLE) == TABLE
    ensures Read(Load(c, file), frame, TABLE) == Last(file, frame, Read(c, frame, TABLE))
    decreases |file|
  {
    hide *;
    LastStep(file, frame, Read(c, frame, TABLE));
    LoadStep(c, file);
    if Whole(file) {
      var g, record := RecordFrame(file), RecordTable(file);
      var d := Store(c, g, record);
      RecordStored(c, g, record, frame);
      LastRecordStays(d, Rest(file), frame);
    }
  }

  lemma RecordStored(c: Image, g: nat, record: seq<byte>, frame: nat)
    requires frame % TABLE == 0 && g % TABLE == 0 && |record| == TABLE && Present(c, frame, TABLE) == TABLE
    ensures Present(Store(c, g, record), frame, TABLE) == TABLE
    ensures Read(Store(c, g, record), frame, TABLE) == if g == frame then record else Read(c, frame, TABLE)
  {
    var d := Store(c, g, record);
    KeysStay(c, g, record);
    SamePresent(c, d, frame, TABLE);
    if g == frame {
      ReadBack(c, g, record);
    } else {
      FramesApart(g, frame);
      ReadFramed(c, g, record, frame, TABLE);
    }
  }

  lemma FramesApart(f: nat, g: nat)
    requires f % TABLE == 0 && g % TABLE == 0 && f != g
    ensures f + TABLE <= g || g + TABLE <= f
  {
  }

  // The frame of an address, and the place in it.
  function FrameOf(a: nat): (f: nat)
    ensures f % TABLE == 0 && f <= a < f + TABLE
  {
    a / TABLE * TABLE
  }

  // A dump as a map from addresses to entries.
  function DumpEntry(file: seq<byte>, a: nat): Option<nat> {
    var r, at := LastRecord(file, FrameOf(a)), a - FrameOf(a);
    if r.Some? && at + 8 <= TABLE then Some(Little(r.value[at..at + 8])) else None
  }

  function DumpLooks(file: seq<byte>): Look {
    a => DumpEntry(file, a)
  }

  // All of a frame is there and can be read.
  ghost predicate Loadable(c: Image, frame: nat) {
    Present(c, frame, TABLE) == TABLE && frame + TABLE <= GUARD
  }

  /** Every entry of every dumped frame that is there reads back as in the last record for its frame. */
  lemma EntryReadsBack(c: Image, file: seq<byte>, a: nat)
    requires Loadable(c, FrameOf(a)) && DumpEntry(file, a).Some?
    ensures EntryAt(Below(Load(c, file)), a) == DumpEntry(file, a)
  {
    hide *;
    var d, frame := Load(c, file), FrameOf(a);
    var before := Read(c, frame, TABLE);
    DumpEntryMeans(file, a, before);
    LoadableMeans(c, frame);
    LastRecordStays(c, file, frame);
    BelowReads(d, frame, TABLE);
    EntryOfPage(Below(d), frame, Last(file, frame, before), a - frame);
  }

  lemma DumpEntryMeans(file: seq<byte>, a: nat, otherwise: seq<byte>)
    requires DumpEntry(file, a).Some?
    ensures var t, at := Last(file, FrameOf(a), otherwise), a - FrameOf(a);
      |t| == TABLE && at + 8 <= TABLE && DumpEntry(file, a) == Some(Little(t[at..at + 8]))
  {
  }

  lemma LoadableMeans(c: Image, frame: nat)
    requires Loadable(c, frame)
    ensures Present(c, frame, TABLE) == TABLE && frame + TABLE <= GUARD
  {
  }

  // An entry is eight bytes of its table.
  lemma EntryOfPage(c: Image, frame: nat, page: seq<byte>, at: nat)
    requires page == Read(c, frame, TABLE) && |page| == TABLE && at + 8 <= TABLE
    ensures EntryAt(c, frame + at) == Some(Little(page[at..at + 8]))
  {
    hide Read;
    PartOfRead(c, frame, TABLE, at, 8);
  }

  // Part of a complete read is a read.
  lemma PartOfRead(c: Image, address: nat, size: nat, at: nat, n: nat)
    requires at + n <= size && |Read(c, address, size)| == size
    ensures Read(c, address + at, n) == Read(c, address, size)[at..at + n]
  {
    var whole := Read(c, address, size);
    assert forall k :: 0 <= k < size ==> address + k in c && whole[k] == c[address + k];
    forall a: nat | address + at <= a < address + at + n ensures a in c {
      assert address + (a - address) in c;
    }
    AllPresent(c, address + at, n);
    var part := Read(c, address + at, n);
    forall k | 0 <= k < n ensures part[k] == whole[at..at + n][k] {
      assert whole[at + k] == c[address + (at + k)];
    }
  }

  /** Walking the loaded memory is walking the dump, as long as the walk stays in dumped frames that are there. */
  lemma LoadThenWalk(c: Image, file: seq<byte>, root: nat, v: nat)
    requires forall a :: a in Touched(DumpLooks(file), root, v, 4) ==>
      Loadable(c, FrameOf(a)) && DumpEntry(file, a).Some?
    ensures Walk(Looks(Below(Load(c, file))), root, v) == Walk(DumpLooks(file), root, v)
  {
    var f, g := DumpLooks(file), Looks(Below(Load(c, file)));
    forall a | a in Touched(f, root, v, 4) ensures f(a) == g(a) {
      EntryReadsBack(c, file, a);
    }
    WalkFramed(f, g, root, v, 4, true);
  }

  /** Records are read until the file ends; a dump that ends inside a table is refused after the fact. */
  method ReadPagetable(m: SimMemory, dump: Option<seq<byte>>) returns (code: int)
    requires m.Valid()
    modifies m.Repr
    ensures m.Valid() && fresh(m.Repr - old(m.Repr))
    ensures dump.None? ==> m.contents == old(m.contents) && code == 1
    ensures dump.Some? ==> m.contents == Load(old(m.contents), dump.value)
    ensures dump.Some? ==> code == if Leftover(dump.value) < 8 then 0 else 1
  {
    hide *;
    if dump.None? {
      return 1;
    }
    var file := dump.value;
    ghost var all := Load(m.contents, file);
    while true
      invariant m.Valid() && fresh(m.Repr - old(m.Repr))
      invariant Load(m.contents, file) == all
      invariant Leftover(file) == Leftover(dump.value)
      decreases |file|
    {
      LoadStep(m.contents, file);
      RestLength(file);
      if |file| < 8 {
        return 0;
      }
      if !Whole(file) {
        return 1;
      }
      var written := WriteSimMemory(m, RecordFrame(file), RecordTable(file));
      file := Rest(file);
    }
  }

  // The bytes after the last whole record.
  function Leftover(file: seq<byte>): nat {
    |file| % RECORD
  }

  lemma RestLength(file: seq<byte>)
    ensures !Whole(file) ==> Leftover(file) == |file|
    ensures Whole(file) ==> Leftover(Rest(file)) == Leftover(file) && |file| >= 8
  {
  }
}
