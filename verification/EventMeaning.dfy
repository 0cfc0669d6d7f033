/**
 * What each event does, said without the functions of the loop: by the bits of the registers and of the page-table
 * entries on the way, by the bytes of the number stored, and by the access handed over.
 */
module EventMeaning {
  import opened Options
  import opened Arith
  import opened MemorySpec
  import opened LazyMemory
  import opened PageTable
  import PageWalk
  import opened Numbers
  import opened EventCodec
  import opened EventStream
  import opened Hierarchy
  import opened Dispatch
  import opened EventLoop

  // Register r of a processor; each has eight.
  function Cr(b: State, cpu: nat, r: nat): nat
    requires 8 * cpu + r < |b.registers|
  {
    b.registers[8 * cpu + r]
  }

  // Bit 0 of register 0 and one of its bits from 31 on.
  predicate Paged(cr0: nat) {
    cr0 % 2 == 1 && cr0 >= 0x8000_0000
  }

  // The table that register 3 names: without its lowest twelve bits.
  function FirstTable(cr3: nat): nat {
    cr3 - cr3 % 0x1000
  }

  /**
   * What an address of a processor stands for. Without paging it is physical, and counts as a user's if the one before
   * did. With it, the program gives up unless bit 5 of register 4 is set and the walk finds something; the page is a
   * user's if bit 2 is set in every entry on the way.
   */
  ghost function Meant(b: State, cpu: nat, address: nat): Option<Physical>
    requires 8 * cpu + 4 < |b.registers|
  {
    var look, root := PageWalk.Looks(Below(b.image)), FirstTable(Cr(b, cpu, 3));
    var t := Walk(look, root, address);
    if !Paged(Cr(b, cpu, 0)) then Some(Physical(address, b.user, false))
    else if Cr(b, cpu, 4) % 64 < 32 || t.phys == NOTFOUND then None
    else Some(Physical(t.phys, AllUser(Traversed(look, root, address, 4)), t.cacheDisable == Some(true)))
  }

  lemma TranslateIsMeant(b: State, cpu: nat, address: nat)
    requires 8 * cpu + 4 < |b.registers|
    ensures Translate(b.image, b.registers, b.user, cpu, address) == Meant(b, cpu, address)
  {
    hide Walk, Traversed, PageWalk.Looks, Below, AllUser, Root, FirstTable, PagingEnabled, Extended, Paged;
    var cr0, cr3, cr4 := Cr(b, cpu, 0), Cr(b, cpu, 3), Cr(b, cpu, 4);
    FirstTableIs(cr3);
    ConjunctionFromRoot(PageWalk.Looks(Below(b.image)), FirstTable(cr3), address);
    FlagsOfRegisters(cr0, cr4);
  }

  lemma ConjunctionFromRoot(look: Look, root: nat, v: nat)
    ensures Walk(look, root, v).user <==> AllUser(Traversed(look, root, v, 4))
  {
    UserIsConjunction(look, root, v, 4, true);
    hide WalkFrom, Traversed, AllUser;
  }

  lemma FirstTableIs(cr3: nat)
    ensures Root(cr3) == FirstTable(cr3)
  {
  }

  lemma FlagsOfRegisters(cr0: nat, cr4: nat)
    ensures PagingEnabled(cr0) <==> Paged(cr0)
    ensures Extended(cr4) <==> cr4 % 64 >= 32
  {
  }

  // d is c with the n lowest bytes of a number stored from an address on, as far as there is room.
  ghost predicate HasStored(c: Image, d: Image, address: nat, n: nat, value: nat) {
    && d.Keys == c.Keys
    && forall a: nat :: a in c ==>
      d[a] == if address <= a < address + Present(c, address, n) then value / Power(a - address) % 256 else c[a]
  }

  lemma {:induction false} ByteOf(x: nat, n: nat, k: nat)
    requires k < n
    ensures LittleBytes(x, n)[k] == x / Power(k) % 256
  {
    if k > 0 {
      ByteOf(x / 256, n - 1, k - 1);
      DivideTwice(x, Power(k - 1));
    }
  }

  lemma DivideTwice(x: nat, d: nat)
    requires d > 0
    ensures x / 256 / d == x / (256 * d)
  {
    var q, r := Divided(x, 256);
    var p, t := Divided(q, d);
    assert t * 256 + r < 256 * d by { MulMonotone(t + 1, d, 256); }
    Associate(p, d, 256);
    Distribute(p * d, t, 256);
    DivideUnique(x, 256 * d, p, t * 256 + r);
  }

  // The lowest n bytes of a number, as one.
  lemma {:induction false} LowestBytes(x: nat, m: nat, n: nat)
    requires n <= m
    ensures Little(LittleBytes(x, m)[..n]) == x % Power(n)
  {
    if n > 0 {
      var b := LittleBytes(x, m);
      LowestBytes(x / 256, m - 1, n - 1);
      assert b[..n][1..] == LittleBytes(x / 256, m - 1)[..n - 1];
      var q, r := Divided(x, 256);
      var p, t := Divided(q, Power(n - 1));
      assert t * 256 + r < 256 * Power(n - 1) by { MulMonotone(t + 1, Power(n - 1), 256); }
      Associate(p, Power(n - 1), 256);
      Distribute(p * Power(n - 1), t, 256);
      DivideUnique(x, 256 * Power(n - 1), p, t * 256 + r);
    }
  }

  lemma StoredIsStored(c: Image, address: nat, n: nat, value: nat)
    requires n <= 8
    ensures HasStored(c, MemorySpec.Store(c, address, FirstBytes(value, n)), address, n, value)
  {
    hide LittleBytes, Power, Present;
    var bytes := FirstBytes(value, n);
    var d := MemorySpec.Store(c, address, bytes);
    forall a: nat | a in c
      ensures d[a] == if address <= a < address + Present(c, address, n) then value / Power(a - address) % 256 else c[a]
    {
      assert a in c.Keys;
      if address <= a < address + Present(c, address, n) {
        ByteOf(value, 8, a - address);
      }
    }
  }

  // ----- loads and stores

  // The number to be stored: that of the event, or the one before it if this event carries none.
  function ToStore(b: State, p: Payload): nat
    requires p.Access?
  {
    match p.data
    case Some(value) => value
    case None => b.data
  }

  lemma Moment(s: State, events: seq<Event>, e: Event)
    requires AllProper(|s.registers|, events + [e])
    ensures AllProper(|s.registers|, events) && Proper(|s.registers|, e.payload)
    ensures var before, after := Simulate(s, events), Simulate(s, events + [e]);
      var b := before.state.(time := Later(before.state.time, e.head));
      !before.stopped ==>
        match HandlePayload(b, e.payload)
        case GivesUp => after == before.(stopped := true)
        case Goes(state, accesses) => after == Progress(state, before.accesses + accesses, false)
  {
    hide Simulate, HandlePayload, Later;
    SimulateNext(s, events, e);
  }

  /**
   * A load or store: the loop gives up exactly if its address stands for nothing. If it goes on, a store to a page that
   * is no user's changes memory to the bytes of its number, anything else leaves memory alone, and exactly one access
   * is handed over, or none if the last entry disables caching.
   */
  lemma AccessMeans(s: State, events: seq<Event>, e: Event)
    requires AllProper(|s.registers|, events + [e]) && e.payload.Access?
    ensures AllProper(|s.registers|, events) && 8 * e.payload.cpu + 4 < |s.registers|
    ensures var before, after, p := Simulate(s, events), Simulate(s, events + [e]), e.payload;
      var b, time := before.state, Later(before.state.time, e.head);
      !before.stopped ==>
        match Meant(b, p.cpu, p.address)
        case None => after == before.(stopped := true)
        case Some(q) =>
          && !after.stopped
          && after.state == State(time, after.state.image, b.registers, q.user, ToStore(b, p))
          && (if p.write && !q.user then HasStored(b.image, after.state.image, q.address, p.size, ToStore(b, p))
              else after.state.image == b.image)
          && after.accesses == before.accesses +
               if q.cacheDisable then [] else [MemoryAccess(p.cpu, q.address, time, if p.write then 2 else 1)]
  {
    hide Simulate, Meant, HasStored, Translate, FirstBytes, MemorySpec.Store, Later, ToStore;
    Moment(s, events, e);
    var b, p := Simulate(s, events).state, e.payload;
    TranslateIsMeant(b, p.cpu, p.address);
    ToStoreIs(b, p);
    var q := Meant(b, p.cpu, p.address);
    if q.Some? && p.write && !q.value.user {
      StoredIsStored(b.image, q.value.address, p.size, ToStore(b, p));
    }
  }

  lemma ToStoreIs(b: State, p: Payload)
    requires p.Access?
    ensures DataOf(p, b.data) == ToStore(b, p)
  {
  }

  // ----- stores, and walks after them

  lemma StoredIsRead(c: Image, d: Image, address: nat, n: nat, value: nat)
    requires n <= 8 && HasStored(c, d, address, n, value)
    requires Present(c, address, n) == n && address + n <= GUARD
    ensures |Read(Below(d), address, n)| == n && Little(Read(Below(d), address, n)) == value % Power(n)
  {
    hide Little, LittleBytes, Power, Below;
    SamePresent(c, d, address, n);
    BelowReads(d, address, n);
    var r := Read(d, address, n);
    forall k | 0 <= k < n ensures r[k] == LittleBytes(value, 8)[..n][k] {
      ByteOf(value, 8, k);
      assert address + k in d.Keys;
    }
    assert r == LittleBytes(value, 8)[..n];
    LowestBytes(value, 8, n);
  }

  // What is read elsewhere is as it was.
  lemma ElsewhereIsRead(c: Image, d: Image, address: nat, n: nat, value: nat, a: nat)
    requires HasStored(c, d, address, n, value) && (address + n <= a || a + 8 <= address)
    ensures PageWalk.Looks(Below(d))(a) == PageWalk.Looks(Below(c))(a)
  {
    hide Little, Power, Present;
    forall x: nat | a <= x < a + 8
      ensures (x in Below(d) <==> x in Below(c)) && (x in Below(c) ==> Below(d)[x] == Below(c)[x])
    {
      assert x in d.Keys <==> x in c.Keys;
    }
    ReadLocal(Below(d), Below(c), a, 8);
  }

  /**
   * A store to a page that is no user's is seen by the reader: where there is room for it below the guard, what is read
   * back is its number, cut to its size.
   */
  lemma KernelStoreIsSeen(s: State, events: seq<Event>, e: Event, q: Physical)
    requires AllProper(|s.registers|, events + [e]) && AllProper(|s.registers|, events)
    requires e.payload.Access? && 8 * e.payload.cpu + 4 < |s.registers|
    requires var b, p := Simulate(s, events).state, e.payload;
      && !Simulate(s, events).stopped && Meant(b, p.cpu, p.address) == Some(q) && p.write && !q.user
      && Present(b.image, q.address, p.size) == p.size && q.address + p.size <= GUARD
    ensures e.payload.size <= 8
    ensures var b, image := Simulate(s, events).state, Simulate(s, events + [e]).state.image;
      Little(Read(Below(image), q.address, e.payload.size)) == ToStore(b, e.payload) % Power(e.payload.size)
  {
    hide Simulate, Meant, HasStored, ToStore, Little, Read, Below, Power;
    AccessMeans(s, events, e);
    SizeOfStore(s, events, e);
    StoredIsRead(Simulate(s, events).state.image, Simulate(s, events + [e]).state.image, q.address, e.payload.size,
      ToStore(Simulate(s, events).state, e.payload));
  }

  lemma SizeOfStore(s: State, events: seq<Event>, e: Event)
    requires AllProper(|s.registers|, events + [e]) && e.payload.Access? && e.payload.write
    ensures e.payload.size <= 8
  {
    assert (events + [e])[|events|] == e;
  }

  // The answers of a memory with one entry replaced.
  function Replaced(look: Look, at: nat, entry: nat): Look {
    a => if a == at then Some(entry) else look(a)
  }

  lemma {:induction false} TouchedAligned(look: Look, table: nat, v: nat, level: Level, a: nat)
    requires a in Touched(look, table, v, level)
    ensures a % 8 == 0
    decreases level
  {
    EntriesAligned(table, v, level);
    hide EntryAddress, SizeBit, Find;
    if a != EntryAddress(table, v, level) {
      var e := Find(look, table, v, level).value;
      TouchedAligned(look, e, v, level - 1, a);
    }
  }

  lemma EntriesAligned(table: nat, v: nat, level: Level)
    ensures EntryAddress(table, v, level) % 8 == 0
  {
    hide Index;
    var f := table / 0x1000 % 0x40_0000_0000;
    assert EntryAddress(table, v, level) == 8 * (f * 512 + Index(v, level));
  }

  /**
   * A page-table entry that the kernel writes is there for all walks to come: each finds what it would find in the
   * memory before with this entry replaced.
   */
  lemma KernelEntryIsWalked(s: State, events: seq<Event>, e: Event, q: Physical, root: nat, v: nat)
    requires AllProper(|s.registers|, events + [e]) && AllProper(|s.registers|, events)
    requires e.payload.Access? && 8 * e.payload.cpu + 4 < |s.registers|
    requires var b, p := Simulate(s, events).state, e.payload;
      && !Simulate(s, events).stopped && Meant(b, p.cpu, p.address) == Some(q) && p.write && !q.user
      && p.size == 8 && q.address % 8 == 0 && ToStore(b, p) < WORD
      && Present(b.image, q.address, 8) == 8 && q.address + 8 <= GUARD
    ensures var before, after := Simulate(s, events).state, Simulate(s, events + [e]).state;
      Walk(PageWalk.Looks(Below(after.image)), root, v) ==
        Walk(Replaced(PageWalk.Looks(Below(before.image)), q.address, ToStore(before, e.payload)), root, v)
  {
    hide Simulate, Meant, HasStored, ToStore, Below, PageWalk.Looks, WalkFrom, Touched;
    AccessMeans(s, events, e);
    var c, d := Simulate(s, events).state.image, Simulate(s, events + [e]).state.image;
    var value := ToStore(Simulate(s, events).state, e.payload);
    var f, g := Replaced(PageWalk.Looks(Below(c)), q.address, value), PageWalk.Looks(Below(d));
    forall a | a in Touched(f, root, v, 4) ensures f(a) == g(a) {
      TouchedAligned(f, root, v, 4, a);
      if a == q.address {
        StoredIsLooked(c, d, a, value);
      } else {
        ElsewhereIsRead(c, d, q.address, 8, value, a);
      }
    }
    WalkFramed(f, g, root, v, 4, true);
  }

  lemma StoredIsLooked(c: Image, d: Image, address: nat, value: nat)
    requires HasStored(c, d, address, 8, value) && value < WORD
    requires Present(c, address, 8) == 8 && address + 8 <= GUARD
    ensures PageWalk.Looks(Below(d))(address) == Some(value)
  {
    hide Little, Power, Below, HasStored;
    StoredIsRead(c, d, address, 8, value);
    Powers();
  }

  // ----- control registers, pages and blocks

  /**
   * A change of a control register moves the clock and sets that register, counted on through the registers of all
   * processors; nothing else, and nothing is handed over.
   */
  lemma RegisterChangeMeans(s: State, events: seq<Event>, e: Event)
    requires AllProper(|s.registers|, events + [e]) && e.payload.CrChange?
    ensures AllProper(|s.registers|, events)
    ensures var before, after, p := Simulate(s, events), Simulate(s, events + [e]), e.payload;
      !before.stopped ==>
        && !after.stopped && after.accesses == before.accesses
        && after.state == before.state.(time := after.state.time, registers := after.state.registers)
        && after.state.time == Later(before.state.time, e.head)
        && forall cpu: nat, r: nat :: r < 8 && 8 * cpu + r < |s.registers| ==>
             Cr(after.state, cpu, r) ==
               if cpu == p.cpu + p.register / 8 && r == p.register % 8 then p.value else Cr(before.state, cpu, r)
  {
    hide Simulate, Later;
    Moment(s, events, e);
  }

  /**
   * For the eight registers of its processor, it does not matter to any other: every address of theirs stands for the
   * same. For its own processor, the new value counts at once.
   */
  lemma RegisterChangeIsOwn(s: State, events: seq<Event>, e: Event, cpu: nat, address: nat)
    requires AllProper(|s.registers|, events + [e]) && e.payload.CrChange? && e.payload.register < 8
    requires 8 * cpu + 4 < |s.registers|
    ensures AllProper(|s.registers|, events)
    ensures var before, after, p := Simulate(s, events), Simulate(s, events + [e]).state, e.payload;
      !before.stopped ==>
        && (cpu != p.cpu ==> Meant(after, cpu, address) == Meant(before.state, cpu, address))
        && (cpu == p.cpu && p.register == 3
            && Paged(Cr(before.state, cpu, 0)) && Cr(before.state, cpu, 4) % 64 >= 32 ==>
              var t := Walk(PageWalk.Looks(Below(before.state.image)), FirstTable(p.value), address);
              if t.phys == NOTFOUND then Meant(after, cpu, address) == None
              else Meant(after, cpu, address).Some? && Meant(after, cpu, address).value.address == t.phys)
        && (cpu == p.cpu && p.register == 4 && Paged(Cr(before.state, cpu, 0)) && p.value % 64 < 32 ==>
              Meant(after, cpu, address) == None)
        && (cpu == p.cpu && p.register == 0 && !Paged(p.value) ==>
              Meant(after, cpu, address) == Some(Physical(address, before.state.user, false)))
  {
    hide Simulate, Walk, Traversed, PageWalk.Looks, Below, AllUser, FirstTable;
    RegisterChangeMeans(s, events, e);
    var before, after := Simulate(s, events).state, Simulate(s, events + [e]).state;
    if !Simulate(s, events).stopped {
      assert Cr(after, cpu, 0) == if cpu == e.payload.cpu && e.payload.register == 0 then e.payload.value
        else Cr(before, cpu, 0);
      assert Cr(after, cpu, 3) == if cpu == e.payload.cpu && e.payload.register == 3 then e.payload.value
        else Cr(before, cpu, 3);
      assert Cr(after, cpu, 4) == if cpu == e.payload.cpu && e.payload.register == 4 then e.payload.value
        else Cr(before, cpu, 4);
    }
  }

  /**
   * Without paging nothing says whose a page is, and the answer of the last translation stays: when a user's page was
   * met last and its processor turns paging off, the next store does not reach memory, and neither does any other until
   * a page of the kernel is met.
   */
  lemma StoreAfterUserPageIsLost(s: State, events: seq<Event>, off: Event, store: Event)
    requires AllProper(|s.registers|, events + [off] + [store])
    requires off.payload.CrChange? && off.payload.register == 0 && !Paged(off.payload.value)
    requires store.payload.Access? && store.payload.cpu == off.payload.cpu
    ensures AllProper(|s.registers|, events)
    ensures var before, after := Simulate(s, events), Simulate(s, events + [off] + [store]);
      !before.stopped && before.state.user ==>
        !after.stopped && after.state.user && after.state.image == before.state.image
  {
    hide Simulate, Meant, HasStored, Later, ToStore;
    Moment(s, events + [off], store);
    Moment(s, events, off);
    RegisterChangeIsOwn(s, events, off, store.payload.cpu, store.payload.address);
    RegisterChangeMeans(s, events, off);
    AccessMeans(s, events + [off], store);
  }

  /** An invalidated page only moves the clock. */
  lemma PageMeans(s: State, events: seq<Event>, e: Event)
    requires AllProper(|s.registers|, events + [e]) && e.payload.Page?
    ensures AllProper(|s.registers|, events)
    ensures var before := Simulate(s, events);
      var state := before.state.(time := Later(before.state.time, e.head));
      !before.stopped ==> Simulate(s, events + [e]) == before.(state := state)
  {
    hide Simulate, Later;
    Moment(s, events, e);
  }

  /**
   * A block hands over the fetches of its lines: for each of the first (size + 127) / 64 lines from its start, one by
   * its processor, at the time of the event. Nothing else changes.
   */
  lemma BlockMeans(s: State, events: seq<Event>, e: Event)
    requires AllProper(|s.registers|, events + [e]) && e.payload.Block?
    ensures AllProper(|s.registers|, events)
    ensures var before, after, p := Simulate(s, events), Simulate(s, events + [e]), e.payload;
      var time, n := Later(before.state.time, e.head), |after.accesses| - |before.accesses|;
      !before.stopped ==>
        && !after.stopped && after.state == before.state.(time := time)
        && n == (p.size + 127) / 64 && before.accesses <= after.accesses
        && forall i :: 0 <= i < n ==>
             after.accesses[|before.accesses| + i] == MemoryAccess(p.cpu, p.pc + 64 * i, time, 3)
  {
    hide Simulate, Later;
    Moment(s, events, e);
  }
}
