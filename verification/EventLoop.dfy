/**
 * The coordinator's loop over events (simulator/distributed/coordinator.c:219-313): each event that arrives moves the
 * clock, and is translated, stored and dispatched, or changes a control register. What the loop does is first a
 * function on values, then done in place on the message buffers, the simulated memory and the worker buffers.
 */
module EventLoop {
  import opened Options
  import opened MemorySpec
  import opened LazyMemory
  import SimulatedMemory = MemoryAccess
  import opened PageTable
  import PageWalk
  import opened Numbers
  import opened EventCodec
  import opened EventStream
  import opened MpiReader
  import opened EventReaders
  import opened Hierarchy
  import opened Sharding
  import opened Worker
  import opened Dispatch
  import opened Sequences
  import MemoryAgreement

  const REGISTERS: nat := 8                       // control registers of a processor
  const ADDRESS_EXTENSION: nat := 32              // bit 5 of register 4

  /**
   * What the loop carries from event to event: the clock, the memory, the control registers of all processors, and
   * two variables that are not set by every access: whether the last page translated is a user page, and the number
   * stored last.
   */
  datatype State = State(time: nat, image: Image, registers: seq<nat>, user: bool, data: nat)

  /** What an event leads to: a new state and accesses for the workers, or the end of the program with 1. */
  datatype Effect = Goes(state: State, accesses: seq<MemoryAccess>) | GivesUp

  // ----- one event

  // The clock has 64 bits.
  function Later(time: nat, head: Head): nat {
    if head.negative then (time - head.delta) % WORD else (time + head.delta) % WORD
  }

  function Register(registers: seq<nat>, cpu: nat, r: nat): nat
    requires REGISTERS * cpu + r < |registers|
  {
    registers[REGISTERS * cpu + r]
  }

  // Protection and paging are on. The mask for paging has its sign bit extended, so that any bit from 31 on counts.
  predicate PagingEnabled(cr0: nat) {
    cr0 % 2 == 1 && cr0 / 0x8000_0000 > 0
  }

  predicate Extended(cr4: nat) {
    cr4 / ADDRESS_EXTENSION % 2 == 1
  }

  // The root that register 3 names.
  function Root(cr3: nat): nat {
    cr3 / 0x1000 * 0x1000
  }

  /** A physical address, whether the page is a user page, and whether the caches are to be left alone. */
  datatype Physical = Physical(address: nat, user: bool, cacheDisable: bool)

  // The address of an access after translation, if paging is on; nothing where the program gives up.
  function Translate(image: Image, registers: seq<nat>, user: bool, cpu: nat, address: nat): Option<Physical>
    requires REGISTERS * cpu + 4 < |registers|
  {
    if !PagingEnabled(Register(registers, cpu, 0)) then Some(Physical(address, user, false))
    else if !Extended(Register(registers, cpu, 4)) then None
    else
      var t := Walk(PageWalk.Looks(Below(image)), Root(Register(registers, cpu, 3)), address);
      if t.phys == NOTFOUND then None
      else Some(Physical(t.phys, t.user, t.cacheDisable.Some? && t.cacheDisable.value))
  }

  // The first bytes of a number of eight.
  function FirstBytes(x: nat, n: nat): seq<byte>
    requires n <= 8
  {
    LittleBytes(x, 8)[..n]
  }

  // Events whose numbers the program can use: its arrays have the registers, and a store fits into eight bytes.
  predicate Proper(registers: nat, p: Payload) {
    match p
    case Access(cpu, _, write, size, _) => REGISTERS * cpu + 4 < registers && (write ==> size <= 8)
    case CrChange(cpu, register, _) => REGISTERS * cpu + register < registers
    case Page(_, _) => true
    case Block(_, _, _) => true
  }

  // The number to be stored: that of a store, or what the variable still has.
  function DataOf(p: Payload, before: nat): nat
    requires p.Access?
  {
    if p.data.Some? then p.data.value else before
  }

  // Writes go through to memory, except those of user pages.
  function WrittenThrough(image: Image, p: Payload, q: Physical, data: nat): Image
    requires p.Access? && (p.write ==> p.size <= 8)
  {
    if p.write && !q.user then MemorySpec.Store(image, q.address, FirstBytes(data, p.size)) else image
  }

  function Dispatched(p: Payload, q: Physical, time: nat): seq<MemoryAccess>
    requires p.Access?
  {
    if q.cacheDisable then []
    else [MemoryAccess(p.cpu, q.address, time, if p.write then KIND_WRITE else KIND_READ)]
  }

  function HandleAccess(s: State, p: Payload): Effect
    requires p.Access? && Proper(|s.registers|, p)
  {
    match Translate(s.image, s.registers, s.user, p.cpu, p.address)
    case None => GivesUp
    case Some(q) =>
      var data := DataOf(p, s.data);
      Goes(s.(image := WrittenThrough(s.image, p, q, data), user := q.user, data := data), Dispatched(p, q, s.time))
  }

  function HandlePayload(s: State, p: Payload): (r: Effect)
    requires Proper(|s.registers|, p)
    ensures r.Goes? ==> |r.state.registers| == |s.registers|
  {
    match p
    case Access(_, _, _, _, _) => HandleAccess(s, p)
    case CrChange(cpu, register, value) =>
      Goes(s.(registers := s.registers[REGISTERS * cpu + register := value]), [])
    case Page(_, _) => Goes(s, [])
    case Block(cpu, pc, size) => Goes(s, Fetches(cpu, pc, s.time, FetchCount(size)))
  }

  function Handle(s: State, e: Event): (r: Effect)
    requires Proper(|s.registers|, e.payload)
    ensures r.Goes? ==> |r.state.registers| == |s.registers|
  {
    HandlePayload(s.(time := Later(s.time, e.head)), e.payload)
  }

  // ----- all events

  ghost predicate AllProper(registers: nat, events: seq<Event>) {
    forall i :: 0 <= i < |events| ==> Proper(registers, events[i].payload)
  }

  /** Where the loop has got to, what it has handed to the workers, and whether it has given up. */
  datatype Progress = Progress(state: State, accesses: seq<MemoryAccess>, stopped: bool)

  function Simulate(s: State, events: seq<Event>): (r: Progress)
    requires AllProper(|s.registers|, events)
    ensures |r.state.registers| == |s.registers|
  {
    if events == [] then Progress(s, [], false)
    else
      var before := Simulate(s, events[..|events| - 1]);
      if before.stopped then before else Advance(before, events[|events| - 1])
  }

  function Advance(before: Progress, e: Event): (r: Progress)
    requires Proper(|before.state.registers|, e.payload)
    ensures |r.state.registers| == |before.state.registers|
  {
    match Handle(before.state, e)
    case GivesUp => before.(stopped := true)
    case Goes(state, accesses) => Progress(state, before.accesses + accesses, false)
  }

  lemma SimulateNext(s: State, events: seq<Event>, e: Event)
    requires AllProper(|s.registers|, events + [e])
    ensures AllProper(|s.registers|, events) && Proper(|s.registers|, e.payload)
    ensures Simulate(s, events + [e]) ==
      if Simulate(s, events).stopped then Simulate(s, events) else Advance(Simulate(s, events), e)
  {
    assert (events + [e])[..|events + [e]| - 1] == events;
    assert (events + [e])[|events|] == e;
    forall i | 0 <= i < |events| ensures Proper(|s.registers|, events[i].payload) {
      assert (events + [e])[i] == events[i];
    }
  }

  // Once the loop has given up, later events make no difference.
  lemma {:induction false} StoppedStays(s: State, events: seq<Event>, more: seq<Event>)
    requires AllProper(|s.registers|, events + more)
    ensures AllProper(|s.registers|, events)
    ensures Simulate(s, events).stopped ==> Simulate(s, events + more) == Simulate(s, events)
    decreases |more|
  {
    if more == [] {
      assert events + more == events;
    } else {
      var init, last := more[..|more| - 1], more[|more| - 1];
      assert (events + init) + [last] == events + more;
      SimulateNext(s, events + init, last);
      StoppedStays(s, events, init);
    }
  }

  // The sum of the time differences.
  function Elapsed(events: seq<Event>): int {
    if events == [] then 0
    else
      var head := events[|events| - 1].head;
      Elapsed(events[..|events| - 1]) + if head.negative then -(head.delta as int) else head.delta
  }

  lemma AddedModulo(x: int, y: int)
    ensures (x % WORD + y) % WORD == (x + y) % WORD
  {
    var q := x / WORD;
    assert x == q * WORD + x % WORD;
  }

  lemma ClockMoves(s: State, events: seq<Event>)
    requires AllProper(|s.registers|, events) && events != []
    ensures var init := events[..|events| - 1];
      AllProper(|s.registers|, init) && (!Simulate(s, events).stopped ==>
        !Simulate(s, init).stopped &&
        Simulate(s, events).state.time == Later(Simulate(s, init).state.time, events[|events| - 1].head))
  {
    hide Translate, Fetches, Later;
  }

  /** The clock is the sum of the differences so far, modulo 2^64. */
  lemma {:induction false} ClockIsSum(s: State, events: seq<Event>)
    requires AllProper(|s.registers|, events) && !Simulate(s, events).stopped && s.time < WORD
    ensures Simulate(s, events).state.time == (s.time + Elapsed(events)) % WORD
  {
    hide Simulate;
    if events == [] {
      NothingYet(s);
    } else {
      var init, last := events[..|events| - 1], events[|events| - 1];
      ClockMoves(s, events);
      ClockIsSum(s, init);
      AddedModulo(s.time + Elapsed(init), if last.head.negative then -(last.head.delta as int) else last.head.delta);
    }
  }

  // ----- in place

  // The memory shares nothing with the buffers of the workers, nor with the registers.
  ghost predicate Separate(mem: SimMemory, coord: Coordinator, registers: array<nat>)
    reads mem
  {
    && coord !in mem.Repr && coord.Objects() !! mem.Repr && mem !in coord.Objects()
    && registers !in mem.Repr && registers !in coord.Objects()
  }

  // The address of an access, translated on memory that loads its pages as they are met.
  method TranslateAddress(mem: SimMemory, registers: array<nat>, user: bool, cpu: nat, address: nat)
    returns (q: Option<Physical>)
    requires mem.Valid() && registers !in mem.Repr && REGISTERS * cpu + 4 < registers.Length
    modifies mem.Repr
    ensures mem.Valid() && fresh(mem.Repr - old(mem.Repr)) && mem.contents == old(mem.contents)
    ensures q == Translate(mem.contents, registers[..], user, cpu, address)
  {
    hide SimMemory.Valid, Walk, Below, PageWalk.Looks, PagingEnabled, Extended, Root;
    if !PagingEnabled(registers[REGISTERS * cpu]) {
      return Some(Physical(address, user, false));
    }
    if !Extended(registers[REGISTERS * cpu + 4]) {
      return None;
    }
    var root := Root(registers[REGISTERS * cpu + 3]);
    var phys, isUserPage, cacheDisable := PageWalk.VaddrToPhys(mem, root, address, false);
    q := if phys == NOTFOUND then None else Some(Physical(phys, isUserPage, cacheDisable));
  }

  method WriteThrough(mem: SimMemory, p: Payload, q: Physical, data: nat)
    requires mem.Valid() && p.Access? && (p.write ==> p.size <= 8)
    modifies mem.Repr
    ensures mem.Valid() && fresh(mem.Repr - old(mem.Repr))
    ensures mem.contents == WrittenThrough(old(mem.contents), p, q, data)
  {
    hide SimMemory.Valid, FirstBytes, MemorySpec.Store;
    if p.write && !q.user {
      var count := SimulatedMemory.WriteSimMemory(mem, q.address, FirstBytes(data, p.size));
    }
  }

  method DispatchAccess(coord: Coordinator, p: Payload, q: Physical, time: nat)
    requires coord.Valid() && p.Access?
    modifies coord`processed, coord.Objects()
    ensures coord.Valid() && coord.processed == old(coord.processed) + Dispatched(p, q, time)
  {
    hide Coordinator.Valid;
    if !q.cacheDisable {
      coord.ProcessCacheAccess(
        MemoryAccess(p.cpu, q.address, time, if p.write then KIND_WRITE else KIND_READ));
    }
  }

  lemma ObjectsExist(coord: Coordinator)
    ensures forall o :: o in coord.Objects() ==> allocated(o)
  {
  }

  /** A load or store: translated, written through to memory if it is no user page's, and handed to its worker. */
  method ProcessAccess(mem: SimMemory, coord: Coordinator, registers: array<nat>, time: nat, user: bool, data: nat,
                       p: Payload)
    returns (stopped: bool, user': bool, data': nat)
    requires mem.Valid() && coord.Valid() && Separate(mem, coord, registers)
    requires p.Access? && Proper(registers.Length, p)
    modifies mem.Repr, coord`processed, coord.Objects()
    ensures mem.Valid() && coord.Valid() && fresh(mem.Repr - old(mem.Repr))
    ensures registers[..] == old(registers[..]) && Separate(mem, coord, registers)
    ensures var r := HandleAccess(State(time, old(mem.contents), registers[..], user, data), p);
      && stopped == r.GivesUp?
      && (r.Goes? ==> r.state == State(time, mem.contents, registers[..], user', data'))
      && coord.processed == old(coord.processed) + if r.Goes? then r.accesses else []
  {
    hide SimMemory.Valid, Coordinator.Valid, Coordinator.Objects, Translate, Dispatched, WrittenThrough;
    ghost var objects := coord.Objects();
    ObjectsExist(coord);
    user' := user;
    data' := if p.data.Some? then p.data.value else data;
    var q := TranslateAddress(mem, registers, user, p.cpu, p.address);
    stopped := q.None?;
    if !stopped {
      user' := q.value.user;
      WriteThrough(mem, p, q.value, data');
      DispatchAccess(coord, p, q.value, time);
    }
  }

  /** Any event. */
  method ProcessPayload(mem: SimMemory, coord: Coordinator, registers: array<nat>, time: nat, user: bool, data: nat,
                        p: Payload)
    returns (stopped: bool, user': bool, data': nat)
    requires mem.Valid() && coord.Valid() && Separate(mem, coord, registers) && Proper(registers.Length, p)
    modifies mem.Repr, coord`processed, coord.Objects(), registers
    ensures mem.Valid() && coord.Valid() && fresh(mem.Repr - old(mem.Repr)) && Separate(mem, coord, registers)
    ensures var r := HandlePayload(State(time, old(mem.contents), old(registers[..]), user, data), p);
      && stopped == r.GivesUp?
      && (r.Goes? ==> r.state == State(time, mem.contents, registers[..], user', data'))
      && coord.processed == old(coord.processed) + if r.Goes? then r.accesses else []
  {
    hide SimMemory.Valid, Coordinator.Valid, Coordinator.Objects, HandleAccess, Fetches, FetchCount;
    stopped, user', data' := false, user, data;
    match p
    case Access(_, _, _, _, _) =>
      stopped, user', data' := ProcessAccess(mem, coord, registers, time, user, data, p);
    case CrChange(cpu, register, value) =>
      registers[REGISTERS * cpu + register] := value;
    case Page(_, _) =>
    case Block(cpu, pc, size) =>
      coord.FetchBlock(cpu, pc, size, time);
  }

  // The message buffers are nobody else's.
  ghost predicate ReaderSeparate(buf: MpiBuffer, mem: SimMemory, coord: Coordinator, registers: array<nat>)
    reads mem
  {
    var own: set<object> := {buf, buf.buf0, buf.buf1};
    own !! mem.Repr && own !! coord.Objects() && coord !in own && mem !in own && registers !in own
  }

  /**
   * The loop: it ends with 0 at an event of unknown number, or when it has read the head of event number limit
   * (200000000), and with 1 where an address cannot be translated. What it does to the memory and the registers, and
   * what it hands to the workers, is what the events that the messages stand for lead to.
   */
  method RunCoordinator(buf: MpiBuffer, m: Mapping, limit: nat, mem: SimMemory, coord: Coordinator,
                        registers: array<nat>, user0: bool, data0: nat)
    returns (code: int)
    requires limit > 0 && Ready(buf) && |buf.got| <= |Stream(buf)| && Stops(m, Stream(buf), |buf.got|, limit)
    requires AllProper(registers.Length, FirstEvents(m, Stream(buf)[|buf.got|..], limit - 1))
    requires mem.Valid() && coord.Valid() && Separate(mem, coord, registers)
    requires ReaderSeparate(buf, mem, coord, registers)
    modifies buf, buf.buf0, buf.buf1, mem.Repr, coord`processed, coord.Objects(), registers
    ensures mem.Valid() && coord.Valid()
    ensures var s := State(0, old(mem.contents), old(registers[..]), user0, data0);
      var r := Simulate(s, FirstEvents(m, old(Stream(buf)[|buf.got|..]), limit - 1));
      && code == (if r.stopped then 1 else 0)
      && coord.processed == old(coord.processed) + r.accesses
      && (!r.stopped ==> mem.contents == r.state.image && registers[..] == r.state.registers)
  {
    hide Ready, Stream, EventReaders.Stops, FirstEvents, DecodeHead, EventAt, PayloadSize, Parse, KindOf;
    hide SimMemory.Valid, Coordinator.Valid, Coordinator.Objects;
    hide Simulate, Advance, HandlePayload, Later, AllProper, Proper;
    ObjectsExist(coord);
    ghost var b := Stream(buf);
    ghost var n, s := registers.Length, State(0, mem.contents, registers[..], user0, data0);
    ghost var whole := FirstEvents(m, b[|buf.got|..], limit - 1);
    ghost var done: seq<Event>, sofar: seq<MemoryAccess> := [], [];
    var time, user, data := 0, user0, data0;
    var total, delta := 0, 0;
    NothingYet(s);
    while true
      invariant total < limit && Ready(buf) && |buf.got| <= |b| && Stops(m, b, |buf.got|, limit - total)
      invariant done + FirstEvents(m, b[|buf.got|..], limit - total - 1) == whole && AllProper(n, whole)
      invariant AllProper(n, done)
      invariant Simulate(s, done) == Progress(State(time, mem.contents, registers[..], user, data), sofar, false)
      invariant coord.processed == old(coord.processed) + sofar
      invariant mem.Valid() && coord.Valid() && Separate(mem, coord, registers) && fresh(mem.Repr - old(mem.Repr))
      invariant ReaderSeparate(buf, mem, coord, registers)
      decreases limit - total
    {
      StopsMeans(m, b, |buf.got|, limit - total);
      ghost var at, before := |buf.got|, State(time, mem.contents, registers[..], user, data);
      total := total + 1;
      var head := ReceiveEventId(buf, delta);
      delta := head.delta;
      time := Later(time, head);
      var k := KindOf(m, head.id);
      if total == limit || k == Unknown {
        NoEventLeft(m, b, at, limit - total);
        assert done + [] == done;
        return 0;
      }
      EventThenRest(m, b, at, limit - total - 1);
      var payload := ReceivePayload(buf, k);
      ghost var e := Event(head, payload);
      ghost var rest := FirstEvents(m, b[|buf.got|..], limit - total - 1);
      NextIsProper(n, s, done, e, rest, whole);
      AdvanceMeans(before, sofar, e);
      var stopped;
      stopped, user, data := ProcessPayload(mem, coord, registers, time, user, data, payload);
      done := done + [e];
      if stopped {
        StoppedStays(s, done, rest);
        return 1;
      }
      sofar := coord.processed[|old(coord.processed)|..];
    }
  }

  lemma NextIsProper(n: nat, s: State, done: seq<Event>, e: Event, rest: seq<Event>, whole: seq<Event>)
    requires n == |s.registers| && AllProper(n, whole) && done + ([e] + rest) == whole
    ensures done + [e] + rest == whole
    ensures AllProper(n, done) && AllProper(n, done + [e]) && Proper(n, e.payload)
    ensures Simulate(s, done + [e]) ==
      if Simulate(s, done).stopped then Simulate(s, done) else Advance(Simulate(s, done), e)
  {
    assert done + [e] + rest == whole;
    forall i | 0 <= i < |done + [e]| ensures Proper(n, (done + [e])[i].payload) {
      assert (done + [e])[i] == whole[i];
    }
    SimulateNext(s, done, e);
  }

  lemma AdvanceMeans(before: State, sofar: seq<MemoryAccess>, e: Event)
    requires Proper(|before.registers|, e.payload)
    ensures var r := HandlePayload(before.(time := Later(before.time, e.head)), e.payload);
      Advance(Progress(before, sofar, false), e) ==
        match r
        case GivesUp => Progress(before, sofar, true)
        case Goes(state, accesses) => Progress(state, sofar + accesses, false)
  {
  }

  lemma NothingYet(s: State)
    ensures AllProper(|s.registers|, []) && Simulate(s, []) == Progress(s, [], false)
  {
  }

  // ----- the whole system

  // There are messages, of the size of a buffer that holds any field.
  predicate Sendable(size: nat, messages: seq<seq<byte>>) {
    size >= 8 && |messages| > 0 && forall k :: 0 <= k < |messages| ==> |messages[k]| == size
  }

  method SetUpReader(size: nat, messages: seq<seq<byte>>) returns (buf: MpiBuffer)
    requires Sendable(size, messages)
    ensures fresh(buf) && fresh(buf.buf0) && fresh(buf.buf1)
    ensures Ready(buf) && buf.got == [] && Stream(buf) == Flatten(messages)
  {
    buf := new MpiBuffer(size, messages);
  }

  method SetUpRegisters(values: seq<nat>) returns (registers: array<nat>)
    ensures fresh(registers) && registers[..] == values
  {
    registers := new nat[|values|](i requires 0 <= i < |values| => values[i]);
  }

  /** From the start: memory from its files, the registers as received, no accesses handed over yet. */
  method Coordinate(ranges: seq<MemoryAgreement.Range>, values: seq<nat>, size: nat, messages: seq<seq<byte>>,
                    m: Mapping, limit: nat, worldSize: nat, filler: MemoryAccess, user: bool, data: nat)
    returns (code: int, coord: Coordinator)
    requires MemoryAgreement.Apart(ranges) && Sendable(size, messages) && 11 <= worldSize <= 16 && limit > 0
    requires EventReaders.Stops(m, Flatten(messages), 0, limit)
    requires AllProper(|values|, FirstEvents(m, Flatten(messages), limit - 1))
    ensures coord.Valid()
    ensures var image := Join(MemoryAgreement.Files(ranges));
      var r := Simulate(State(0, image, values, user, data), FirstEvents(m, Flatten(messages), limit - 1));
      code == (if r.stopped then 1 else 0) && coord.processed == r.accesses
  {
    hide SimMemory.Valid, Coordinator.Valid, Ready, Stream, Simulate, AllProper, FirstEvents, EventReaders.Stops, Join;
    hide MemoryAgreement.Files, MemoryAgreement.Apart;
    var mem := MemoryAgreement.SetUpTree(ranges);
    var registers := SetUpRegisters(values);
    var buf := SetUpReader(size, messages);
    coord := new Coordinator(worldSize, filler);
    assert Flatten(messages)[0..] == Flatten(messages);
    code := RunCoordinator(buf, m, limit, mem, coord, registers, user, data);
  }

  /**
   * From the bytes of a trace to the caches: when the loop has handed over what the trace leads to, each worker that
   * works through its batches and what waits for it has, in the sets of its class, the contents that one hierarchy
   * has after all accesses that the events of the trace make, and the same reports about its lines.
   */
  lemma WorkersFollowTheTrace(coord: Coordinator, h: Hierarchy, m: Mapping, ws: seq<Written>, s: State, k: nat)
    requires coord.Valid() && k < WORKERS && (forall w :: w in ws ==> Writable(m, w)) && AllSurvive(m, ws)
    requires ValidHierarchy(h) && Shardable(h.topology, WORKERS) && h.topology.lineSize == CACHE_LINE_SIZE
    requires AllProper(|s.registers|, DecodeAll(m, EncodeAll(m, ws)))
    requires coord.processed == Simulate(s, DecodeAll(m, EncodeAll(m, ws))).accesses
    ensures CacheSpec.Shaped(h.topology, Fresh(h.topology))
    ensures var events := EventsOf(ws);
      && AllProper(|s.registers|, events)
      && var initial := Fresh(h.topology);
      var whole, worker := Run(h, initial, Simulate(s, events).accesses), RunBatches(h, initial, coord.workers[k].sent);
      var final := Then(worker, Run(h, worker.system, coord.workers[k].Waiting()));
      && AgreeOn(h.topology, WORKERS, k, whole.system, final.system)
      && final.reports == ReportsAbout(CACHE_LINE_SIZE, whole.reports, WORKERS, k)
  {
    StreamRoundTrip(m, ws);
    WorkersComputeTheWhole(h, coord.processed, k, coord.workers[k].sent, coord.workers[k].Waiting());
  }
}
