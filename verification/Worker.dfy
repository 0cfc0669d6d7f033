/** The hierarchy of a worker and its work on one batch (simulator/distributed/worker.c). */
module Worker {
  import opened Options
  import opened Msi
  import opened CacheSpec
  import opened Coherence
  import opened Hierarchy
  import opened Sharding
  import opened Wiring
  import opened WiringLinks
  import opened WiringProofs
  import opened BuiltHierarchies
  import opened CacheObjects
  import opened Accounting
  import opened Effects

  const CACHE_LINE_SIZE: nat := 64
  const ASSOCIATIVITY: nat := 16
  const WORKERS: nat := 8

  // A cache of so many bytes.
  function Bytes(size: nat): (g: Geometry) {
    Geometry(size / CACHE_LINE_SIZE, ASSOCIATIVITY)
  }

  // What the caches of a level hold: 8 KB, 256 KB, and 8 MB.
  function Plan(level: nat): Geometry {
    if level == 0 then Bytes(8 * 1024) else if level == 1 then Bytes(256 * 1024) else Bytes(8 * 1024 * 1024)
  }

  lemma PlanIs()
    ensures Plan(0) == Bytes(8 * 1024) && Plan(1) == Bytes(256 * 1024) && Plan(2) == Bytes(8 * 1024 * 1024)
  {
  }

  // So far everything is as planned for the level of each number, and every cache reports its misses.
  ghost predicate AsPlanned(k: Links) {
    forall c :: 0 <= c < |k.records| ==> k.records[c].geometry == Plan(k.records[c].owner) && k.records[c].reports
  }

  lemma PlanIsDivided(level: nat)
    ensures Usable(CACHE_LINE_SIZE, Plan(level)) && Plan(level).Sets() % WORKERS == 0
  {
  }

  // The next command, if it sets up caches, sets up those of its level.
  ghost predicate Follows(c: Command) {
    c.NewCaches? ==> c.reports && c.data == Plan(c.level) && (c.instruction.Some? ==> c.instruction.value == c.data)
  }

  lemma PlannedStep(b: Builder, c: Command)
    requires InOrder(b) && Allowed(b, c) && Follows(c)
    ensures AllKnown(b) && InOrder(Build(b, c))
  {
    hide AsPlanned, Allowed, Follows, BuilderOk, Build, AllKnown;
    OkIsKnown(b);
    StepKeeps(b, c);
    match c
    case NewLevel(_, _) => PlannedNewLevel(b, c);
    case NewCaches(_, _, _, _) => PlannedNewCaches(b, c);
    case Place(j) => PlannedPlace(b, j);
  }

  lemma PlannedNewLevel(b: Builder, c: Command)
    requires BuilderOk(b) && AllKnown(b) && Allowed(b, c) && AsPlanned(b.links) && c.NewLevel?
    ensures AsPlanned(Build(b, c).links)
  {
  }

  lemma PlannedNewCaches(b: Builder, c: Command)
    requires BuilderOk(b) && AllKnown(b) && Allowed(b, c) && AsPlanned(b.links) && Follows(c) && c.NewCaches?
    ensures AsPlanned(Build(b, c).links)
  {
    if RefuseCaches(b.levels[c.level], NewId(b, c)) == 0 {
      hide BuilderOk, AsPlanned, Allowed, Follows, Extended, Build, AllKnown;
      CachesAreAdded(b, c);
      AddedMeans(b, c, Build(b, c).links, Build(b, c).levels[c.level]);
      ExtendedKeepsShapes(b, c);
      BusesKeepShapes(Extended(b, c), Build(b, c).links);
    }
  }

  lemma ExtendedKeepsShapes(b: Builder, c: Command)
    requires AsPlanned(b.links) && Follows(c) && c.NewCaches?
    ensures AsPlanned(Extended(b, c))
  {
    NewRecordsAre(c);
    hide NewRecords;
    var k := Extended(b, c);
    forall i | 0 <= i < |k.records| ensures k.records[i].geometry == Plan(k.records[i].owner) && k.records[i].reports {
      if i >= |b.links.records| {
        assert k.records[i] == NewRecords(c)[i - |b.links.records|];
      }
    }
  }

  lemma BusesKeepShapes(k: Links, k': Links)
    requires AsPlanned(k) && OnlyBusesChanged(k, k')
    ensures AsPlanned(k')
  {
  }

  lemma PlannedPlace(b: Builder, j: nat)
    requires BuilderOk(b) && AllKnown(b) && Allowed(b, Place(j)) && AsPlanned(b.links)
    ensures AsPlanned(Build(b, Place(j)).links)
  {
    if RefuseLevel(b.cpus, PlacedLevels(b), b.levels[j]) == 0 && |b.placed| > 0 {
      PlaceIs(b, j);
      PlacedLinks(b, j);
      hide BuilderOk, AsPlanned, Build, LinkLevels, Linking, LinksOk, LevelKnown, AllKnown;
      LinkedKeepsShapes(b.links, Build(b, Place(j)).links);
    }
  }

  lemma LinkedKeepsShapes(k: Links, k': Links)
    requires AsPlanned(k) && OnlyLinksChanged(k, k')
    ensures AsPlanned(k')
  {
  }

  ghost predicate InOrder(b: Builder) {
    BuilderOk(b) && AsPlanned(b.links)
  }

  // The objects stand for a builder: the level objects are distinct, and the hierarchy has those that were put on.
  ghost predicate StandsFor(table: CacheTable, h: CacheHierarchy, ls: seq<CacheLevel>, b: Builder)
    reads table, h, ls
  {
    && b.cpus == h.cpus && b.lineSize == CACHE_LINE_SIZE && b.links == table.links
    && |b.levels| == |ls| && |b.placed| == |h.levels|
    && (forall j :: 0 <= j < |ls| ==> b.levels[j] == ls[j].level)
    && (forall i :: 0 <= i < |b.placed| ==> b.placed[i] < |ls| && h.levels[i] == ls[b.placed[i]])
    && (forall i, j :: 0 <= i < j < |ls| ==> ls[i] != ls[j])
  }

  // Everything that was started has been put on, except perhaps the last one.
  ghost predicate PutOnInTurn(b: Builder, n: nat) {
    |b.placed| == n <= |b.levels| && forall i :: 0 <= i < n ==> b.placed[i] == i
  }

  method StartLevel(table: CacheTable, h: CacheHierarchy, ls: seq<CacheLevel>, room: nat, hasInstruction: bool,
                    ghost b: Builder)
    returns (l: CacheLevel, ghost b': Builder)
    requires StandsFor(table, h, ls, b) && InOrder(b)
    ensures fresh(l) && StandsFor(table, h, ls + [l], b') && InOrder(b')
    ensures b' == b.(levels := b.levels + [Level(room, hasInstruction, [], [], None)])
  {
    hide InOrder;
    l := new CacheLevel(room, hasInstruction);
    NewLevelFor(b, NewLevel(room, hasInstruction));
    b' := b.(levels := b.levels + [Level(room, hasInstruction, [], [], None)]);
  }

  lemma NewLevelFor(b: Builder, c: Command)
    requires InOrder(b) && c.NewLevel?
    ensures InOrder(b.(levels := b.levels + [Level(c.room, c.hasInstruction, [], [], None)]))
  {
    OkIsKnown(b);
    PlannedStep(b, c);
  }

  // What adding caches of one size to a level with room for them comes to.
  lemma AddFor(b: Builder, c: Command)
    requires InOrder(b) && c.NewCaches? && c.level < |b.levels| && Follows(c) && b.lineSize == CACHE_LINE_SIZE
    requires |b.levels[c.level].data| < b.levels[c.level].room
    requires c.instruction.Some? <==> b.levels[c.level].hasInstruction
    ensures LevelKnown(Extended(b, c), b.levels[c.level]) && RefuseCaches(b.levels[c.level], NewId(b, c)) == 0
    ensures |b.links.records| < |Extended(b, c).records|
    ensures NewId(b, c).Some? ==> NewId(b, c).value < |Extended(b, c).records|
    ensures var (links, level) := AddCaches(Extended(b, c), b.levels[c.level], |b.links.records|, NewId(b, c));
      InOrder(b.(links := links, levels := b.levels[c.level := level]))
      && |level.data| == |b.levels[c.level].data| + 1 && level.room == b.levels[c.level].room
      && level.hasInstruction == b.levels[c.level].hasInstruction
  {
    OkIsKnown(b);
    PlanIsDivided(c.level);
    PlannedStep(b, c);
    hide BuilderOk, AsPlanned;
  }

  // Sets up a data cache and perhaps an instruction cache of one size and adds them to level j.
  method AddCachesOfSize(table: CacheTable, h: CacheHierarchy, ls: seq<CacheLevel>, j: nat, size: Geometry,
                         instruction: bool, ghost b: Builder)
    returns (ghost b': Builder)
    requires StandsFor(table, h, ls, b) && InOrder(b) && j < |ls| && size == Plan(j)
    requires |ls[j].level.data| < ls[j].level.room && instruction == ls[j].level.hasInstruction
    modifies table, ls[j]
    ensures StandsFor(table, h, ls, b') && InOrder(b')
    ensures b'.placed == b.placed && b'.joints == b.joints && |b'.levels| == |b.levels|
    ensures forall i :: 0 <= i < |b.levels| && i != j ==> b'.levels[i] == b.levels[i]
    ensures |b'.levels[j].data| == |b.levels[j].data| + 1 && b'.levels[j].room == b.levels[j].room
    ensures b'.levels[j].hasInstruction == instruction
  {
    hide InOrder, AddCaches, LevelKnown, RefuseCaches, Plan;
    ghost var c := NewCaches(j, size, if instruction then Some(size) else None, true);
    AddFor(b, c);
    var d := table.SetupCacheState(size, true, j);
    var i := None;
    if instruction {
      var id := table.SetupCacheState(size, true, j);
      i := Some(id);
    }
    assert table.links == Extended(b, c);
    var code := ls[j].AddCachesToLevel(table, d, i);
    b' := b.(links := table.links, levels := b.levels[j := ls[j].level]);
  }

  // What putting level n on top of n others comes to, when it is not refused.
  lemma PlaceFor(b: Builder, n: nat)
    requires InOrder(b) && PutOnInTurn(b, n) && |b.levels| == n + 1 && n < MAX_CACHE_LEVELS
    requires |b.levels[n].data| <= b.cpus
    requires n > 0 ==> |b.levels[n].data| in {1, |b.levels[n - 1].data|} && !b.levels[n].hasInstruction
    ensures AllKnown(b) && Allowed(b, Place(n)) && RefuseLevel(b.cpus, PlacedLevels(b), b.levels[n]) == 0
    ensures InOrder(Build(b, Place(n))) && PutOnInTurn(Build(b, Place(n)), n + 1)
    ensures n > 0 ==>
      (Build(b, Place(n)) ==
       b.(links := LinkLevels(b.links, b.levels[n - 1], b.levels[n], |b.levels[n - 1].data|), placed := b.placed + [n],
          joints := b.joints + [Joint(|b.levels[n - 1].data|, |b.levels[n].data| == 1)]))
    ensures n == 0 ==> Build(b, Place(n)) == b.(placed := [0])
  {
    OkIsKnown(b);
    PlannedStep(b, Place(n));
    hide BuilderOk, AsPlanned, LinkLevels, LevelKnown, InOrder;
    assert PlacedLevels(b) == b.levels[..n];
  }

  method PutOnTop(table: CacheTable, h: CacheHierarchy, ls: seq<CacheLevel>, n: nat, ghost b: Builder)
    returns (ghost b': Builder)
    requires StandsFor(table, h, ls, b) && InOrder(b) && PutOnInTurn(b, n) && |ls| == n + 1 && n < MAX_CACHE_LEVELS
    requires |ls[n].level.data| <= h.cpus
    requires n > 0 ==> |ls[n].level.data| in {1, |ls[n - 1].level.data|} && !ls[n].level.hasInstruction
    modifies table, h
    ensures StandsFor(table, h, ls, b') && InOrder(b') && PutOnInTurn(b', n + 1) && b'.levels == b.levels
    ensures b'.joints ==
      if n == 0 then b.joints else b.joints + [Joint(|b.levels[n - 1].data|, |b.levels[n].data| == 1)]
  {
    hide InOrder, LinkLevels, LevelKnown, AllKnown, Build;
    PlaceFor(b, n);
    LevelsKnown(b);
    assert h.Values() == PlacedLevels(b);
    var code := h.AddLevel(table, ls[n]);
    b' := Build(b, Place(n));
  }

  lemma LevelsKnown(b: Builder)
    requires AllKnown(b)
    ensures forall j :: 0 <= j < |b.levels| ==> LevelKnown(b.links, b.levels[j])
  {
  }

  // A level of equal caches is started, filled and put on top.
  method AddLevelOf(table: CacheTable, h: CacheHierarchy, ls: seq<CacheLevel>, amount: nat, size: Geometry,
                    instruction: bool, ghost b: Builder)
    returns (l: CacheLevel, ghost b': Builder)
    requires StandsFor(table, h, ls, b) && InOrder(b) && PutOnInTurn(b, |ls|) && size == Plan(|ls|)
    requires |ls| < MAX_CACHE_LEVELS && 0 < amount <= h.cpus
    requires |ls| > 0 ==> amount in {1, |b.levels[|ls| - 1].data|} && !instruction
    modifies table, h
    ensures fresh(l) && StandsFor(table, h, ls + [l], b') && InOrder(b') && PutOnInTurn(b', |ls| + 1)
    ensures |b'.levels| == |b.levels| + 1 && b'.levels[..|b.levels|] == b.levels
    ensures |b'.levels[|ls|].data| == amount && b'.levels[|ls|].hasInstruction == instruction
    ensures b'.joints == if |ls| == 0 then b.joints else b.joints + [Joint(|b.levels[|ls| - 1].data|, amount == 1)]
  {
    hide InOrder, Plan;
    var n := |ls|;
    l, b' := StartLevel(table, h, ls, h.cpus, instruction, b);
    var all := ls + [l];
    for i := 0 to amount
      invariant StandsFor(table, h, all, b') && InOrder(b') && b'.placed == b.placed && b'.joints == b.joints
      invariant |b'.levels| == n + 1 && forall j :: 0 <= j < n ==> b'.levels[j] == b.levels[j]
      invariant |b'.levels[n].data| == i && b'.levels[n].room == h.cpus && b'.levels[n].hasInstruction == instruction
    {
      b' := AddCachesOfSize(table, h, all, n, size, instruction, b');
    }
    b' := PutOnTop(table, h, all, n, b');
  }

  /**
   * The hierarchy of a worker: an 8 KB data and an 8 KB instruction cache for each processor, 256 KB for
   * each above them, and 8 MB for all on top. Its links are valid in both directions, all first-level caches share a
   * bus and so do all of the second level, all caches run the protocol and report their misses, and the set counts
   * (8, 256 and 8192) are multiples of the number of workers.
   */
  method SetupCache(cpus: nat, v: Variant) returns (r: Hierarchy)
    requires cpus > 0
    ensures ValidHierarchy(r) && r.cpus == cpus == |r.data| == |r.instruction|
    ensures r.topology.lineSize == CACHE_LINE_SIZE && r.topology.variant == v
    ensures HasPlan(r.topology) && Shardable(r.topology, WORKERS)
    ensures exists own, top :: IsTree(r, own, top) && HasBuses(r, own, top)
    ensures LastLevelsReport(r.topology)
  {
    hide InOrder, HasPlan, IsTree, HasBuses, ValidHierarchy, Shardable, LastLevelsReport, ToHierarchy, Nodes;
    var table := new CacheTable();
    var h := new CacheHierarchy(cpus);
    var ls;
    ghost var b;
    ls, b := AddAllLevels(table, h);
    BuiltForWorkers(b, v);
    r := Hierarchy(Nodes(v, table.links), cpus, h.levels[0].level.data, h.levels[0].level.instruction);
    HierarchyIs(b, v);
    assert IsTree(r, b.levels[1].data, b.levels[2].data[0]) && HasBuses(r, b.levels[1].data, b.levels[2].data[0]);
  }

  method AddAllLevels(table: CacheTable, h: CacheHierarchy) returns (ls: seq<CacheLevel>, ghost b: Builder)
    requires table.links == Links([], []) && h.levels == [] && h.cpus > 0
    modifies table, h
    ensures StandsFor(table, h, ls, b) && InOrder(b) && ThreeLevels(b)
    ensures |h.levels| == 3 && h.levels[0].level == b.levels[0] && b.links == table.links
  {
    hide InOrder, Plan;
    StartInOrder(h.cpus);
    PlanIs();
    b := WiringProofs.Start(h.cpus, CACHE_LINE_SIZE);
    var l1, l2, l3;
    l1, b := AddLevelOf(table, h, [], h.cpus, Bytes(8 * 1024), true, b);
    ls := [l1];
    assert [] + [l1] == ls;
    l2, b := AddLevelOf(table, h, ls, h.cpus, Bytes(256 * 1024), false, b);
    ls := ls + [l2];
    l3, b := AddLevelOf(table, h, ls, 1, Bytes(8 * 1024 * 1024), false, b);
    ls := ls + [l3];
    FirstLevels(b);
  }

  lemma FirstLevels(b: Builder)
    requires |b.levels| == 3
    ensures b.levels[..2][..1] == b.levels[..1] && b.levels[..2][0] == b.levels[0] && b.levels[..2][1] == b.levels[1]
  {
  }

  lemma HierarchyIs(b: Builder, v: Variant)
    requires ThreeLevels(b) && b.lineSize == CACHE_LINE_SIZE
    ensures ToHierarchy(v, b) == Hierarchy(Nodes(v, b.links), b.cpus, b.levels[0].data, b.levels[0].instruction)
  {
    assert b.placed == [0, 1, 2];
  }

  lemma StartInOrder(cpus: nat)
    ensures InOrder(WiringProofs.Start(cpus, CACHE_LINE_SIZE))
  {
    StartIsOk(cpus, CACHE_LINE_SIZE);
  }

  // The caches as the access code sees them, when the levels were put on in the order of their numbers.
  function Nodes(v: Variant, k: Links): Topology {
    ToTopology(v, Builder(0, CACHE_LINE_SIZE, k, [], [0, 1, 2], []))
  }

  // A cache of a level that goes on to another one, or to none.
  ghost predicate GoesOnTo(t: Topology, c: nat, level: nat, higher: Option<nat>) {
    c < |t.nodes| && t.nodes[c].level == level && t.nodes[c].higher == higher
  }

  // A cache tells these of evictions, each once.
  ghost predicate Tells(t: Topology, c: nat, lower: seq<nat>) {
    c < |t.nodes| && multiset(t.nodes[c].lower) == multiset(lower)
  }

  // Each processor's two caches go on to one of its own, and these to one for all, on top; notices go the same ways.
  ghost predicate IsTree(r: Hierarchy, own: seq<nat>, top: nat) {
    && |r.data| == |r.instruction| == |own| == r.cpus
    && Distinct(own) && Distinct(r.data + r.instruction)
    && (forall i :: 0 <= i < |own| ==> GoesOnTo(r.topology, r.data[i], 0, Some(own[i])))
    && (forall i :: 0 <= i < |own| ==> GoesOnTo(r.topology, r.instruction[i], 0, Some(own[i])))
    && (forall i :: 0 <= i < |own| ==> GoesOnTo(r.topology, own[i], 1, Some(top)))
    && GoesOnTo(r.topology, top, 2, None)
    && (forall i :: 0 <= i < |own| ==> Tells(r.topology, r.data[i], []) && Tells(r.topology, r.instruction[i], []))
    && (forall i :: 0 <= i < |own| ==> Tells(r.topology, own[i], [r.data[i], r.instruction[i]]))
    && Tells(r.topology, top, own)
  }

  // The first-level caches of all processors are on one bus, their second-level caches on another; the top has none.
  ghost predicate HasBuses(r: Hierarchy, own: seq<nat>, top: nat) {
    && ShareBus(r.topology, r.data + r.instruction, r.cpus > 1)
    && ShareBus(r.topology, own, r.cpus > 1)
    && ShareBus(r.topology, [top], false)
  }

  // So with several processors, each first-level cache hears from every other, and so does each second-level cache.
  lemma EachHearsTheOthers(r: Hierarchy, own: seq<nat>, top: nat)
    requires HasBuses(r, own, top) && r.cpus > 1
    ensures forall c, d :: c in r.data + r.instruction && d in r.data + r.instruction ==>
      c < |r.topology.nodes| && d in r.topology.nodes[c].peers
    ensures forall c, d :: c in own && d in own ==> c < |r.topology.nodes| && d in r.topology.nodes[c].peers
    ensures top < |r.topology.nodes| && r.topology.nodes[top].peers == []
  {
    HearsTheOthers(r.topology, r.data + r.instruction);
    HearsTheOthers(r.topology, own);
    assert top == [top][0];
    assert |multiset(r.topology.nodes[top].peers)| == 0;
  }

  /** So a line that one processor has modified is held by no other first-level cache, whatever the processors do. */
  lemma OneProcessorWrites(r: Hierarchy, own: seq<nat>, top: nat, trace: seq<MemoryAccess>, c: nat, d: nat, line: nat)
    requires ValidHierarchy(r) && HasBuses(r, own, top) && r.cpus > 1 && AddressableTrace(trace)
    requires c in r.data + r.instruction && d in r.data + r.instruction && c != d
    ensures c < |r.topology.nodes| && d < |r.topology.nodes| && Shaped(r.topology, Fresh(r.topology))
    ensures var s := Run(r, Fresh(r.topology), trace).system;
      Held(r.topology, s, c, line) == Modified ==> Held(r.topology, s, d, line) == Invalid
  {
    hide HasBuses, ShareBus, Run, Fresh;
    EachHearsTheOthers(r, own, top);
    SingleWriterAlways(r, trace);
  }

  /**
   * A processor's access that neither its first cache nor its own second one has a place for takes the line from the
   * other first cache of that processor; if the top has none either, from the second-level caches of all others.
   */
  lemma OtherCachesAreTold(r: Hierarchy, own: seq<nat>, top: nat, trace: seq<MemoryAccess>, m: MemoryAccess)
    requires ValidHierarchy(r) && IsTree(r, own, top) && AddressableTrace(trace) && m.address < ADDRESS_LIMIT
    requires !Refused(r, m) && Shaped(r.topology, Fresh(r.topology))
    ensures var t, s, line := r.topology, Run(r, Fresh(r.topology), trace).system, m.address / r.topology.lineSize;
      var s' := Run(r, Fresh(r.topology), trace + [m]).system;
      var (first, other) := if m.kind == KIND_FETCH then (r.instruction, r.data) else (r.data, r.instruction);
      Lacks(t, s, first[m.cpu], line) && Lacks(t, s, own[m.cpu], line) ==>
        && Held(t, s', other[m.cpu], line) == Invalid
        && (Lacks(t, s, top, line) ==>
              forall j :: 0 <= j < |own| && j != m.cpu ==> Held(t, s', own[j], line) == Invalid)
  {
    hide *;
    WayOf(r, own, top, m);
    var t, s, line, i := r.topology, Run(r, Fresh(r.topology), trace).system, m.address / r.topology.lineSize, m.cpu;
    var (first, other) := if m.kind == KIND_FETCH then (r.instruction, r.data) else (r.data, r.instruction);
    TreeAt(r, own, top, i);
    WayUp(t, s, Request(m), first[i], own[i], top, line);
    if Lacks(t, s, first[i], line) && Lacks(t, s, own[i], line) {
      LastMissesAreTold(r, trace, m, own[i], other[i]);
      if Lacks(t, s, top, line) {
        forall j | 0 <= j < |own| && j != i
          ensures Held(t, Run(r, Fresh(t), trace + [m]).system, own[j], line) == Invalid
        {
          TreeTop(r, own, top, i, j);
          LastMissesAreTold(r, trace, m, top, own[j]);
        }
      }
    }
  }

  lemma WayOf(r: Hierarchy, own: seq<nat>, top: nat, m: MemoryAccess)
    requires ValidHierarchy(r) && IsTree(r, own, top) && !Refused(r, m)
    ensures m.cpu < r.cpus == |own| == |r.data| == |r.instruction| && Valid(r.topology) && r.topology.lineSize > 0
    ensures forall j :: 0 <= j < |own| ==> own[j] < |r.topology.nodes|
    ensures Entry(r, m) == if m.kind == KIND_FETCH then r.instruction[m.cpu] else r.data[m.cpu]
    ensures LineOf(r.topology, Request(m)) == m.address / r.topology.lineSize
  {
    hide Tells, Distinct;
  }

  // The way of the accesses of processor i, and who is told on it.
  lemma TreeAt(r: Hierarchy, own: seq<nat>, top: nat, i: nat)
    requires IsTree(r, own, top) && i < r.cpus
    ensures |own| == |r.data| == |r.instruction| == r.cpus
    ensures top < |r.topology.nodes| && own[i] < |r.topology.nodes|
    ensures r.data[i] < |r.topology.nodes| && r.instruction[i] < |r.topology.nodes|
    ensures GoesOnTo(r.topology, r.data[i], 0, Some(own[i])) && GoesOnTo(r.topology, r.instruction[i], 0, Some(own[i]))
    ensures GoesOnTo(r.topology, own[i], 1, Some(top)) && GoesOnTo(r.topology, top, 2, None)
    ensures r.data[i] in r.topology.nodes[own[i]].lower && r.instruction[i] in r.topology.nodes[own[i]].lower
    ensures r.data[i] !in {r.instruction[i], own[i], top} && r.instruction[i] !in {own[i], top}
  {
    hide Distinct;
    var lower := r.topology.nodes[own[i]].lower;
    assert Tells(r.topology, own[i], [r.data[i], r.instruction[i]]);
    assert r.data[i] in multiset(lower) && r.instruction[i] in multiset(lower);
    FirstAreTwo(r, i);
  }

  lemma FirstAreTwo(r: Hierarchy, i: nat)
    requires Distinct(r.data + r.instruction) && i < |r.data| == |r.instruction|
    ensures r.data[i] != r.instruction[i]
  {
    var all := r.data + r.instruction;
    assert all[i] == r.data[i] && all[|r.data| + i] == r.instruction[i];
  }

  lemma TreeTop(r: Hierarchy, own: seq<nat>, top: nat, i: nat, j: nat)
    requires IsTree(r, own, top) && i < r.cpus && j < r.cpus && i != j
    ensures |own| == |r.data| == |r.instruction| == r.cpus && top < |r.topology.nodes|
    ensures own[j] in r.topology.nodes[top].lower
    ensures own[j] !in {r.data[i], r.instruction[i], own[i], top}
  {
    assert Tells(r.topology, top, own);
    assert own[j] in multiset(own);
    assert own[j] in multiset(r.topology.nodes[top].lower);
  }

  lemma WayUp(t: Topology, s: System, a: Access, c1: nat, c2: nat, top: nat, line: nat)
    requires Valid(t) && Shaped(t, s) && GoesOnTo(t, c1, 0, Some(c2)) && GoesOnTo(t, c2, 1, Some(top))
    requires GoesOnTo(t, top, 2, None) && LineOf(t, a) == line
    ensures Lacks(t, s, c1, line) && Lacks(t, s, c2, line) ==>
      MissesAt(t, s, c1, a, c2) && (Lacks(t, s, top, line) ==> MissesAt(t, s, c1, a, top))
    ensures forall d :: d !in {c1, c2, top} ==> !Passes(t, s, c1, a, d)
  {
    hide Find, Valid;
    forall d | d !in {c1, c2, top} ensures !Passes(t, s, c1, a, d) {
      assert !Passes(t, s, top, a, d) && !Passes(t, s, c2, a, d);
    }
    assert Lacks(t, s, top, line) ==> MissesAt(t, s, top, a, top);
    assert Lacks(t, s, c2, line) ==> MissesAt(t, s, c2, a, c2);
    assert Lacks(t, s, c2, line) && Lacks(t, s, top, line) ==> MissesAt(t, s, c2, a, top);
  }

  // No way of its set carries the tag of the line.
  predicate Lacks(t: Topology, s: System, c: nat, line: nat)
    requires Valid(t) && Shaped(t, s) && c < |t.nodes|
  {
    Find(t.nodes[c].geometry, s[c], line) == -1
  }

  lemma HearsTheOthers(t: Topology, m: seq<nat>)
    requires ShareBus(t, m, true)
    ensures forall c, d :: c in m && d in m ==> c < |t.nodes| && d in t.nodes[c].peers
  {
    forall c, d | c in m && d in m ensures c < |t.nodes| && d in t.nodes[c].peers {
      var i :| 0 <= i < |m| && m[i] == c;
      assert d in multiset(m);
    }
  }

  // The three levels of a worker, filled before the next one was put on.
  ghost predicate ThreeLevels(b: Builder) {
    && b.cpus > 0 && |b.levels| == 3 && PutOnInTurn(b, 3) && |b.joints| == 2
    && b.levels[0].hasInstruction && |b.levels[0].data| == b.cpus
    && !b.levels[1].hasInstruction && |b.levels[1].data| == b.cpus
    && !b.levels[2].hasInstruction && |b.levels[2].data| == 1
    && b.joints[0] == Joint(b.cpus, b.cpus == 1) && b.joints[1] == Joint(b.cpus, true)
  }

  lemma BuiltBuses(b: Builder, v: Variant)
    requires BuilderOk(b) && ThreeLevels(b)
    ensures HasBuses(ToHierarchy(v, b), b.levels[1].data, b.levels[2].data[0])
  {
    LevelAt(b, 0);
    LevelAt(b, 1);
    LevelAt(b, 2);
    hide BuilderOk, LevelOk, ShareBus;
    LevelSharesBus(b, v, 0);
    LevelSharesBus(b, v, 1);
    LevelSharesBus(b, v, 2);
    assert Members(b.levels[1]) == b.levels[1].data;
    assert Members(b.levels[2]) == [b.levels[2].data[0]];
  }

  // How the caches of two levels, one above the other, are linked.
  lemma LevelsStacked(b: Builder, p: nat)
    requires BuilderOk(b) && p < |b.joints|
    ensures p + 1 < |b.placed| && b.placed[p] < |b.levels| && b.placed[p + 1] < |b.levels|
    ensures LevelKnown(b.links, b.levels[b.placed[p]]) && LevelKnown(b.links, b.levels[b.placed[p + 1]])
    ensures Stacked(b.links, b.levels[b.placed[p]], b.levels[b.placed[p + 1]], b.joints[p])
  {
  }

  lemma BuiltLinks(b: Builder)
    requires BuilderOk(b) && ThreeLevels(b)
    ensures forall p :: 0 <= p < 3 ==> LevelKnown(b.links, b.levels[p]) && LevelOk(b.links, b.levels[p], p)
    ensures var k, l := b.links.records, b.levels;
      && |l[0].instruction| == b.cpus && l[1].instruction == l[2].instruction == []
      && (forall i :: 0 <= i < b.cpus ==>
            k[l[0].data[i]].higher == k[l[0].instruction[i]].higher == Some(l[1].data[i]))
      && (forall i :: 0 <= i < b.cpus ==> k[l[1].data[i]].higher == Some(l[2].data[0]))
      && k[l[2].data[0]].higher == None
  {
    LevelAt(b, 0);
    LevelAt(b, 1);
    LevelAt(b, 2);
    LevelsStacked(b, 0);
    LevelsStacked(b, 1);
    TopIsLast(b);
    hide BuilderOk, LevelOk;
  }

  lemma TopIsLast(b: Builder)
    requires BuilderOk(b) && ThreeLevels(b)
    ensures b.levels[2].data[0] < |b.links.records| && b.links.records[b.levels[2].data[0]].higher == None
  {
    LevelAt(b, 2);
    PlacedDistinct(b);
    OrderOk(b);
    hide BuilderOk, LevelOk, Distinct;
    TopIsUnlinked(b.links, b.lineSize, b.placed, b.levels[2], 2);
  }

  lemma OrderOk(b: Builder)
    requires BuilderOk(b)
    ensures LinksOk(b.links, b.lineSize, b.placed)
  {
  }

  // The place of a level of a worker is its number.
  lemma PlacesAre(b: Builder, p: nat)
    requires BuilderOk(b) && ThreeLevels(b) && p < 3
    ensures Position(b.placed, p) == p
  {
    PlacedDistinct(b);
    PositionIs(b.placed, p);
  }

  // The first level tells nobody.
  lemma LowestTell(b: Builder, v: Variant, c: nat)
    requires BuilderOk(b) && ThreeLevels(b) && c < |b.links.records| && b.links.records[c].owner == 0
    ensures Tells(ToTopology(v, b), c, [])
  {
    PlacesAre(b, 0);
    NothingBelow(b, c);
  }

  lemma SecondTells(b: Builder, v: Variant, i: nat)
    requires BuilderOk(b) && ThreeLevels(b) && i < b.cpus && |b.levels[0].instruction| == b.cpus
    ensures Tells(ToTopology(v, b), b.levels[1].data[i], [b.levels[0].data[i], b.levels[0].instruction[i]])
  {
    hide BuilderOk, LevelOk, LevelKnown;
    BuiltLinks(b);
    InLevel(b.links, b.levels[0], 0);
    InLevel(b.links, b.levels[1], 1);
    var l, c := b.levels, b.levels[1].data[i];
    var below := [l[0].data[i], l[0].instruction[i]];
    assert Members(l[1])[i] == c;
    MembersOf(l[0]);
    LevelOfMembers(b.links, l[0], 0);
    MembersAt(l[0]);
    LowerFromBelow(b, 1, c, below);
  }

  lemma TopTells(b: Builder, v: Variant)
    requires BuilderOk(b) && ThreeLevels(b)
    ensures Tells(ToTopology(v, b), b.levels[2].data[0], b.levels[1].data)
  {
    hide BuilderOk, LevelOk, LevelKnown;
    BuiltLinks(b);
    InLevel(b.links, b.levels[1], 1);
    InLevel(b.links, b.levels[2], 2);
    assert Members(b.levels[2])[0] == b.levels[2].data[0];
    assert Members(b.levels[1]) == b.levels[1].data;
    LowerFromBelow(b, 2, b.levels[2].data[0], b.levels[1].data);
  }

  lemma MembersOf(l: Level)
    ensures forall c :: c in Members(l) <==> c in l.data || c in l.instruction
  {
  }

  lemma BuiltTree(b: Builder, v: Variant)
    requires BuilderOk(b) && ThreeLevels(b)
    ensures IsTree(ToHierarchy(v, b), b.levels[1].data, b.levels[2].data[0])
  {
    hide BuilderOk, LevelOk, LevelKnown, Tells, Position;
    BuiltLinks(b);
    PlacesAre(b, 0);
    PlacesAre(b, 1);
    PlacesAre(b, 2);
    InLevel(b.links, b.levels[0], 0);
    InLevel(b.links, b.levels[1], 1);
    InLevel(b.links, b.levels[2], 2);
    forall i | 0 <= i < b.cpus
      ensures Tells(ToTopology(v, b), b.levels[0].data[i], [])
      ensures Tells(ToTopology(v, b), b.levels[0].instruction[i], [])
      ensures Tells(ToTopology(v, b), b.levels[1].data[i], [b.levels[0].data[i], b.levels[0].instruction[i]])
    {
      LowestTell(b, v, b.levels[0].data[i]);
      LowestTell(b, v, b.levels[0].instruction[i]);
      SecondTells(b, v, i);
    }
    TopTells(b, v);
  }

  lemma InLevel(k: Links, l: Level, j: nat)
    requires LevelKnown(k, l) && LevelOk(k, l, j)
    ensures forall i :: 0 <= i < |l.data| ==> l.data[i] < |k.records| && k.records[l.data[i]].owner == j
    ensures forall i :: 0 <= i < |l.instruction| ==>
      l.instruction[i] < |k.records| && k.records[l.instruction[i]].owner == j
    ensures Distinct(l.data) && |l.instruction| == if l.hasInstruction then |l.data| else 0
    ensures Distinct(l.data + l.instruction)
  {
    LevelOfMembers(k, l, j);
    MembersAt(l);
  }

  // Every cache has sixteen ways and, in lines of 64 bytes, the size for its level, runs the protocol and reports.
  ghost predicate HasPlan(t: Topology) {
    forall c :: 0 <= c < |t.nodes| ==>
      var n := t.nodes[c];
      && n.geometry.associativity == 16 && n.coherent && n.reports
      && 64 * n.geometry.size == if n.level == 0 then 8 * 1024 else if n.level == 1 then 256 * 1024 else 8 * 1024 * 1024
  }

  lemma PlannedIsShardable(t: Topology)
    requires Valid(t) && HasPlan(t)
    ensures Shardable(t, WORKERS)
  {
    forall c | 0 <= c < |t.nodes| ensures t.nodes[c].geometry.Sets() % WORKERS == 0 {
      assert t.nodes[c].geometry == Plan(t.nodes[c].level);
      PlanIsDivided(t.nodes[c].level);
    }
  }

  lemma BuiltForWorkers(b: Builder, v: Variant)
    requires InOrder(b) && b.lineSize == CACHE_LINE_SIZE && ThreeLevels(b)
    ensures var r := ToHierarchy(v, b);
      && ValidHierarchy(r) && HasPlan(r.topology) && Shardable(r.topology, WORKERS) && LastLevelsReport(r.topology)
      && r.topology.lineSize == CACHE_LINE_SIZE && r.topology.variant == v
      && r.cpus == |r.data| == |r.instruction| == b.cpus
      && IsTree(r, b.levels[1].data, b.levels[2].data[0]) && HasBuses(r, b.levels[1].data, b.levels[2].data[0])
  {
    BuiltIsUsableIff(b, v);
    BuiltTree(b, v);
    BuiltBuses(b, v);
    PlannedLevels(b, v);
    BuiltIsValid(b, v);
    BuiltIsReached(b);
    hide BuilderOk, AsPlanned, Valid, IsTree, HasBuses;
    PlannedIsShardable(ToTopology(v, b));
  }

  lemma BuiltIsReached(b: Builder)
    requires BuilderOk(b) && ThreeLevels(b)
    ensures |b.levels[0].instruction| == b.cpus
  {
    BuiltLinks(b);
  }

  lemma PlannedLevels(b: Builder, v: Variant)
    requires InOrder(b) && ThreeLevels(b)
    ensures HasPlan(ToTopology(v, b))
  {
    hide Position;
    forall c | 0 <= c < |b.links.records|
      ensures Position(b.placed, b.links.records[c].owner) == b.links.records[c].owner && b.links.records[c].coherent
    {
      assert IsOwned(b.links, b.levels, c);
      RecordMeans(b, c);
      PlacesAre(b, b.links.records[c].owner);
    }
  }

  // ----- a batch

  // How many accesses come before the first that is refused.
  function Accepted(h: Hierarchy, batch: seq<MemoryAccess>): (n: nat)
    ensures n <= |batch| && (n < |batch| ==> Refused(h, batch[n]))
    ensures forall i :: 0 <= i < n ==> !Refused(h, batch[i])
  {
    if batch == [] || Refused(h, batch[0]) then 0 else 1 + Accepted(h, batch[1..])
  }

  /** Works through a received batch; stops with 1 at the first access that is refused, with all before it done. */
  method ProcessBatch(h: Hierarchy, caches: CacheSystem, batch: seq<MemoryAccess>) returns (code: int)
    requires caches.Sound() && ValidHierarchy(h) && h.topology == caches.t
    modifies caches.Storage(), caches`reports
    ensures code == if Accepted(h, batch) == |batch| then 0 else 1
    ensures var done := Run(h, old(caches.State()), batch[..Accepted(h, batch)]);
      caches.State() == done.system && caches.reports == old(caches.reports) + done.reports
  {
    hide *;
    ghost var s0, reports0, done := caches.State(), caches.reports, Outcome(caches.State(), []);
    var i := 0;
    RunNone(h, s0, batch);
    while i < |batch|
      invariant i <= Accepted(h, batch)
      invariant caches.Sound() && done == Run(h, s0, batch[..i])
      invariant caches.State() == done.system && caches.reports == reports0 + done.reports
    {
      RunNext(h, s0, batch, i);
      AcceptedNext(h, batch, i);
      StepIs(h, done, batch[i]);
      var refused := caches.AccessCacheInHierarchy(h, batch[i]);
      if refused != 0 {
        return 1;
      }
      done := Then(done, Step(h, done.system, batch[i]));
      i := i + 1;
    }
    return 0;
  }

  lemma StepIs(h: Hierarchy, done: Outcome, m: MemoryAccess)
    requires ValidHierarchy(h) && Shaped(h.topology, done.system)
    ensures var step := Step(h, done.system, m);
      && Then(done, step) == Outcome(step.system, done.reports + step.reports)
      && (Refused(h, m) ==> step == Outcome(done.system, []))
  {
  }

  lemma AcceptedNext(h: Hierarchy, batch: seq<MemoryAccess>, i: nat)
    requires i <= Accepted(h, batch) && i < |batch|
    ensures if Refused(h, batch[i]) then Accepted(h, batch) == i else i + 1 <= Accepted(h, batch)
  {
  }

  lemma RunNone(h: Hierarchy, s: System, batch: seq<MemoryAccess>)
    requires ValidHierarchy(h) && Shaped(h.topology, s)
    ensures Run(h, s, batch[..0]) == Outcome(s, [])
  {
  }

  lemma RunNext(h: Hierarchy, s: System, batch: seq<MemoryAccess>, i: nat)
    requires ValidHierarchy(h) && Shaped(h.topology, s) && i < |batch|
    ensures Run(h, s, batch[..i + 1]) == Then(Run(h, s, batch[..i]), Step(h, Run(h, s, batch[..i]).system, batch[i]))
  {
    assert batch[..i + 1] == batch[..i] + [batch[i]];
    RunLast(h, s, batch[..i], batch[i]);
  }
}
