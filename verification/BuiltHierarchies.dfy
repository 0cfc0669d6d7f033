/**
 * What a hierarchy that was built looks like to an access: its links are valid, its buses carry whole levels, and
 * evictions are told to the right caches.
 */
module BuiltHierarchies {
  import opened Options
  import opened CacheSpec
  import opened Hierarchy
  import opened Wiring
  import opened WiringLinks
  import opened WiringProofs

  // ----- what a hierarchy looks like to an access

  // The place of a level among those that were put on; the others are linked to nothing and may have any.
  function Position(placed: seq<nat>, j: nat): (p: nat)
    ensures if j in placed then p < |placed| && placed[p] == j else p == 0
  {
    if j !in placed || placed[0] == j then 0 else 1 + Position(placed[1..], j)
  }

  lemma PositionIs(placed: seq<nat>, i: nat)
    requires Distinct(placed) && i < |placed|
    ensures Position(placed, placed[i]) == i
  {
    var p := Position(placed, placed[i]);
    assert placed[p] == placed[i];
  }

  lemma NextPosition(placed: seq<nat>, a: nat, b: nat)
    requires Distinct(placed) && IsNext(placed, a, b)
    ensures Position(placed, b) == Position(placed, a) + 1 < |placed|
  {
    var i :| 0 <= i < |placed| - 1 && placed[i] == a && placed[i + 1] == b;
    PositionIs(placed, i);
    PositionIs(placed, i + 1);
  }

  // A record as the access code sees it.
  function NodeOf(k: Links, placed: seq<nat>, r: Record): Node {
    Node(r.geometry, Position(placed, r.owner), r.higher, r.lower,
         if r.bus.Some? && r.bus.value < |k.buses| then k.buses[r.bus.value] else [], r.coherent, r.reports)
  }

  function ToTopology(v: Variant, b: Builder): (t: Topology)
    ensures t.variant == v && t.lineSize == b.lineSize && |t.nodes| == |b.links.records|
    ensures forall c :: 0 <= c < |t.nodes| ==> t.nodes[c] == NodeOf(b.links, b.placed, b.links.records[c])
  {
    var k := b.links;
    Topology(v, b.lineSize,
             seq(|k.records|, c requires 0 <= c < |k.records| => NodeOf(k, b.placed, k.records[c])))
  }

  // The lowest level that was put on, if there is one, is the one that processors enter at.
  function ToHierarchy(v: Variant, b: Builder): Hierarchy
    requires forall i :: 0 <= i < |b.placed| ==> b.placed[i] < |b.levels|
  {
    Hierarchy(ToTopology(v, b), b.cpus, if |b.placed| == 0 then [] else b.levels[b.placed[0]].data,
              if |b.placed| == 0 then [] else b.levels[b.placed[0]].instruction)
  }

  lemma HigherIsNext(b: Builder, c: nat)
    requires BuilderOk(b) && c < |b.links.records| && b.links.records[c].higher.Some?
    ensures var h := b.links.records[c].higher.value;
      && h < |b.links.records| && c in b.links.records[h].lower
      && IsNext(b.placed, b.links.records[c].owner, b.links.records[h].owner)
      && Position(b.placed, b.links.records[h].owner) == Position(b.placed, b.links.records[c].owner) + 1 < |b.placed|
  {
    assert RecordOk(b.links, b.lineSize, b.placed, c);
    NextPosition(b.placed, b.links.records[c].owner, b.links.records[b.links.records[c].higher.value].owner);
  }

  lemma BusesLinked(b: Builder, c: nat)
    requires BuilderOk(b) && c < |b.links.records| && b.links.records[c].bus.Some?
    ensures var r := b.links.records[c];
      && r.bus.value < |b.links.buses| && c in b.links.buses[r.bus.value]
      && forall i :: 0 <= i < |b.links.buses[r.bus.value]| ==>
        var p := b.links.buses[r.bus.value][i];
        p < |b.links.records| && b.links.records[p].bus == r.bus && b.links.records[p].owner == r.owner
  {
    var k, r := b.links, b.links.records[c];
    assert RecordOk(k, b.lineSize, b.placed, c) && BusOk(k, r.bus.value);
    var peers := k.buses[r.bus.value];
    var j :| 0 <= j < |peers| && peers[j] == c;
    forall i | 0 <= i < |peers| ensures k.records[peers[i]].owner == r.owner {
      if i < j {
        assert k.records[peers[i]].owner == k.records[peers[j]].owner;
      }
    }
  }

  lemma LowerIsBelow(b: Builder, c: nat)
    requires BuilderOk(b) && c < |b.links.records|
    ensures forall i :: 0 <= i < |b.links.records[c].lower| ==>
      var x := b.links.records[c].lower[i];
      x < |b.links.records| &&
      Position(b.placed, b.links.records[x].owner) < Position(b.placed, b.links.records[c].owner)
  {
    LowerAre(b, c);
    hide BuilderOk, Position;
    forall i | 0 <= i < |b.links.records[c].lower|
      ensures var x := b.links.records[c].lower[i];
        x < |b.links.records| &&
        Position(b.placed, b.links.records[x].owner) < Position(b.placed, b.links.records[c].owner)
    {
      assert b.links.records[c].lower[i] in b.links.records[c].lower;
      HigherIsNext(b, b.links.records[c].lower[i]);
    }
  }

  lemma RecordMeans(b: Builder, c: nat)
    requires BuilderOk(b) && c < |b.links.records|
    ensures Usable(b.lineSize, b.links.records[c].geometry) && b.links.records[c].coherent
    ensures Position(b.placed, b.links.records[c].owner) < MAX_CACHE_LEVELS
  {
    assert RecordOk(b.links, b.lineSize, b.placed, c);
  }

  lemma BuiltNodeLinked(b: Builder, v: Variant, c: nat)
    requires BuilderOk(b) && c < |b.links.records|
    ensures Linked(ToTopology(v, b), c)
  {
    hide BuilderOk, Position, Usable, IsNext;
    LowerIsBelow(b, c);
    RecordMeans(b, c);
    if b.links.records[c].higher.Some? {
      HigherIsNext(b, c);
    }
    if b.links.records[c].bus.Some? {
      BusesLinked(b, c);
    }
  }

  /** The links of every hierarchy built are valid: accesses terminate, and every theorem about them applies. */
  lemma BuiltIsValid(b: Builder, v: Variant)
    requires BuilderOk(b) && b.lineSize > 0
    ensures Valid(ToTopology(v, b))
  {
    var t := ToTopology(v, b);
    forall c | 0 <= c < |t.nodes|
      ensures t.nodes[c].geometry.Valid() && t.lineSize * t.nodes[c].geometry.Sets() >= 2 && Linked(t, c)
    {
      RecordMeans(b, c);
      BuiltNodeLinked(b, v, c);
    }
  }

  // ----- whether processors can use it

  // The index at cache/hierarchy.c:125 is inside the arrays of the first level.
  predicate Reaches(b: Builder, cpu: nat)
    requires |b.placed| > 0 && b.placed[0] < |b.levels|
  {
    var first := b.levels[b.placed[0]];
    var i := if |first.data| == 1 then 0 else cpu;
    i < |first.data| && (first.hasInstruction ==> i < |first.instruction|)
  }

  /**
   * All processors find their caches if and only if the first level has one data cache for all or at least one for
   * each of them: with any other number the index of some processor is out of range.
   */
  lemma BuiltIsUsableIff(b: Builder, v: Variant)
    requires BuilderOk(b) && b.lineSize > 0 && |b.placed| > 0
    ensures var n := |b.levels[b.placed[0]].data|;
      && ((forall cpu: nat :: cpu < b.cpus ==> Reaches(b, cpu)) <==> n == 1 || n >= b.cpus)
      && (b.cpus > 0 ==>
            ((forall cpu: nat :: cpu < b.cpus ==> Reaches(b, cpu)) <==> ValidHierarchy(ToHierarchy(v, b)) && n > 0))
  {
    BuiltIsValid(b, v);
    var first := b.levels[b.placed[0]];
    assert LevelKnown(b.links, first);
    hide Valid, LinksOk, LevelOk, Stacked, AllOwned;
    var n := |first.data|;
    if n != 1 && n < b.cpus {
      assert !Reaches(b, n);
    }
  }

  // No level that was put on has more data caches than there are processors.
  ghost predicate Bounded(b: Builder) {
    forall i :: 0 <= i < |b.placed| ==> b.placed[i] < |b.levels| && |b.levels[b.placed[i]].data| <= b.cpus
  }

  lemma StepBounds(b: Builder, c: Command)
    requires AllKnown(b) && Allowed(b, c) && Bounded(b) && (c.NewCaches? ==> c.level !in b.placed)
    ensures Bounded(Build(b, c)) && Build(b, c).cpus == b.cpus
  {
    hide LevelKnown, LinkLevels, AddCaches;
    assert AllKnown(b);
  }

  /**
   * So it is as long as nothing is added to a level that was put on: the number of processors is only looked at when a
   * level is put on.
   */
  lemma {:induction false} BuildsAreBounded(cpus: nat, lineSize: nat, commands: seq<Command>, builders: seq<Builder>)
    requires IsBuild(cpus, lineSize, commands, builders)
    requires forall i :: 0 <= i < |commands| && commands[i].NewCaches? ==> commands[i].level !in builders[i].placed
    ensures Bounded(builders[|commands|]) && builders[|commands|].cpus == cpus
  {
    hide Bounded, Build, AllKnown, Allowed;
    var n := |commands|;
    if n == 0 {
      StartIsBounded(cpus, lineSize);
    } else {
      BuildsAreBounded(cpus, lineSize, commands[..n - 1], builders[..n]);
      assert IsStep(builders[n - 1], commands[n - 1], builders[n]);
      StepBounds(builders[n - 1], commands[n - 1]);
    }
  }

  // One processor, and a level with room for two caches, to which the second is added late.
  function LateCommands(g: Geometry): seq<Command> {
    [NewLevel(2, false), NewCaches(0, g, None, true), Place(0), NewCaches(0, g, None, true)]
  }

  function LateRecord(g: Geometry, bus: Option<nat>): Record {
    Record(g, true, true, 0, None, [], bus)
  }

  function LateBuilders(lineSize: nat, g: Geometry): seq<Builder> {
    var b0 := Start(1, lineSize);
    var b1 := b0.(levels := [Level(2, false, [], [], None)]);
    var b2 := b1.(links := Links([LateRecord(g, None)], []), levels := [Level(2, false, [0], [], None)]);
    var b3 := b2.(placed := [0]);
    var b4 := b3.(links := Links([LateRecord(g, Some(0)), LateRecord(g, Some(0))], [[0, 1]]),
                  levels := [Level(2, false, [0, 1], [], Some(0))]);
    [b0, b1, b2, b3, b4]
  }

  /** A cache that comes late is not counted: then a level has two data caches for one processor. */
  lemma LateCacheIsNotCounted(lineSize: nat, g: Geometry)
    requires Usable(lineSize, g)
    ensures IsBuild(1, lineSize, LateCommands(g), LateBuilders(lineSize, g))
    ensures !Bounded(LateBuilders(lineSize, g)[4])
  {
    var bs, cs := LateBuilders(lineSize, g), LateCommands(g);
    assert IsStep(bs[0], cs[0], bs[1]);
    EarlyCache(lineSize, g);
    LateCache(lineSize, g);
    hide Build;
    assert PlacedLevels(bs[2]) == [];
    PlacedBetween(lineSize, g);
  }

  lemma EarlyCache(lineSize: nat, g: Geometry)
    requires Usable(lineSize, g)
    ensures IsStep(LateBuilders(lineSize, g)[1], LateCommands(g)[1], LateBuilders(lineSize, g)[2])
  {
    var b, c := LateBuilders(lineSize, g)[1], LateCommands(g)[1];
    assert NewRecords(c) == [LateRecord(g, None)];
    assert Extended(b, c).records == [LateRecord(g, None)];
    assert Build(b, c).levels[0].data == [0];
    assert Build(b, c).levels == [Level(2, false, [0], [], None)];
  }

  lemma PlacedBetween(lineSize: nat, g: Geometry)
    requires Usable(lineSize, g)
    ensures IsStep(LateBuilders(lineSize, g)[2], LateCommands(g)[2], LateBuilders(lineSize, g)[3])
  {
    assert PlacedLevels(LateBuilders(lineSize, g)[2]) == [];
  }

  lemma LateCache(lineSize: nat, g: Geometry)
    requires Usable(lineSize, g)
    ensures IsStep(LateBuilders(lineSize, g)[3], LateCommands(g)[3], LateBuilders(lineSize, g)[4])
  {
    var b, c := LateBuilders(lineSize, g)[3], LateCommands(g)[3];
    assert NewRecords(c) == [LateRecord(g, None)];
    assert Extended(b, c).records == [LateRecord(g, None), LateRecord(g, None)];
    var k1 := AddToBus(Extended(b, c).(buses := [[]]), 0, 0);
    assert k1.records == [LateRecord(g, Some(0)), LateRecord(g, None)];
    assert k1.buses[0] == [0];
    var k2 := AddToBus(k1, 0, 1);
    assert k2.records == [LateRecord(g, Some(0)), LateRecord(g, Some(0))];
    assert k2.buses[0] == [0, 1];
    assert k2.buses == [[0, 1]];
    assert Build(b, c).links == k2;
    assert Build(b, c).levels[0].data == [0, 1];
    assert Build(b, c).levels == [Level(2, false, [0, 1], [], Some(0))];
  }

  lemma StartIsBounded(cpus: nat, lineSize: nat)
    ensures Bounded(Start(cpus, lineSize)) && Start(cpus, lineSize).cpus == cpus
  {
  }

  // ----- buses

  lemma {:induction false} DistinctCounts(m: seq<nat>, x: nat)
    requires Distinct(m)
    ensures multiset(m)[x] == if x in m then 1 else 0
  {
    if m != [] {
      var n := |m| - 1;
      assert m == m[..n] + [m[n]];
      DistinctCounts(m[..n], x);
    }
  }

  lemma SameElements(m: seq<nat>, bus: seq<nat>)
    requires Distinct(m) && Distinct(bus) && |m| == |bus| && forall i :: 0 <= i < |m| ==> m[i] in bus
    ensures multiset(m) == multiset(bus)
  {
    forall x: nat ensures multiset(m)[x] <= multiset(bus)[x] {
      DistinctCounts(m, x);
      DistinctCounts(bus, x);
    }
    assert multiset(m) <= multiset(bus);
    var rest := multiset(bus) - multiset(m);
    assert multiset(bus) == multiset(m) + rest;
    assert |rest| == 0;
  }

  /**
   * The bus of a level with several caches carries each of its data and instruction caches exactly once, and no other.
   */
  lemma BusCarriesTheLevel(b: Builder, j: nat)
    requires BuilderOk(b) && j < |b.levels| && |b.levels[j].data| > 1
    ensures b.levels[j].bus.Some? && b.levels[j].bus.value < |b.links.buses|
    ensures multiset(b.links.buses[b.levels[j].bus.value]) == multiset(Members(b.levels[j]))
  {
    var l, k := b.levels[j], b.links;
    LevelAt(b, j);
    var m, bus := Members(l), k.buses[l.bus.value];
    assert BusOk(k, l.bus.value);
    forall i | 0 <= i < |m| ensures m[i] in bus {
      OwnerOf(k, l, j, m[i]);
      assert RecordOk(k, b.lineSize, b.placed, m[i]);
    }
    SameElements(m, bus);
  }

  // What the caches of a level see on their bus: all of them, or none if there is only one.
  ghost predicate ShareBus(t: Topology, m: seq<nat>, several: bool) {
    forall i :: 0 <= i < |m| ==>
      m[i] < |t.nodes| && multiset(t.nodes[m[i]].peers) == if several then multiset(m) else multiset{}
  }

  lemma LevelSharesBus(b: Builder, v: Variant, j: nat)
    requires BuilderOk(b) && j < |b.levels|
    ensures ShareBus(ToTopology(v, b), Members(b.levels[j]), |b.levels[j].data| > 1)
  {
    var l, k := b.levels[j], b.links;
    var m := Members(l);
    LevelAt(b, j);
    if |l.data| > 1 {
      BusCarriesTheLevel(b, j);
    }
    hide BuilderOk;
    forall i | 0 <= i < |m| ensures m[i] < |k.records| && k.records[m[i]].bus == l.bus {
      OwnerOf(k, l, j, m[i]);
    }
  }

  // ----- who is linked to whom

  // The lower caches of a cache are exactly those linked to it.
  lemma LowerAre(b: Builder, c: nat)
    requires BuilderOk(b) && c < |b.links.records|
    ensures Distinct(b.links.records[c].lower)
    ensures forall x: nat ::
      x in b.links.records[c].lower <==> x < |b.links.records| && b.links.records[x].higher == Some(c)
  {
    var r := b.links.records[c];
    assert RecordOk(b.links, b.lineSize, b.placed, c);
    forall x: nat | x < |b.links.records| && b.links.records[x].higher == Some(c) ensures x in r.lower {
      assert RecordOk(b.links, b.lineSize, b.placed, x);
    }
  }

  lemma SameMultiset(p: seq<nat>, q: seq<nat>)
    requires Distinct(p) && Distinct(q) && forall x :: x in p <==> x in q
    ensures multiset(p) == multiset(q)
  {
    forall x: nat ensures multiset(p)[x] == multiset(q)[x] {
      DistinctCounts(p, x);
      DistinctCounts(q, x);
    }
  }

  lemma LevelAt(b: Builder, j: nat)
    requires BuilderOk(b) && j < |b.levels|
    ensures LevelKnown(b.links, b.levels[j]) && LevelOk(b.links, b.levels[j], j)
  {
  }

  lemma OwnerOf(k: Links, l: Level, j: nat, c: nat)
    requires LevelKnown(k, l) && LevelOk(k, l, j) && c in Members(l)
    ensures c < |k.records| && k.records[c].owner == j
  {
    var i :| 0 <= i < |Members(l)| && Members(l)[i] == c;
    assert c == if i < |l.data| then l.data[i] else l.instruction[i - |l.data|];
  }

  // What goes on to a cache is in the level below.
  lemma FromBelow(b: Builder, p: nat, c: nat, x: nat)
    requires BuilderOk(b) && 0 < p < |b.placed| && b.placed[p] < |b.levels| && b.placed[p - 1] < |b.levels|
    requires c in Members(b.levels[b.placed[p]]) && x < |b.links.records| && b.links.records[x].higher == Some(c)
    ensures x in Members(b.levels[b.placed[p - 1]])
  {
    LevelAt(b, b.placed[p]);
    HigherIsNext(b, x);
    assert IsOwned(b.links, b.levels, x);
    PlacedDistinct(b);
    hide BuilderOk, LevelOk, Members;
    OwnerOf(b.links, b.levels[b.placed[p]], b.placed[p], c);
    PositionIs(b.placed, p);
    var a := b.links.records[x].owner;
    var i :| 0 <= i < |b.placed| - 1 && b.placed[i] == a && b.placed[i + 1] == b.placed[p];
    PositionIs(b.placed, i + 1);
  }

  lemma PlacedDistinct(b: Builder)
    requires BuilderOk(b)
    ensures Distinct(b.placed)
  {
  }

  /** The lower caches of a cache are those of the level below that go on to it, each once. */
  lemma LowerFromBelow(b: Builder, p: nat, c: nat, below: seq<nat>)
    requires BuilderOk(b) && 0 < p < |b.placed| && b.placed[p] < |b.levels| && b.placed[p - 1] < |b.levels|
    requires c in Members(b.levels[b.placed[p]]) && Distinct(below) && c < |b.links.records|
    requires forall x: nat :: x in below <==>
      x in Members(b.levels[b.placed[p - 1]]) && x < |b.links.records| && b.links.records[x].higher == Some(c)
    ensures multiset(b.links.records[c].lower) == multiset(below)
  {
    hide BuilderOk, Members, Distinct;
    LowerAre(b, c);
    forall x: nat | x in b.links.records[c].lower ensures x in below {
      FromBelow(b, p, c, x);
    }
    SameMultiset(b.links.records[c].lower, below);
  }

  // And the lowest level, and one that was not put on, has none.
  lemma NothingBelow(b: Builder, c: nat)
    requires BuilderOk(b) && c < |b.links.records| && Position(b.placed, b.links.records[c].owner) == 0
    ensures b.links.records[c].lower == []
  {
    hide BuilderOk;
    LowerAre(b, c);
    if b.links.records[c].lower != [] {
      var x := b.links.records[c].lower[0];
      assert x in b.links.records[c].lower;
      HigherIsNext(b, x);
    }
  }
}
