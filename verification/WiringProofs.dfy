/**
 * Every hierarchy built with the operations of Wiring.dfy is one that accesses can run on, in whatever order levels
 * are started, filled, put on and added to.
 */
module WiringProofs {
  import opened Options
  import opened CacheSpec
  import opened Wiring
  import opened WiringLinks

  // How many caches of a level were linked when the next one was put on it, and whether to a single cache.
  datatype Joint = Joint(count: nat, single: bool)

  /**
   * All levels that were started, and which of them were put on, lowest first. A level may be added to before and
   * after that.
   */
  datatype Builder = Builder(cpus: nat, lineSize: nat, links: Links, levels: seq<Level>, placed: seq<nat>,
                             joints: seq<Joint>)

  // What a caller does: start a level, set up caches and add them to a level, and put a level on top.
  datatype Command =
    | NewLevel(room: nat, hasInstruction: bool)
    | NewCaches(level: nat, data: Geometry, instruction: Option<Geometry>, reports: bool)
    | Place(level: nat)

  function Start(cpus: nat, lineSize: nat): Builder {
    Builder(cpus, lineSize, Links([], []), [], [], [])
  }

  ghost predicate AllKnown(b: Builder) {
    && (forall j :: 0 <= j < |b.levels| ==> LevelKnown(b.links, b.levels[j]))
    && (forall i :: 0 <= i < |b.placed| ==> b.placed[i] < |b.levels|)
  }

  function PlacedLevels(b: Builder): (r: seq<Level>)
    requires forall i :: 0 <= i < |b.placed| ==> b.placed[i] < |b.levels|
    ensures |r| == |b.placed| && forall i :: 0 <= i < |r| ==> r[i] == b.levels[b.placed[i]]
  {
    seq(|b.placed|, i requires 0 <= i < |b.placed| => b.levels[b.placed[i]])
  }

  function Top(b: Builder): Level
    requires |b.placed| > 0 && forall i :: 0 <= i < |b.placed| ==> b.placed[i] < |b.levels|
  {
    b.levels[b.placed[|b.placed| - 1]]
  }

  // Instruction caches above a level without them would make the linking loop read past its array, and a level put
  // on twice would lie above itself.
  predicate Allowed(b: Builder, c: Command)
    requires forall i :: 0 <= i < |b.placed| ==> b.placed[i] < |b.levels|
  {
    match c
    case NewLevel(_, _) => true
    case NewCaches(j, data, instruction, _) =>
      && j < |b.levels| && Usable(b.lineSize, data)
      && (instruction.Some? ==> Usable(b.lineSize, instruction.value))
    case Place(j) =>
      && j < |b.levels| && j !in b.placed
      && (|b.placed| > 0 && b.levels[j].hasInstruction ==> Top(b).hasInstruction)
  }

  // The names of new caches, and the links with their records.
  function NewId(b: Builder, c: Command): Option<nat>
    requires c.NewCaches?
  {
    if c.instruction.Some? then Some(|b.links.records| + 1) else None
  }

  function Extended(b: Builder, c: Command): Links
    requires c.NewCaches?
  {
    b.links.(records := b.links.records + NewRecords(c))
  }

  function NewRecords(c: Command): seq<Record>
    requires c.NewCaches?
  {
    [Unlinked(c.data, c.reports, c.level)] +
    if c.instruction.Some? then [Unlinked(c.instruction.value, c.reports, c.level)] else []
  }

  function Build(b: Builder, c: Command): (b': Builder)
    requires AllKnown(b) && Allowed(b, c)
  {
    match c
    case NewLevel(room, has) => b.(levels := b.levels + [Level(room, has, [], [], None)])
    case NewCaches(j, _, _, _) =>
      if RefuseCaches(b.levels[j], NewId(b, c)) != 0 then b
      else
        var (links, level) := AddCaches(Extended(b, c), b.levels[j], |b.links.records|, NewId(b, c));
        b.(links := links, levels := b.levels[j := level])
    case Place(j) =>
      if RefuseLevel(b.cpus, PlacedLevels(b), b.levels[j]) != 0 then b
      else if b.placed == [] then b.(placed := [j])
      else
        b.(links := LinkLevels(b.links, Top(b), b.levels[j], |Top(b).data|), placed := b.placed + [j],
           joints := b.joints + [Joint(|Top(b).data|, |b.levels[j].data| == 1)])
  }

  // ----- what building keeps

  // The counterparts of cache i of the level below.
  function Through(l: Level, joint: Joint, i: nat): nat
    requires if joint.single then |l.data| > 0 else i < |l.data|
  {
    l.data[if joint.single then 0 else i]
  }

  function ThroughInstruction(l: Level, joint: Joint, i: nat): nat
    requires if joint.single then |l.data| > 0 else i < |l.data|
    requires |l.instruction| == (if l.hasInstruction then |l.data| else 0)
  {
    var j := if joint.single then 0 else i;
    if l.hasInstruction then l.instruction[j] else l.data[j]
  }

  // Every cache that was there when the next level was put on goes on to its counterpart in it, later ones to none.
  ghost predicate Stacked(k: Links, last: Level, l: Level, joint: Joint)
    requires LevelKnown(k, last) && LevelKnown(k, l)
  {
    && joint.count <= |last.data| && (l.hasInstruction ==> last.hasInstruction)
    && (joint.count > 0 ==> if joint.single then |l.data| > 0 else joint.count <= |l.data|)
    && (forall i :: 0 <= i < |last.data| ==>
          k.records[last.data[i]].higher == if i < joint.count then Some(Through(l, joint, i)) else None)
    && (forall i :: 0 <= i < |last.instruction| ==>
          k.records[last.instruction[i]].higher ==
            if i < joint.count then Some(ThroughInstruction(l, joint, i)) else None)
  }

  ghost predicate LevelsOk(k: Links, levels: seq<Level>) {
    forall j :: 0 <= j < |levels| ==> LevelKnown(k, levels[j]) && LevelOk(k, levels[j], j)
  }

  ghost predicate PlacedOk(placed: seq<nat>, levels: seq<Level>) {
    && |placed| <= MAX_CACHE_LEVELS && Distinct(placed)
    && (forall i :: 0 <= i < |placed| ==> placed[i] < |levels|)
  }

  ghost predicate JointsOk(k: Links, levels: seq<Level>, placed: seq<nat>, joints: seq<Joint>)
    requires LevelsOk(k, levels) && PlacedOk(placed, levels)
  {
    && |joints| == (if placed == [] then 0 else |placed| - 1)
    && forall i :: 0 <= i < |joints| ==> Stacked(k, levels[placed[i]], levels[placed[i + 1]], joints[i])
  }

  // Every cache is one of its level.
  ghost predicate AllOwned(k: Links, levels: seq<Level>) {
    forall c :: 0 <= c < |k.records| ==> IsOwned(k, levels, c)
  }

  ghost predicate IsOwned(k: Links, levels: seq<Level>, c: nat)
    requires c < |k.records|
  {
    k.records[c].owner < |levels| && c in Members(levels[k.records[c].owner])
  }

  ghost predicate BuilderOk(b: Builder) {
    && LinksOk(b.links, b.lineSize, b.placed) && PlacedOk(b.placed, b.levels) && LevelsOk(b.links, b.levels)
    && JointsOk(b.links, b.levels, b.placed, b.joints) && AllOwned(b.links, b.levels)
  }

  lemma OkIsKnown(b: Builder)
    requires BuilderOk(b)
    ensures AllKnown(b)
  {
  }

  // ----- starting a level

  lemma EmptyLevelOk(k: Links, room: nat, has: bool, j: nat)
    ensures var l := Level(room, has, [], [], None); LevelKnown(k, l) && LevelOk(k, l, j)
  {
  }

  lemma NewLevelKeeps(b: Builder, c: Command)
    requires BuilderOk(b) && c.NewLevel?
    ensures AllKnown(b) && Allowed(b, c) && BuilderOk(Build(b, c))
  {
    OkIsKnown(b);
    EmptyLevelOk(b.links, c.room, c.hasInstruction, |b.levels|);
    hide LinksOk, LevelOk, LevelKnown, Stacked;
    var levels' := b.levels + [Level(c.room, c.hasInstruction, [], [], None)];
    forall i | 0 <= i < |b.links.records| ensures IsOwned(b.links, levels', i) {
      assert IsOwned(b.links, b.levels, i);
    }
  }

  // ----- adding caches to a level

  lemma LevelExtended(k: Links, l: Level, j: nat, added: seq<Record>)
    requires LevelKnown(k, l) && LevelOk(k, l, j)
    ensures LevelKnown(k.(records := k.records + added), l) && LevelOk(k.(records := k.records + added), l, j)
  {
    var m := Members(l);
    assert forall i :: 0 <= i < |l.data| ==> m[i] == l.data[i];
    assert forall i :: 0 <= i < |l.instruction| ==> m[|l.data| + i] == l.instruction[i];
  }

  lemma NewcomersArrive(k: Links, l: Level, j: nat, added: seq<Record>, id: Option<nat>)
    requires LevelKnown(k, l)
    requires |added| == (if id.Some? then 2 else 1) && (id.Some? ==> id.value == |k.records| + 1)
    requires forall i :: 0 <= i < |added| ==> added[i].owner == j && added[i].bus.None?
    ensures Newcomers(k.(records := k.records + added), l, j, |k.records|, id)
  {
    var m := Members(l);
    assert forall i :: 0 <= i < |m| ==> m[i] == if i < |l.data| then l.data[i] else l.instruction[i - |l.data|];
  }

  // The caches of other levels are none of those that change when a level grows.
  lemma OtherMembersKept(k: Links, k': Links, lineSize: nat, placed: seq<nat>, l: Level, i: nat, c: Level, c': Level,
                         j: nat, d: nat, id: Option<nat>)
    requires LevelKnown(k, l) && LevelOk(k, l, i) && i != j
    requires LevelKnown(k, c) && LevelOk(k, c, j) && Newcomers(k, c, j, d, id)
    requires Added(k, c, k', c', lineSize, placed, j, d, id)
    ensures forall h :: 0 <= h < |Members(l)| ==> k'.records[Members(l)[h]] == k.records[Members(l)[h]]
  {
    var m, mc := Members(l), Members(c);
    forall h | 0 <= h < |m| ensures k'.records[m[h]] == k.records[m[h]] {
      assert k.records[m[h]].owner == i;
      assert forall g :: 0 <= g < |mc| ==> k.records[mc[g]].owner == j;
      assert m[h] !in mc;
    }
  }

  // Different levels have different buses.
  lemma BusesApart(k: Links, lineSize: nat, placed: seq<nat>, l: Level, i: nat, c: Level, j: nat)
    requires LinksOk(k, lineSize, placed) && LevelKnown(k, l) && LevelOk(k, l, i) && i != j
    requires LevelKnown(k, c) && LevelOk(k, c, j) && l.bus.Some?
    ensures l.bus != c.bus
  {
    if l.bus == c.bus {
      assert |k.buses[c.bus.value]| == |Members(c)| >= 2;
      var x := k.buses[c.bus.value][0];
      BusOfLevel(k, lineSize, placed, c, j);
      BusOfLevel(k, lineSize, placed, l, i);
    }
  }

  lemma OtherLevelKept(k: Links, k': Links, lineSize: nat, placed: seq<nat>, l: Level, i: nat, c: Level, c': Level,
                       j: nat, d: nat, id: Option<nat>)
    requires LevelKnown(k, l) && LevelOk(k, l, i) && i != j && LinksOk(k, lineSize, placed)
    requires LevelKnown(k, c) && LevelOk(k, c, j) && Newcomers(k, c, j, d, id)
    requires Added(k, c, k', c', lineSize, placed, j, d, id)
    ensures LevelKnown(k', l) && LevelOk(k', l, i)
  {
    OtherMembersKept(k, k', lineSize, placed, l, i, c, c', j, d, id);
    if l.bus.Some? {
      BusesApart(k, lineSize, placed, l, i, c, j);
    }
  }

  // l' is l, or l with one more data cache, and one more instruction cache if it has any, without a higher cache.
  ghost predicate Grows(k: Links, l: Level, l': Level) {
    && l.hasInstruction == l'.hasInstruction && LevelKnown(k, l')
    && |l.instruction| == (if l.hasInstruction then |l.data| else 0)
    && |l.data| <= |l'.data| <= |l.data| + 1 && l'.data[..|l.data|] == l.data
    && |l.instruction| <= |l'.instruction| && l'.instruction[..|l.instruction|] == l.instruction
    && (forall i :: |l.data| <= i < |l'.data| ==> k.records[l'.data[i]].higher.None?)
    && (forall i :: |l.instruction| <= i < |l'.instruction| ==> k.records[l'.instruction[i]].higher.None?)
  }

  lemma StackedGrows(k: Links, k': Links, last: Level, l: Level, joint: Joint, last': Level, l': Level)
    requires LevelKnown(k, last) && LevelKnown(k, l) && Stacked(k, last, l, joint)
    requires Grows(k', last, last') && Grows(k', l, l')
    requires forall c :: 0 <= c < |k.records| ==> c < |k'.records| && k'.records[c].higher == k.records[c].higher
    ensures Stacked(k', last', l', joint)
  {
    forall i | 0 <= i < |last'.data|
      ensures k'.records[last'.data[i]].higher == if i < joint.count then Some(Through(l', joint, i)) else None
    {
      if i < |last.data| {
        assert last'.data[i] == last'.data[..|last.data|][i] == last.data[i];
        if i < joint.count {
          assert Through(l', joint, i) == l'.data[..|l.data|][if joint.single then 0 else i];
        }
      }
    }
    forall i | 0 <= i < |last'.instruction|
      ensures k'.records[last'.instruction[i]].higher ==
        if i < joint.count then Some(ThroughInstruction(l', joint, i)) else None
    {
      if i < |last.instruction| {
        assert last'.instruction[i] == last'.instruction[..|last.instruction|][i] == last.instruction[i];
        if i < joint.count {
          var h := if joint.single then 0 else i;
          assert l'.data[h] == l'.data[..|l.data|][h];
          assert l.hasInstruction ==> l'.instruction[h] == l'.instruction[..|l.instruction|][h];
        }
      }
    }
  }

  // The links and the level after adding caches.
  ghost predicate CachesAdded(b: Builder, c: Command, k': Links, l': Level)
    requires c.NewCaches? && c.level < |b.levels|
  {
    Added(Extended(b, c), b.levels[c.level], k', l', b.lineSize, b.placed, c.level, |b.links.records|, NewId(b, c))
  }

  lemma NewRecordsAre(c: Command)
    requires c.NewCaches?
    ensures |NewRecords(c)| == if c.instruction.Some? then 2 else 1
    ensures forall i :: 0 <= i < |NewRecords(c)| ==>
      var r := NewRecords(c)[i];
      r == Unlinked(r.geometry, c.reports, c.level) && (r.geometry == c.data || Some(r.geometry) == c.instruction)
  {
  }

  // All levels with the new records in place, before the level grows.
  lemma ExtendedOk(b: Builder, c: Command)
    requires BuilderOk(b) && c.NewCaches? && Allowed(b, c)
    ensures LinksOk(Extended(b, c), b.lineSize, b.placed) && LevelsOk(Extended(b, c), b.levels)
    ensures Newcomers(Extended(b, c), b.levels[c.level], c.level, |b.links.records|, NewId(b, c))
  {
    NewRecordsAre(c);
    hide RecordOk, BusOk, LevelOk, Stacked, NewRecords, AllOwned;
    NewRecordsKeep(b.links, b.lineSize, b.placed, NewRecords(c));
    forall j | 0 <= j < |b.levels|
      ensures LevelKnown(Extended(b, c), b.levels[j]) && LevelOk(Extended(b, c), b.levels[j], j)
    {
      LevelExtended(b.links, b.levels[j], j, NewRecords(c));
    }
    NewcomersArrive(b.links, b.levels[c.level], c.level, NewRecords(c), NewId(b, c));
  }

  lemma CachesAreAdded(b: Builder, c: Command)
    requires BuilderOk(b) && c.NewCaches? && AllKnown(b) && Allowed(b, c)
    requires RefuseCaches(b.levels[c.level], NewId(b, c)) == 0
    ensures LevelsOk(Extended(b, c), b.levels) && LinksOk(Extended(b, c), b.lineSize, b.placed)
    ensures Newcomers(Extended(b, c), b.levels[c.level], c.level, |b.links.records|, NewId(b, c))
    ensures CachesAdded(b, c, Build(b, c).links, Build(b, c).levels[c.level])
    ensures Build(b, c) == b.(links := Build(b, c).links, levels := b.levels[c.level := Build(b, c).levels[c.level]])
  {
    ExtendedOk(b, c);
    hide BuilderOk, Added, Newcomers, LevelOk, LinksOk, AddCaches, Extended;
    AddCachesKeeps(Extended(b, c), b.lineSize, b.placed, b.levels[c.level], c.level, |b.links.records|, NewId(b, c));
  }

  lemma GrownLevelsOk(b: Builder, c: Command)
    requires BuilderOk(b) && c.NewCaches? && AllKnown(b) && Allowed(b, c)
    requires RefuseCaches(b.levels[c.level], NewId(b, c)) == 0
    ensures LevelsOk(Build(b, c).links, Build(b, c).levels) && LinksOk(Build(b, c).links, b.lineSize, b.placed)
  {
    CachesAreAdded(b, c);
    hide BuilderOk, Build, Newcomers, LevelOk, LinksOk, Extended, Added;
    var k, k', j, id := Extended(b, c), Build(b, c).links, c.level, NewId(b, c);
    AddedMeans(b, c, k', Build(b, c).levels[j]);
    forall i | 0 <= i < |b.levels| && i != j
      ensures LevelKnown(k', b.levels[i]) && LevelOk(k', b.levels[i], i)
    {
      OtherLevelKept(k, k', b.lineSize, b.placed, b.levels[i], i, b.levels[j], Build(b, c).levels[j], j,
                     |b.links.records|, id);
    }
  }

  lemma AddedMeans(b: Builder, c: Command, k': Links, l': Level)
    requires c.NewCaches? && c.level < |b.levels| && CachesAdded(b, c, k', l')
    ensures LinksOk(k', b.lineSize, b.placed) && LevelKnown(k', l') && LevelOk(k', l', c.level)
    ensures OnlyBusesChanged(Extended(b, c), k')
  {
  }

  // The level that grows has its old caches first, and its new ones go on to none.
  lemma LevelGrows(b: Builder, c: Command)
    requires BuilderOk(b) && c.NewCaches? && AllKnown(b) && Allowed(b, c)
    requires RefuseCaches(b.levels[c.level], NewId(b, c)) == 0
    ensures Grows(Build(b, c).links, b.levels[c.level], Build(b, c).levels[c.level])
  {
    CachesAreAdded(b, c);
    AddedMeans(b, c, Build(b, c).links, Build(b, c).levels[c.level]);
    NewRecordsAre(c);
    hide BuilderOk, LevelOk, LinksOk, Newcomers, Added, NewRecords;
    var n, id, l, k' := |b.links.records|, NewId(b, c), b.levels[c.level], Build(b, c).links;
    var l' := Build(b, c).levels[c.level];
    assert l'.data == l.data + [n];
    assert l'.instruction == if l.hasInstruction then l.instruction + [id.value] else [];
    assert k'.records[n] == Extended(b, c).records[n].(bus := k'.records[n].bus);
    assert Extended(b, c).records[n] == NewRecords(c)[0];
    if id.Some? {
      assert k'.records[n + 1] == Extended(b, c).records[n + 1].(bus := k'.records[n + 1].bus);
      assert Extended(b, c).records[n + 1] == NewRecords(c)[1];
    }
  }

  lemma SameGrows(k: Links, l: Level)
    requires LevelKnown(k, l)
    ensures Grows(k, l, l)
  {
  }

  lemma GrownJointsOk(b: Builder, c: Command)
    requires BuilderOk(b) && c.NewCaches? && AllKnown(b) && Allowed(b, c)
    requires RefuseCaches(b.levels[c.level], NewId(b, c)) == 0
    ensures LevelsOk(Build(b, c).links, Build(b, c).levels) && PlacedOk(b.placed, Build(b, c).levels)
    ensures JointsOk(Build(b, c).links, Build(b, c).levels, b.placed, b.joints)
  {
    GrownLevelsOk(b, c);
    LevelGrows(b, c);
    CachesAreAdded(b, c);
    AddedMeans(b, c, Build(b, c).links, Build(b, c).levels[c.level]);
    hide Build, CachesAdded, LevelOk, LinksOk, Newcomers, Grows, Stacked, AllOwned, LevelKnown;
    var k', levels' := Build(b, c).links, Build(b, c).levels;
    forall i | 0 <= i < |b.links.records|
      ensures i < |k'.records| && k'.records[i].higher == b.links.records[i].higher
    {
      assert Extended(b, c).records[i] == b.links.records[i];
    }
    forall i | 0 <= i < |b.joints|
      ensures Stacked(k', levels'[b.placed[i]], levels'[b.placed[i + 1]], b.joints[i])
    {
      var p, q := b.placed[i], b.placed[i + 1];
      if p != c.level {
        SameGrows(k', b.levels[p]);
      }
      if q != c.level {
        SameGrows(k', b.levels[q]);
      }
      StackedGrows(b.links, k', b.levels[p], b.levels[q], b.joints[i], levels'[p], levels'[q]);
    }
  }

  lemma LevelIs(b: Builder, c: Command)
    requires c.NewCaches? && AllKnown(b) && Allowed(b, c) && RefuseCaches(b.levels[c.level], NewId(b, c)) == 0
    ensures var l, l' := b.levels[c.level], Build(b, c).levels[c.level];
      && |Build(b, c).levels| == |b.levels| && l'.data == l.data + [|b.links.records|]
      && l'.instruction == (if l.hasInstruction then l.instruction + [NewId(b, c).value] else [])
      && |l.instruction| == (if l.hasInstruction then |l.data| else 0) && (NewId(b, c).Some? <==> l.hasInstruction)
    ensures forall j :: 0 <= j < |b.levels| && j != c.level ==> Build(b, c).levels[j] == b.levels[j]
  {
    hide AddPairToBus;
  }

  lemma GrownMembers(l: Level, l': Level, d: nat, id: Option<nat>)
    requires |l.instruction| == (if l.hasInstruction then |l.data| else 0) && (id.Some? <==> l.hasInstruction)
    requires l'.data == l.data + [d] && l'.instruction == if l.hasInstruction then l.instruction + [id.value] else []
    ensures forall c :: c in Members(l) ==> c in Members(l')
    ensures d in Members(l') && (id.Some? ==> id.value in Members(l'))
  {
    assert Members(l') == (l.data + [d]) + if l.hasInstruction then l.instruction + [id.value] else [];
    assert !l.hasInstruction ==> l.instruction == [];
  }

  lemma GrownAllOwned(b: Builder, c: Command)
    requires BuilderOk(b) && c.NewCaches? && AllKnown(b) && Allowed(b, c)
    requires RefuseCaches(b.levels[c.level], NewId(b, c)) == 0
    ensures AllOwned(Build(b, c).links, Build(b, c).levels)
  {
    CachesAreAdded(b, c);
    AddedMeans(b, c, Build(b, c).links, Build(b, c).levels[c.level]);
    NewRecordsAre(c);
    LevelIs(b, c);
    hide LevelsOk, LinksOk, Newcomers, CachesAdded, NewRecords, JointsOk, Build, Members;
    var k', levels', n := Build(b, c).links, Build(b, c).levels, |b.links.records|;
    GrownMembers(b.levels[c.level], levels'[c.level], n, NewId(b, c));
    forall i | 0 <= i < |k'.records| ensures IsOwned(k', levels', i) {
      assert k'.records[i].owner == Extended(b, c).records[i].owner;
      if i < n {
        assert IsOwned(b.links, b.levels, i);
      } else {
        assert Extended(b, c).records[i] == NewRecords(c)[i - n];
        assert i == n || i == n + 1;
      }
    }
  }

  lemma NewCachesKeeps(b: Builder, c: Command)
    requires BuilderOk(b) && c.NewCaches? && AllKnown(b) && Allowed(b, c)
    ensures BuilderOk(Build(b, c))
  {
    hide LevelsOk, LinksOk, JointsOk, AllOwned;
    if RefuseCaches(b.levels[c.level], NewId(b, c)) == 0 {
      GrownLevelsOk(b, c);
      GrownJointsOk(b, c);
      GrownAllOwned(b, c);
      CachesAreAdded(b, c);
    }
  }

  // ----- putting a level on top

  lemma RoomOnTop(k: Links, lineSize: nat, placed: seq<nat>, j: nat)
    requires LinksOk(k, lineSize, placed)
    ensures LinksOk(k, lineSize, placed + [j])
  {
    forall c | 0 <= c < |k.records| ensures RecordOk(k, lineSize, placed + [j], c) {
      assert RecordOk(k, lineSize, placed, c);
      if k.records[c].higher.Some? {
        StillNext(placed, j, k.records[c].owner, k.records[k.records[c].higher.value].owner);
      }
    }
  }

  lemma StillNext(placed: seq<nat>, j: nat, a: nat, b: nat)
    requires IsNext(placed, a, b)
    ensures IsNext(placed + [j], a, b)
  {
    var i :| 0 <= i < |placed| - 1 && placed[i] == a && placed[i + 1] == b;
    assert (placed + [j])[i] == a && (placed + [j])[i + 1] == b;
  }

  lemma NextIsNew(placed: seq<nat>, j: nat)
    requires |placed| > 0 && j !in placed
    ensures IsNext(placed + [j], placed[|placed| - 1], j)
  {
    var i := |placed| - 1;
    assert (placed + [j])[i] == placed[i] && (placed + [j])[i + 1] == j;
  }

  // Nothing comes after the last one, nor after one that was not put on.
  lemma LastHasNoNext(placed: seq<nat>, a: nat, b: nat)
    requires Distinct(placed) && (a !in placed || (|placed| > 0 && a == placed[|placed| - 1]))
    ensures !IsNext(placed, a, b)
  {
  }

  // Before linking, no cache of the top level, nor of one that was not put on, has a higher one.
  lemma TopIsUnlinked(k: Links, lineSize: nat, placed: seq<nat>, l: Level, j: nat)
    requires LinksOk(k, lineSize, placed) && Distinct(placed) && LevelKnown(k, l) && LevelOk(k, l, j)
    requires j !in placed || (|placed| > 0 && j == placed[|placed| - 1])
    ensures forall i :: 0 <= i < |l.data| ==> k.records[l.data[i]].higher.None?
    ensures forall i :: 0 <= i < |l.instruction| ==> k.records[l.instruction[i]].higher.None?
  {
    LevelOfMembers(k, l, j);
    hide LevelOk, IsNext, Distinct;
    forall b: nat ensures !IsNext(placed, j, b) {
      LastHasNoNext(placed, j, b);
    }
    forall c | 0 <= c < |k.records| && k.records[c].owner == j ensures k.records[c].higher.None? {
      assert RecordOk(k, lineSize, placed, c);
    }
  }

  lemma LinkStart(k: Links, lineSize: nat, placed: seq<nat>, last: Level, low: nat, l: Level, high: nat)
    requires LinksOk(k, lineSize, placed) && Distinct(placed) && |placed| > 0 && low == placed[|placed| - 1]
    requires LevelKnown(k, last) && LevelOk(k, last, low) && LevelKnown(k, l) && LevelOk(k, l, high) && Fits(last, l)
    ensures Ready(k, last, l, low, high) && LinkedUpTo(k, k, lineSize, placed + [high], low, high, last, l, 0)
  {
    RoomOnTop(k, lineSize, placed, high);
    TopIsUnlinked(k, lineSize, placed, last, low);
    LevelOfMembers(k, last, low);
    LevelOfMembers(k, l, high);
  }

  lemma LevelKept(k: Links, k': Links, l: Level, j: nat)
    requires OnlyLinksChanged(k, k') && LevelKnown(k, l) && LevelOk(k, l, j)
    ensures LevelKnown(k', l) && LevelOk(k', l, j)
  {
  }

  // The levels below the top keep their links when the top is linked.
  lemma LowerStackedKept(k: Links, k': Links, last: Level, low: nat, l: Level, joint: Joint, top: nat)
    requires LevelKnown(k, last) && LevelOk(k, last, low) && LevelKnown(k, l) && Stacked(k, last, l, joint)
    requires LevelKnown(k', last) && LevelKnown(k', l) && OnlyLevelLinked(k, k', top) && low != top
    ensures Stacked(k', last, l, joint)
  {
    LevelOfMembers(k, last, low);
  }

  lemma LinkedIsStacked(k: Links, k': Links, lineSize: nat, placed: seq<nat>, low: nat, high: nat, last: Level,
                        l: Level)
    requires LinkedUpTo(k, k', lineSize, placed, low, high, last, l, |last.data|)
    ensures LevelKnown(k', last) && LevelKnown(k', l)
    ensures Stacked(k', last, l, Joint(|last.data|, |l.data| == 1))
    ensures OnlyLinksChanged(k, k') && OnlyLevelLinked(k, k', low) && LinksOk(k', lineSize, placed)
  {
  }

  // What putting a level on comes to when there is one below it.
  lemma PlaceIs(b: Builder, j: nat)
    requires BuilderOk(b) && AllKnown(b) && Allowed(b, Place(j)) && |b.placed| > 0
    requires RefuseLevel(b.cpus, PlacedLevels(b), b.levels[j]) == 0
    ensures Fits(Top(b), b.levels[j]) && LevelKnown(b.links, Top(b)) && LevelKnown(b.links, b.levels[j])
    ensures LevelOk(b.links, Top(b), b.placed[|b.placed| - 1]) && LevelOk(b.links, b.levels[j], j)
    ensures Build(b, Place(j)) ==
      b.(links := LinkLevels(b.links, Top(b), b.levels[j], |Top(b).data|), placed := b.placed + [j],
         joints := b.joints + [Joint(|Top(b).data|, |b.levels[j].data| == 1)])
    ensures |b.placed| < MAX_CACHE_LEVELS && j !in b.placed && j < |b.levels|
  {
    hide LinkLevels, LinksOk, LevelOk, JointsOk, AllOwned;
  }

  lemma PlacedLinks(b: Builder, j: nat)
    requires BuilderOk(b) && AllKnown(b) && Allowed(b, Place(j)) && |b.placed| > 0
    requires RefuseLevel(b.cpus, PlacedLevels(b), b.levels[j]) == 0
    ensures var k', placed' := Build(b, Place(j)).links, b.placed + [j];
      var low := b.placed[|b.placed| - 1];
      LinkedUpTo(b.links, k', b.lineSize, placed', low, j, Top(b), b.levels[j], |Top(b).data|)
  {
    PlaceIs(b, j);
    hide Build, LinkLevels, LevelOk, LevelKnown, LinkedUpTo, JointsOk, AllOwned, LevelsOk, LinksOk, Ready, IsNext;
    var low, k, placed' := b.placed[|b.placed| - 1], b.links, b.placed + [j];
    NextIsNew(b.placed, j);
    LinkStart(k, b.lineSize, b.placed, Top(b), low, b.levels[j], j);
    LinkLevelsKeeps(k, b.lineSize, placed', low, j, Top(b), b.levels[j], |Top(b).data|);
  }

  lemma PlacedLevelsOk(b: Builder, k': Links)
    requires BuilderOk(b) && OnlyLinksChanged(b.links, k')
    ensures LevelsOk(k', b.levels) && AllOwned(k', b.levels)
  {
    hide LinksOk, JointsOk, LevelOk, LevelKnown;
    forall j | 0 <= j < |b.levels| ensures LevelKnown(k', b.levels[j]) && LevelOk(k', b.levels[j], j) {
      LevelKept(b.links, k', b.levels[j], j);
    }
    forall c | 0 <= c < |k'.records| ensures IsOwned(k', b.levels, c) {
      assert IsOwned(b.links, b.levels, c);
    }
  }

  lemma PlacedStays(placed: seq<nat>, levels: seq<Level>, j: nat)
    requires PlacedOk(placed, levels) && |placed| < MAX_CACHE_LEVELS && j !in placed && j < |levels|
    ensures PlacedOk(placed + [j], levels)
  {
  }

  lemma PlacedJointsOk(b: Builder, k': Links, j: nat)
    requires BuilderOk(b) && |b.placed| > 0 && LevelsOk(k', b.levels) && PlacedOk(b.placed + [j], b.levels)
    requires j < |b.levels|
    requires OnlyLevelLinked(b.links, k', b.placed[|b.placed| - 1])
    requires Stacked(k', Top(b), b.levels[j], Joint(|Top(b).data|, |b.levels[j].data| == 1))
    ensures JointsOk(k', b.levels, b.placed + [j], b.joints + [Joint(|Top(b).data|, |b.levels[j].data| == 1)])
  {
    hide LinksOk, LevelOk, LevelKnown, Stacked, OnlyLevelLinked, AllOwned;
    var placed', joints' := b.placed + [j], b.joints + [Joint(|Top(b).data|, |b.levels[j].data| == 1)];
    forall i | 0 <= i < |joints'|
      ensures Stacked(k', b.levels[placed'[i]], b.levels[placed'[i + 1]], joints'[i])
    {
      if i < |b.joints| {
        LowerStackedKept(b.links, k', b.levels[b.placed[i]], b.placed[i], b.levels[b.placed[i + 1]], b.joints[i],
                         b.placed[|b.placed| - 1]);
      }
    }
  }

  lemma PlaceFirst(b: Builder, j: nat)
    requires BuilderOk(b) && AllKnown(b) && Allowed(b, Place(j)) && b.placed == []
    ensures BuilderOk(Build(b, Place(j)))
  {
    hide RecordOk, BusOk, LevelOk, LevelKnown, AllOwned, IsNext;
    RoomOnTop(b.links, b.lineSize, b.placed, j);
    assert b.placed + [j] == [j];
  }

  lemma PlaceNext(b: Builder, j: nat)
    requires BuilderOk(b) && AllKnown(b) && Allowed(b, Place(j)) && |b.placed| > 0
    requires RefuseLevel(b.cpus, PlacedLevels(b), b.levels[j]) == 0
    ensures BuilderOk(Build(b, Place(j)))
  {
    PlaceIs(b, j);
    PlacedLinks(b, j);
    hide Build, LinksOk, LevelOk, LevelKnown, LevelsOk, JointsOk, AllOwned, LinkedUpTo, OnlyLinksChanged;
    hide OnlyLevelLinked, Stacked, PlacedOk;
    var k' := Build(b, Place(j)).links;
    LinkedIsStacked(b.links, k', b.lineSize, b.placed + [j], b.placed[|b.placed| - 1], j, Top(b), b.levels[j]);
    PlacedLevelsOk(b, k');
    PlacedStays(b.placed, b.levels, j);
    PlacedJointsOk(b, k', j);
  }

  /** Building keeps the links in order. */
  lemma StepKeeps(b: Builder, c: Command)
    requires BuilderOk(b) && AllKnown(b) && Allowed(b, c)
    ensures BuilderOk(Build(b, c)) && AllKnown(Build(b, c))
  {
    hide BuilderOk, AllKnown, Allowed, Build;
    match c {
      case NewLevel(_, _) => NewLevelKeeps(b, c);
      case NewCaches(_, _, _, _) => NewCachesKeeps(b, c);
      case Place(j) => PlaceKeeps(b, j);
    }
    OkIsKnown(Build(b, c));
  }

  lemma PlaceKeeps(b: Builder, j: nat)
    requires BuilderOk(b) && AllKnown(b) && Allowed(b, Place(j))
    ensures BuilderOk(Build(b, Place(j)))
  {
    if RefuseLevel(b.cpus, PlacedLevels(b), b.levels[j]) == 0 {
      hide BuilderOk, Build, Allowed;
      if b.placed == [] {
        PlaceFirst(b, j);
      } else {
        PlaceNext(b, j);
      }
    }
  }

  // The builders a caller goes through, starting from nothing.
  ghost predicate IsBuild(cpus: nat, lineSize: nat, commands: seq<Command>, builders: seq<Builder>) {
    && |builders| == |commands| + 1
    && builders[0] == Start(cpus, lineSize)
    && (forall i :: 0 <= i < |commands| ==> IsStep(builders[i], commands[i], builders[i + 1]))
  }

  ghost predicate IsStep(b: Builder, c: Command, b': Builder) {
    AllKnown(b) && Allowed(b, c) && b' == Build(b, c)
  }

  lemma StartIsOk(cpus: nat, lineSize: nat)
    ensures BuilderOk(Start(cpus, lineSize)) && AllKnown(Start(cpus, lineSize))
  {
  }

  lemma {:induction false} BuildsAreOk(cpus: nat, lineSize: nat, commands: seq<Command>, builders: seq<Builder>)
    requires IsBuild(cpus, lineSize, commands, builders)
    ensures BuilderOk(builders[|commands|])
  {
    hide BuilderOk, AllKnown, Allowed, Build;
    var n := |commands|;
    if n == 0 {
      StartIsOk(cpus, lineSize);
    } else {
      BuildsAreOk(cpus, lineSize, commands[..n - 1], builders[..n]);
      assert IsStep(builders[n - 1], commands[n - 1], builders[n]);
      StepKeeps(builders[n - 1], commands[n - 1]);
    }
  }
}
