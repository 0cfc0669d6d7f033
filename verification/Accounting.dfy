/** What the reported misses count, over single accesses and over whole runs. */
module Accounting {
  import opened Msi
  import opened CacheSpec
  import opened Coherence
  import opened Hierarchy

  // Where an access ends: at the first cache upwards that has the tag, or missing at a last-level cache.
  datatype Ending = HitAt(cache: nat) | MissAt(cache: nat)

  function EndOf(t: Topology, s: System, c: nat, a: Access): (e: Ending)
    requires Valid(t) && Shaped(t, s) && c < |t.nodes|
    ensures e.cache < |t.nodes| && t.nodes[e.cache].level >= t.nodes[c].level
    ensures e.HitAt? <==> Find(t.nodes[e.cache].geometry, s[e.cache], LineOf(t, a)) != -1
    ensures e.MissAt? ==> t.nodes[e.cache].higher.None?
    decreases MAX_CACHE_LEVELS - t.nodes[c].level
  {
    assert Linked(t, c);
    if Find(t.nodes[c].geometry, s[c], LineOf(t, a)) != -1 then HitAt(c)
    else if t.nodes[c].higher.None? then MissAt(c)
    else EndOf(t, s, t.nodes[c].higher.value, a)
  }

  // Whether a miss at last-level cache c throws out a modified line.
  predicate EvictsModified(t: Topology, s: System, c: nat, a: Access)
    requires Valid(t) && Shaped(t, s) && c < |t.nodes|
  {
    t.nodes[c].coherent && s[c][Victim(t.variant, t.nodes[c].geometry, s[c], LineOf(t, a))].state == Modified
  }

  function ReportsDue(t: Topology, s: System, c: nat, a: Access): seq<Access>
    requires Valid(t) && Shaped(t, s) && c < |t.nodes|
  {
    var e := EndOf(t, s, c, a);
    if e.HitAt? || !t.nodes[e.cache].reports then []
    else if EvictsModified(t, s, e.cache, a) then [a, a]
    else [a]
  }

  // A miss at a cache below the last level reports what the access above it does.
  lemma DueAbove(t: Topology, s: System, c: nat, a: Access)
    requires Valid(t) && Shaped(t, s) && c < |t.nodes| && Linked(t, c)
    requires Find(t.nodes[c].geometry, s[c], LineOf(t, a)) == -1 && t.nodes[c].higher.Some?
    ensures AccessCache(t, s, c, a).reports == AccessCache(t, s, t.nodes[c].higher.value, a).reports
    ensures ReportsDue(t, s, c, a) == ReportsDue(t, s, t.nodes[c].higher.value, a)
  {
    hide Find, Victim, EvictsModified, AfterMiss, InformLower, Base, FlushNeeded;
    EndAbove(t, s, c, a);
    hide EndOf;
  }

  lemma EndAbove(t: Topology, s: System, c: nat, a: Access)
    requires Valid(t) && Shaped(t, s) && c < |t.nodes| && Linked(t, c)
    requires Find(t.nodes[c].geometry, s[c], LineOf(t, a)) == -1 && t.nodes[c].higher.Some?
    ensures EndOf(t, s, c, a) == EndOf(t, s, t.nodes[c].higher.value, a)
  {
    hide Find;
  }

  // A miss at a last-level cache.
  lemma DueHere(t: Topology, s: System, c: nat, a: Access)
    requires Valid(t) && Shaped(t, s) && c < |t.nodes|
    requires Find(t.nodes[c].geometry, s[c], LineOf(t, a)) == -1 && t.nodes[c].higher.None?
    ensures AccessCache(t, s, c, a).reports == ReportsDue(t, s, c, a)
  {
    hide Find, Victim, AfterMiss, InformLower;
    InformFrame(t, s, c, LineOf(t, a), c);
  }

  lemma DueOnHit(t: Topology, s: System, c: nat, a: Access)
    requires Valid(t) && Shaped(t, s) && c < |t.nodes|
    requires Find(t.nodes[c].geometry, s[c], LineOf(t, a)) != -1
    ensures AccessCache(t, s, c, a).reports == ReportsDue(t, s, c, a)
  {
    hide Find, Victim, AfterMiss, InformLower, Settle;
  }

  /**
   * An access that finds its tag somewhere reports nothing; one that does not reports a miss, and a
   * write-back after it exactly when the last-level cache gives up a modified line.
   */
  lemma {:induction false} ReportsAreDue(t: Topology, s: System, c: nat, a: Access)
    requires Valid(t) && Shaped(t, s) && c < |t.nodes|
    ensures AccessCache(t, s, c, a).reports == ReportsDue(t, s, c, a)
    decreases MAX_CACHE_LEVELS - t.nodes[c].level
  {
    hide AccessCache, ReportsDue, Find;
    if Find(t.nodes[c].geometry, s[c], LineOf(t, a)) != -1 {
      DueOnHit(t, s, c, a);
    } else if t.nodes[c].higher.None? {
      DueHere(t, s, c, a);
    } else {
      assert Linked(t, c);
      ReportsAreDue(t, s, t.nodes[c].higher.value, a);
      DueAbove(t, s, c, a);
    }
  }

  // ----- counting over runs

  datatype Tally = Tally(hits: nat, misses: nat, writeBacks: nat)

  function TallyStep(h: Hierarchy, s: System, m: MemoryAccess): Tally
    requires ValidHierarchy(h) && Shaped(h.topology, s)
  {
    if Refused(h, m) || |h.data| == 0 then Tally(0, 0, 0)
    else
      var e := EndOf(h.topology, s, Entry(h, m), Request(m));
      if e.HitAt? then Tally(1, 0, 0)
      else Tally(0, 1, if EvictsModified(h.topology, s, e.cache, Request(m)) then 1 else 0)
  }

  function TallyRun(h: Hierarchy, s: System, trace: seq<MemoryAccess>): Tally
    requires ValidHierarchy(h) && Shaped(h.topology, s)
  {
    if trace == [] then Tally(0, 0, 0)
    else
      var init, m := trace[..|trace| - 1], trace[|trace| - 1];
      var before, last := TallyRun(h, s, init), TallyStep(h, Run(h, s, init).system, m);
      Tally(before.hits + last.hits, before.misses + last.misses, before.writeBacks + last.writeBacks)
  }

  // The accesses that reach a cache at all.
  function AmountAccepted(h: Hierarchy, trace: seq<MemoryAccess>): nat {
    if trace == [] then 0
    else
      var init, m := trace[..|trace| - 1], trace[|trace| - 1];
      AmountAccepted(h, init) + if Refused(h, m) || |h.data| == 0 then 0 else 1
  }

  ghost predicate LastLevelsReport(t: Topology) {
    forall c :: 0 <= c < |t.nodes| && t.nodes[c].higher.None? ==> t.nodes[c].reports
  }

  /** Every accepted access is a hit or a last-level miss, and the reports are those misses and the write-backs. */
  lemma {:induction false} RunAddsUp(h: Hierarchy, s: System, trace: seq<MemoryAccess>)
    requires ValidHierarchy(h) && Shaped(h.topology, s) && LastLevelsReport(h.topology)
    ensures var n := TallyRun(h, s, trace);
      AmountAccepted(h, trace) == n.hits + n.misses && |Run(h, s, trace).reports| == n.misses + n.writeBacks
  {
    if trace != [] {
      var init, m := trace[..|trace| - 1], trace[|trace| - 1];
      RunAddsUp(h, s, init);
      if !Refused(h, m) && |h.data| != 0 {
        ReportsAreDue(h.topology, Run(h, s, init).system, Entry(h, m), Request(m));
      }
    }
  }

  // ----- write-backs never outnumber writes

  function CountModified(lines: Lines): nat {
    if lines == [] then 0
    else CountModified(lines[..|lines| - 1]) + if lines[|lines| - 1].state == Modified then 1 else 0
  }

  lemma {:induction false} CountModifiedUpdate(lines: Lines, i: nat, x: CacheLine)
    requires i < |lines|
    ensures CountModified(lines[i := x]) + (if lines[i].state == Modified then 1 else 0) ==
            CountModified(lines) + (if x.state == Modified then 1 else 0)
  {
    var n := |lines| - 1;
    if i == n {
      assert lines[i := x][..n] == lines[..n];
    } else {
      assert lines[i := x][..n] == lines[..n][i := x];
      CountModifiedUpdate(lines[..n], i, x);
    }
  }

  // Last-level cache l is asked by an access that enters at c.
  predicate Reaches(t: Topology, s: System, c: nat, l: nat, a: Access)
    requires Valid(t) && Shaped(t, s) && c < |t.nodes|
  {
    EndOf(t, s, c, a).cache == l
  }

  // A cache that has no bus and no higher level.
  ghost predicate LastAndAlone(t: Topology, l: nat)
    requires Valid(t)
  {
    l < |t.nodes| && t.nodes[l].higher.None? && t.nodes[l].peers == [] && t.nodes[l].coherent
  }

  lemma {:induction false} InformCounts(t: Topology, s: System, lower: seq<nat>, line: nat, l: nat)
    requires Valid(t) && Shaped(t, s) && Known(t, lower) && l < |s|
    ensures CountModified(InformLower(t, s, lower, line)[l]) <= CountModified(s[l])
    decreases |lower|
  {
    if lower != [] {
      var c := lower[0];
      var i := Find(t.nodes[c].geometry, s[c], line);
      if i == -1 {
        InformCounts(t, s, lower[1..], line, l);
      } else {
        CountModifiedUpdate(s[c], i, s[c][i].(state := Invalid));
        InformCounts(t, Update(s, c, i, s[c][i].(state := Invalid)), lower[1..], line, l);
      }
    }
  }

  // A miss elsewhere can only take modified lines away from l.
  lemma MissElsewhereCounts(t: Topology, up: System, c: nat, l: nat, a: Access)
    requires Valid(t) && Shaped(t, up) && LastAndAlone(t, l) && c < |t.nodes| && c != l && Known(t, t.nodes[c].lower)
    ensures CountModified(AfterMiss(t, up, c, a)[l]) <= CountModified(up[l])
  {
    InformCounts(t, up, t.nodes[c].lower, LineOf(t, a), l);
    NotOnItsBus(t, c, l);
  }

  lemma NotOnItsBus(t: Topology, c: nat, l: nat)
    requires Valid(t) && LastAndAlone(t, l) && c < |t.nodes|
    ensures l !in t.nodes[c].peers && Known(t, t.nodes[c].peers)
  {
    assert Linked(t, c);
  }

  function One(b: bool): nat {
    if b then 1 else 0
  }

  // At l itself: a modified line comes only from a write, and goes only with a write-back.
  lemma OwnMissCounts(t: Topology, s: System, l: nat, a: Access)
    requires Valid(t) && Shaped(t, s) && LastAndAlone(t, l) && Known(t, t.nodes[l].lower)
    ensures CountModified(AfterMiss(t, s, l, a)[l]) + One(EvictsModified(t, s, l, a)) ==
      CountModified(s[l]) + One(a.write)
  {
    var g, line := t.nodes[l].geometry, LineOf(t, a);
    var i := Victim(t.variant, g, s[l], line);
    InformFrame(t, s, l, line, l);
    var s1 := InformLower(t, s, t.nodes[l].lower, line);
    var x := Refilled(t, s1[l][i], Tag(g, line), a);
    var y := x.(state := NewState(Invalid, if a.write then Write else Read).0);
    CountModifiedUpdate(s1[l], i, x);
    CountModifiedUpdate(s1[l][i := x], i, y);
    assert AfterMiss(t, s, l, a)[l] == s1[l][i := x][i := y];
  }

  lemma OwnHitCounts(t: Topology, s: System, l: nat, a: Access)
    requires Valid(t) && Shaped(t, s) && LastAndAlone(t, l) && Find(t.nodes[l].geometry, s[l], LineOf(t, a)) != -1
    ensures CountModified(AccessCache(t, s, l, a).system[l]) <= CountModified(s[l]) + One(a.write)
  {
    var i := Find(t.nodes[l].geometry, s[l], LineOf(t, a));
    var x := s[l][i].(lastUsed := a.timestamp);
    var y := x.(state := NewState(x.state, if a.write then Write else Read).0);
    CountModifiedUpdate(s[l], i, x);
    CountModifiedUpdate(s[l][i := x], i, y);
    assert AccessCache(t, s, l, a).system[l] == s[l][i := x][i := y];
  }

  lemma HitElsewhereCounts(t: Topology, s: System, c: nat, l: nat, a: Access)
    requires Valid(t) && Shaped(t, s) && LastAndAlone(t, l) && c < |t.nodes| && c != l
    requires Find(t.nodes[c].geometry, s[c], LineOf(t, a)) != -1
    ensures AccessCache(t, s, c, a).system[l] == s[l]
  {
    NotOnItsBus(t, c, l);
  }

  lemma {:induction false} AccessCounts(t: Topology, s: System, c: nat, l: nat, a: Access)
    requires Valid(t) && Shaped(t, s) && LastAndAlone(t, l) && c < |t.nodes|
    ensures
      CountModified(AccessCache(t, s, c, a).system[l])
      + One(EndOf(t, s, c, a) == MissAt(l) && EvictsModified(t, s, l, a))
         <= CountModified(s[l]) + One(a.write && Reaches(t, s, c, l, a))
    decreases MAX_CACHE_LEVELS - t.nodes[c].level
  {
    var n := t.nodes[c];
    assert Linked(t, c);
    if Find(n.geometry, s[c], LineOf(t, a)) != -1 {
      if c == l {
        OwnHitCounts(t, s, l, a);
      } else {
        HitElsewhereCounts(t, s, c, l, a);
      }
    } else if c == l {
      OwnMissCounts(t, s, l, a);
    } else {
      if n.higher.Some? {
        AccessCounts(t, s, n.higher.value, l, a);
        MissElsewhereCounts(t, AccessCache(t, s, n.higher.value, a).system, c, l, a);
      } else {
        MissElsewhereCounts(t, s, c, l, a);
      }
    }
  }

  // Writes that reached cache l over a run, and write-backs it reported.
  function WritesReaching(h: Hierarchy, s: System, trace: seq<MemoryAccess>, l: nat): nat
    requires ValidHierarchy(h) && Shaped(h.topology, s)
  {
    if trace == [] then 0
    else
      var init, m := trace[..|trace| - 1], trace[|trace| - 1];
      var u := Run(h, s, init).system;
      WritesReaching(h, s, init, l) +
      One(!Refused(h, m) && |h.data| != 0 && m.kind == KIND_WRITE && Reaches(h.topology, u, Entry(h, m), l, Request(m)))
  }

  function WriteBacksFrom(h: Hierarchy, s: System, trace: seq<MemoryAccess>, l: nat): nat
    requires ValidHierarchy(h) && Shaped(h.topology, s) && l < |h.topology.nodes|
  {
    if trace == [] then 0
    else
      var init, m := trace[..|trace| - 1], trace[|trace| - 1];
      var u := Run(h, s, init).system;
      WriteBacksFrom(h, s, init, l) +
      One(!Refused(h, m) && |h.data| != 0 && EndOf(h.topology, u, Entry(h, m), Request(m)) == MissAt(l)
          && EvictsModified(h.topology, u, l, Request(m)))
  }

  lemma {:induction false} NothingModifiedYet(n: nat)
    ensures CountModified(seq(n, i => UNUSED)) == 0
  {
    if n > 0 {
      assert seq(n, i => UNUSED)[..n - 1] == seq(n - 1, i => UNUSED);
      NothingModifiedYet(n - 1);
    }
  }

  /**
   * For a last-level cache without a bus, modified lines and write-backs together never exceed the writes that reached
   * it.
   */
  lemma {:induction false} WriteBacksBoundedByWrites(h: Hierarchy, trace: seq<MemoryAccess>, l: nat)
    requires ValidHierarchy(h) && LastAndAlone(h.topology, l)
    ensures Shaped(h.topology, Fresh(h.topology))
    ensures var s := Fresh(h.topology);
      CountModified(Run(h, s, trace).system[l]) + WriteBacksFrom(h, s, trace, l) <= WritesReaching(h, s, trace, l)
  {
    var t, s := h.topology, Fresh(h.topology);
    FreshIsGood(t);
    if trace == [] {
      NothingModifiedYet(t.nodes[l].geometry.size);
    } else {
      var init, m := trace[..|trace| - 1], trace[|trace| - 1];
      WriteBacksBoundedByWrites(h, init, l);
      if !Refused(h, m) && |h.data| != 0 {
        AccessCounts(t, Run(h, s, init).system, Entry(h, m), l, Request(m));
      }
    }
  }
}
