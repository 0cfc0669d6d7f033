/**
 * What the replacement code promises: with the search loop and the stamp repaired, a cache by itself
 * holds a line exactly when fewer other lines of its set were used since than the set has ways.
 */
module Lru {
  import opened Arith
  import opened Msi
  import opened CacheSpec
  import opened Coherence
  import opened Hierarchy

  // ----- the victim

  lemma {:induction false} RepairedSearch(lines: Lines, lo: nat, hi: nat, i: nat, smallest: nat, best: nat)
    requires lo <= i <= hi <= |lines| && lo <= best < hi && smallest == lines[best].lastUsed
    requires forall k :: lo <= k < i ==> lines[k].state != Invalid && smallest <= lines[k].lastUsed
    requires forall k :: lo <= k < best ==> smallest < lines[k].lastUsed
    requires best <= i
    ensures var r := VictimFrom(Repaired, lines, lo, hi, i, smallest, best);
      && (if lines[r].state == Invalid then forall k :: lo <= k < r ==> lines[k].state != Invalid
          else forall k :: lo <= k < hi ==> lines[k].state != Invalid && lines[r].lastUsed <= lines[k].lastUsed)
      && (lines[r].state != Invalid ==> forall k :: lo <= k < r ==> lines[r].lastUsed < lines[k].lastUsed)
    decreases hi - i
  {
    if i < hi && lines[i].state != Invalid {
      if lines[i].lastUsed < smallest {
        RepairedSearch(lines, lo, hi, i + 1, lines[i].lastUsed, i);
      } else {
        RepairedSearch(lines, lo, hi, i + 1, smallest, best);
      }
    }
  }

  // A way that may be given up: unused, or used least recently in a set without unused ways.
  ghost predicate LeastRecent(g: Geometry, lines: Lines, line: nat, r: nat)
    requires g.Valid() && |lines| == g.size && InWindow(g, line, r)
  {
    lines[r].state == Invalid ||
    forall k :: InWindow(g, line, k) ==> lines[k].state != Invalid && lines[r].lastUsed <= lines[k].lastUsed
  }

  /** The first unused way makes room or, where there is none, the first of those used least recently. */
  lemma RepairedVictimIsLeastRecent(g: Geometry, lines: Lines, line: nat)
    requires g.Valid() && |lines| == g.size
    ensures var r := Victim(Repaired, g, lines, line);
      && LeastRecent(g, lines, line, r)
      && forall k :: InWindow(g, line, k) && k < r ==>
        lines[k].state != Invalid && (lines[r].state == Invalid || lines[r].lastUsed < lines[k].lastUsed)
  {
    var lo := Base(g, line);
    RepairedSearch(lines, lo, lo + g.associativity, lo, lines[lo].lastUsed, lo);
  }

  // ----- a cache by itself

  // One coherent cache with no higher level, no lower level and no bus.
  ghost predicate Alone(t: Topology) {
    && Valid(t) && |t.nodes| == 1
    && t.nodes[0].higher.None? && t.nodes[0].lower == [] && t.nodes[0].peers == [] && t.nodes[0].coherent
  }

  function RunAlone(t: Topology, trace: seq<Access>): (s: System)
    requires Alone(t)
    ensures Shaped(t, s)
  {
    if trace == [] then Fresh(t)
    else AccessCache(t, RunAlone(t, trace[..|trace| - 1]), 0, trace[|trace| - 1]).system
  }

  ghost predicate Ticking(trace: seq<Access>) {
    && (forall i :: 0 <= i < |trace| ==> Addressable(trace[i]))
    && (forall i, j :: 0 <= i < j < |trace| ==> trace[i].timestamp < trace[j].timestamp)
  }

  // Time of the last access to a line, or -1.
  function LastUse(lineSize: nat, trace: seq<Access>, x: nat): (u: int)
    requires lineSize > 0
    ensures u >= 0 <==> exists i :: 0 <= i < |trace| && trace[i].address / lineSize == x
    ensures u >= 0 ==> exists i :: 0 <= i < |trace| && trace[i].address / lineSize == x && trace[i].timestamp == u
  {
    if trace == [] then -1
    else
      var init, a := trace[..|trace| - 1], trace[|trace| - 1];
      if a.address / lineSize == x then a.timestamp else LastUse(lineSize, init, x)
  }

  lemma LastUseBounded(lineSize: nat, trace: seq<Access>, x: nat, limit: nat)
    requires lineSize > 0 && forall i :: 0 <= i < |trace| ==> trace[i].timestamp < limit
    ensures LastUse(lineSize, trace, x) < limit
  {
  }

  lemma LastUseTellsLinesApart(lineSize: nat, trace: seq<Access>, x: nat, y: nat)
    requires lineSize > 0 && Ticking(trace) && LastUse(lineSize, trace, x) == LastUse(lineSize, trace, y) >= 0
    ensures x == y
  {
    var u := LastUse(lineSize, trace, x);
    var i :| 0 <= i < |trace| && trace[i].address / lineSize == x && trace[i].timestamp == u;
    var j :| 0 <= j < |trace| && trace[j].address / lineSize == y && trace[j].timestamp == u;
    assert i == j;
  }

  // One access changes one way: it then carries the line.
  lemma AloneChange(t: Topology, s: System, a: Access) returns (i: nat, x: CacheLine)
    requires Alone(t) && Shaped(t, s)
    ensures var g, line := t.nodes[0].geometry, LineOf(t, a);
      var hit := Find(g, s[0], line);
      && i == (if hit == -1 then Victim(t.variant, g, s[0], line) else hit) && InWindow(g, line, i)
      && x.state != Invalid && x.tag == Tag(g, line)
      && x.lastUsed == (if hit == -1 && t.variant == AsWritten then s[0][i].lastUsed else a.timestamp)
      && AccessCache(t, s, 0, a).system[0] == s[0][i := x]
  {
    var g, line := t.nodes[0].geometry, LineOf(t, a);
    var hit := Find(g, s[0], line);
    i := if hit == -1 then Victim(t.variant, g, s[0], line) else hit;
    var previous := if hit == -1 then Invalid else s[0][hit].state;
    x := CacheLine(Tag(g, line), NewState(previous, if a.write then Write else Read).0,
      if hit == -1 && t.variant == AsWritten then s[0][i].lastUsed else a.timestamp);
    assert AccessCache(t, s, 0, a).system[0] == s[0][i := x];
  }

  // ----- the invariant of a run

  // Ways in use carry the line and the time of its last use; unused ways carry nothing.
  ghost predicate Stamped(lineSize: nat, g: Geometry, lines: Lines, trace: seq<Access>)
    requires g.Valid() && |lines| == g.size && lineSize > 0
  {
    && (forall i :: 0 <= i < |lines| ==> (lines[i].state == Invalid <==> lines[i].tag == EMPTY_TAG))
    && (forall x: nat, i :: InWindow(g, x, i) && lines[i].tag == Tag(g, x) != EMPTY_TAG ==>
          lines[i].lastUsed == LastUse(lineSize, trace, x))
  }

  // A line that was used and is gone had to make room for a full set of more recent ones.
  ghost predicate GoneIsOld(lineSize: nat, g: Geometry, lines: Lines, trace: seq<Access>)
    requires g.Valid() && |lines| == g.size && lineSize > 0
  {
    forall x: nat, i ::
      LastUse(lineSize, trace, x) >= 0 && Tag(g, x) != EMPTY_TAG && Find(g, lines, x) == -1 && InWindow(g, x, i) ==>
        lines[i].state != Invalid && lines[i].lastUsed > LastUse(lineSize, trace, x)
  }

  ghost predicate LruInvariant(t: Topology, lines: Lines, trace: seq<Access>)
    requires Alone(t) && |lines| == t.nodes[0].geometry.size
  {
    var g := t.nodes[0].geometry;
    Tidy(g, lines) && Stamped(t.lineSize, g, lines, trace) && GoneIsOld(t.lineSize, g, lines, trace)
  }

  // What one access does to the only cache: one way now carries the line, just used.
  lemma AloneStep(t: Topology, s: System, a: Access)
    requires Alone(t) && Shaped(t, s) && t.variant == Repaired
    ensures var g, line := t.nodes[0].geometry, LineOf(t, a);
      var hit := Find(g, s[0], line);
      var i := if hit == -1 then Victim(Repaired, g, s[0], line) else hit;
      exists st :: st != Invalid && AccessCache(t, s, 0, a).system[0] ==
        s[0][i := CacheLine(Tag(g, line), st, a.timestamp)]
  {
    hide AccessCache, Find, Victim;
    var i, x := AloneChange(t, s, a);
    assert x == CacheLine(x.tag, x.state, a.timestamp);
  }

  lemma LastUseNext(lineSize: nat, trace: seq<Access>, a: Access)
    requires lineSize > 0
    ensures forall y: nat ::
      LastUse(lineSize, trace + [a], y) ==
        (if y == a.address / lineSize then a.timestamp else LastUse(lineSize, trace, y))
  {
    var trace' := trace + [a];
    assert trace'[..|trace'| - 1] == trace;
  }

  // Way i of the set of line x0 now carries that line, used at time u.
  ghost predicate Carries(g: Geometry, lines: Lines, x0: nat, i: nat, x: CacheLine)
    requires g.Valid() && |lines| == g.size
  {
    && InWindow(g, x0, i) && x.tag == Tag(g, x0) < EMPTY_TAG && x.state != Invalid
    && (Find(g, lines, x0) == i || (Find(g, lines, x0) == -1 && LeastRecent(g, lines, x0, i)))
  }

  // Way k, if it carries line y, has the right stamp after the step too.
  lemma StampKept(lineSize: nat, g: Geometry, lines: Lines, trace: seq<Access>, x0: nat, i: nat, x: CacheLine, y: nat,
                  k: nat)
    requires g.Valid() && |lines| == g.size && lineSize > 0 && Stamped(lineSize, g, lines, trace) && Tidy(g, lines)
    requires Carries(g, lines, x0, i, x)
    requires InWindow(g, y, k) && lines[i := x][k].tag == Tag(g, y) != EMPTY_TAG
    ensures lines[i := x][k].lastUsed == if y == x0 then x.lastUsed else LastUse(lineSize, trace, y)
  {
    if k == i {
      WindowsApart(g, y, x0);
      TagAndSetNameTheLine(g, y, x0);
    } else if y == x0 {
      FindIsThe(g, lines, x0, k);
    }
  }

  lemma StepKeepsStamps(lineSize: nat, g: Geometry, lines: Lines, trace: seq<Access>, a: Access, i: nat, x: CacheLine)
    requires g.Valid() && |lines| == g.size && lineSize > 0 && Stamped(lineSize, g, lines, trace) && Tidy(g, lines)
    requires Carries(g, lines, a.address / lineSize, i, x) && x.lastUsed == a.timestamp
    ensures Stamped(lineSize, g, lines[i := x], trace + [a])
  {
    LastUseNext(lineSize, trace, a);
    forall y: nat, k | InWindow(g, y, k) && lines[i := x][k].tag == Tag(g, y) != EMPTY_TAG
      ensures lines[i := x][k].lastUsed == LastUse(lineSize, trace + [a], y)
    {
      StampKept(lineSize, g, lines, trace, a.address / lineSize, i, x, y, k);
    }
  }

  // A line that is gone after the step is older than every way of its set.
  lemma GoneKept(lineSize: nat, g: Geometry, lines: Lines, trace: seq<Access>, x0: nat, i: nat, x: CacheLine, y: nat,
                 k: nat)
    requires g.Valid() && |lines| == g.size && lineSize > 0
    requires Tidy(g, lines) && Stamped(lineSize, g, lines, trace) && GoneIsOld(lineSize, g, lines, trace)
    requires Ticking(trace)
    requires Carries(g, lines, x0, i, x) && y != x0 && Tag(g, y) != EMPTY_TAG
    requires x.lastUsed > LastUse(lineSize, trace, y) >= 0 && Find(g, lines[i := x], y) == -1 && InWindow(g, y, k)
    ensures lines[i := x][k].state != Invalid && lines[i := x][k].lastUsed > LastUse(lineSize, trace, y)
  {
    var r := Find(g, lines, y);
    if k != i && r != -1 {
      assert InWindow(g, y, r);
      assert r == i;
      WindowsApart(g, y, x0);
      TagAndSetNameTheLine(g, y, x0);
      assert Find(g, lines, x0) == -1;
      EvictedIsOldest(lineSize, g, lines, trace, x0, i, y, k);
    }
  }

  lemma StepKeepsGone(lineSize: nat, g: Geometry, lines: Lines, trace: seq<Access>, a: Access, i: nat, x: CacheLine)
    requires g.Valid() && |lines| == g.size && lineSize > 0
    requires Tidy(g, lines) && Stamped(lineSize, g, lines, trace) && GoneIsOld(lineSize, g, lines, trace)
    requires Ticking(trace + [a]) && Carries(g, lines, a.address / lineSize, i, x) && x.lastUsed == a.timestamp
    ensures GoneIsOld(lineSize, g, lines[i := x], trace + [a])
  {
    hide Tidy, Stamped, Base, Tag, SetIndex, LastUse;
    LastUseNext(lineSize, trace, a);
    var x0, trace' := a.address / lineSize, trace + [a];
    assert trace'[|trace|] == a && forall j :: 0 <= j < |trace| ==> trace[j] == trace'[j];
    assert Find(g, lines[i := x], x0) != -1;
    forall y: nat, k |
      && LastUse(lineSize, trace', y) >= 0 && Tag(g, y) != EMPTY_TAG
      && Find(g, lines[i := x], y) == -1 && InWindow(g, y, k)
      ensures lines[i := x][k].state != Invalid && lines[i := x][k].lastUsed > LastUse(lineSize, trace', y)
    {
      LastUseBounded(lineSize, trace, y, a.timestamp);
      GoneKept(lineSize, g, lines, trace, x0, i, x, y, k);
    }
  }

  // The line that makes room was used less recently than every other line of its set.
  lemma EvictedIsOldest(lineSize: nat, g: Geometry, lines: Lines, trace: seq<Access>, x0: nat, i: nat, y: nat, k: nat)
    requires g.Valid() && |lines| == g.size && lineSize > 0
    requires Tidy(g, lines) && Stamped(lineSize, g, lines, trace) && Ticking(trace)
    requires InWindow(g, x0, i) && Find(g, lines, x0) == -1 && LeastRecent(g, lines, x0, i)
    requires InWindow(g, y, i) && lines[i].tag == Tag(g, y) != EMPTY_TAG && InWindow(g, y, k) && k != i
    ensures lines[k].state != Invalid && lines[k].lastUsed > LastUse(lineSize, trace, y)
  {
    WindowsApart(g, y, x0);
    assert InWindow(g, x0, k);
    var z := LineAt(g, lines, y, k);
    assert lines[k].tag == Tag(g, z) && InWindow(g, z, k);
    assert UniqueIn(lines, Base(g, y), Base(g, y) + g.associativity);
    if lines[k].lastUsed == LastUse(lineSize, trace, y) {
      if LastUse(lineSize, trace, y) >= 0 {
        LastUseTellsLinesApart(lineSize, trace, y, z);
        assert false;
      }
    }
  }

  // The line that way k of the set of line y carries.
  function LineAt(g: Geometry, lines: Lines, y: nat, k: nat): (z: nat)
    requires g.Valid() && |lines| == g.size && InWindow(g, y, k)
    ensures Tag(g, z) == lines[k].tag && SetIndex(g, z) == SetIndex(g, y) && InWindow(g, z, k)
  {
    EveryTagAndSetIsALine(g, lines[k].tag, SetIndex(g, y));
    WindowsApart(g, lines[k].tag * g.Sets() + SetIndex(g, y), y);
    lines[k].tag * g.Sets() + SetIndex(g, y)
  }

  lemma FreshInvariant(t: Topology)
    requires Alone(t)
    ensures LruInvariant(t, Fresh(t)[0], [])
  {
    FreshIsGood(t);
  }

  lemma {:induction false} LruInvariantHolds(t: Topology, trace: seq<Access>)
    requires Alone(t) && t.variant == Repaired && Ticking(trace)
    ensures LruInvariant(t, RunAlone(t, trace)[0], trace)
  {
    hide AccessCache, Find, Victim, Tidy, Stamped, GoneIsOld, Tag, LeastRecent;
    var g := t.nodes[0].geometry;
    if trace == [] {
      FreshInvariant(t);
    } else {
      var init, a := trace[..|trace| - 1], trace[|trace| - 1];
      LruInvariantHolds(t, init);
      var s := RunAlone(t, init);
      var lines, line := s[0], LineOf(t, a);
      var hit := Find(g, lines, line);
      var i := if hit == -1 then Victim(Repaired, g, lines, line) else hit;
      AloneStep(t, s, a);
      var st :| st != Invalid && AccessCache(t, s, 0, a).system[0] ==
        lines[i := CacheLine(Tag(g, line), st, a.timestamp)];
      var x := CacheLine(Tag(g, line), st, a.timestamp);
      TagIsReal(t, 0, a);
      RepairedVictimIsLeastRecent(g, lines, line);
      assert init + [a] == trace;
      if hit == -1 {
        RefillEffect(g, lines, line, i, x);
      } else {
        StateUpdateEffect(g, lines, i, x);
      }
      StepKeepsStamps(t.lineSize, g, lines, init, a, i, x);
      StepKeepsGone(t.lineSize, g, lines, init, a, i, x);
    }
  }

  // ----- the theorem

  // The lines of a trace.
  function LinesUsed(lineSize: nat, trace: seq<Access>): set<nat>
    requires lineSize > 0
  {
    set i | 0 <= i < |trace| :: trace[i].address / lineSize
  }

  // Lines of the same set as x that were used after the last use of x.
  function Newer(lineSize: nat, sets: nat, trace: seq<Access>, x: nat): set<nat>
    requires lineSize > 0 && sets > 0
  {
    set y | y in LinesUsed(lineSize, trace) && y % sets == x % sets
            && LastUse(lineSize, trace, y) > LastUse(lineSize, trace, x)
  }

  // The line in way w of the set of y.
  function LineInWay(g: Geometry, lines: Lines, y: nat, w: nat): (z: nat)
    requires g.Valid() && |lines| == g.size && w < g.associativity
    ensures Tag(g, z) == lines[Base(g, y) + w].tag && SetIndex(g, z) == SetIndex(g, y)
  {
    LineAt(g, lines, y, Base(g, y) + w)
  }

  // The lines in the ways of the set of y.
  function LinesIn(g: Geometry, lines: Lines, y: nat): (r: seq<nat>)
    requires g.Valid() && |lines| == g.size
    ensures |r| == g.associativity && forall w :: 0 <= w < |r| ==> r[w] == LineInWay(g, lines, y, w)
  {
    seq(g.associativity, w requires 0 <= w < g.associativity => LineInWay(g, lines, y, w))
  }

  function Elements(q: seq<nat>): (r: set<nat>)
    ensures forall x :: x in r <==> x in q
  {
    set x | x in q
  }

  lemma {:induction false} ElementsCount(q: seq<nat>)
    ensures |Elements(q)| <= |q|
    ensures (forall i, j :: 0 <= i < j < |q| ==> q[i] != q[j]) ==> |Elements(q)| == |q|
  {
    if q != [] {
      var n := |q| - 1;
      ElementsCount(q[..n]);
      assert q == q[..n] + [q[n]];
      assert Elements(q) == Elements(q[..n]) + {q[n]};
    }
  }

  lemma SubsetIsSmaller(a: set<nat>, b: set<nat>)
    requires a <= b
    ensures |a| <= |b|
  {
    if a != {} {
      var x :| x in a;
      SubsetIsSmaller(a - {x}, b - {x});
    }
  }

  lemma SeenLineHasRealTag(t: Topology, trace: seq<Access>, x: nat)
    requires Alone(t) && Ticking(trace) && LastUse(t.lineSize, trace, x) >= 0
    ensures Tag(t.nodes[0].geometry, x) < EMPTY_TAG && x in LinesUsed(t.lineSize, trace)
  {
    var i :| 0 <= i < |trace| && trace[i].address / t.lineSize == x;
    TagIsReal(t, 0, trace[i]);
  }

  // A line that was used no earlier than one that is held, in the same set, is held too.
  lemma NewerIsFound(t: Topology, lines: Lines, trace: seq<Access>, x: nat, y: nat)
    requires Alone(t) && Ticking(trace) && |lines| == t.nodes[0].geometry.size && LruInvariant(t, lines, trace)
    requires Find(t.nodes[0].geometry, lines, x) != -1 && Tag(t.nodes[0].geometry, x) != EMPTY_TAG
    requires y == x || y in Newer(t.lineSize, t.nodes[0].geometry.Sets(), trace, x)
    ensures SetIndex(t.nodes[0].geometry, x) == SetIndex(t.nodes[0].geometry, y)
    ensures Find(t.nodes[0].geometry, lines, y) != -1
  {
    var g := t.nodes[0].geometry;
    var i := Find(g, lines, x);
    assert lines[i].lastUsed == LastUse(t.lineSize, trace, x);
    SeenLineHasRealTag(t, trace, y);
    WindowsApart(g, x, y);
    if Find(g, lines, y) == -1 {
      assert InWindow(g, y, i);
    }
  }

  lemma FoundIsListed(g: Geometry, lines: Lines, x: nat, y: nat)
    requires g.Valid() && |lines| == g.size && SetIndex(g, x) == SetIndex(g, y) && Find(g, lines, y) != -1
    ensures y in LinesIn(g, lines, x)
  {
    var k := Find(g, lines, y);
    WindowsApart(g, x, y);
    assert InWindow(g, x, k);
    var w := k - Base(g, x);
    TagAndSetNameTheLine(g, y, LineInWay(g, lines, x, w));
    assert LinesIn(g, lines, x)[w] == y;
  }

  // A line that is held has all newer lines of its set beside it.
  lemma NewerIsHeld(t: Topology, lines: Lines, trace: seq<Access>, x: nat, y: nat)
    requires Alone(t) && Ticking(trace) && |lines| == t.nodes[0].geometry.size && LruInvariant(t, lines, trace)
    requires Tag(t.nodes[0].geometry, x) != EMPTY_TAG && Find(t.nodes[0].geometry, lines, x) != -1
    requires y == x || y in Newer(t.lineSize, t.nodes[0].geometry.Sets(), trace, x)
    ensures y in LinesIn(t.nodes[0].geometry, lines, x)
  {
    NewerIsFound(t, lines, trace, x, y);
    FoundIsListed(t.nodes[0].geometry, lines, x, y);
  }

  lemma HeldHasFewNewer(t: Topology, lines: Lines, trace: seq<Access>, x: nat)
    requires Alone(t) && Ticking(trace) && |lines| == t.nodes[0].geometry.size && LruInvariant(t, lines, trace)
    requires Tag(t.nodes[0].geometry, x) != EMPTY_TAG && Find(t.nodes[0].geometry, lines, x) != -1
    ensures LastUse(t.lineSize, trace, x) >= 0
    ensures |Newer(t.lineSize, t.nodes[0].geometry.Sets(), trace, x)| < t.nodes[0].geometry.associativity
  {
    var g := t.nodes[0].geometry;
    assert lines[Find(g, lines, x)].lastUsed == LastUse(t.lineSize, trace, x);
    var newer, held := Newer(t.lineSize, g.Sets(), trace, x), Elements(LinesIn(g, lines, x));
    ElementsCount(LinesIn(g, lines, x));
    forall y | y in newer + {x} ensures y in held {
      NewerIsHeld(t, lines, trace, x, y);
    }
    SubsetIsSmaller(newer + {x}, held);
    assert x !in newer;
  }

  lemma GeometryOf(t: Topology)
    requires Alone(t)
    ensures t.nodes[0].geometry.Valid() && t.lineSize > 0
  {
  }

  // What the invariant says of one way of a set.
  lemma WayOfGone(t: Topology, lines: Lines, trace: seq<Access>, x: nat, k: nat)
    requires Alone(t) && |lines| == t.nodes[0].geometry.size && LruInvariant(t, lines, trace)
    requires Tag(t.nodes[0].geometry, x) != EMPTY_TAG && Find(t.nodes[0].geometry, lines, x) == -1
    requires LastUse(t.lineSize, trace, x) >= 0 && InWindow(t.nodes[0].geometry, x, k)
    ensures lines[k].tag != EMPTY_TAG && lines[k].lastUsed > LastUse(t.lineSize, trace, x)
  {
    hide Tidy, Tag, Find, LastUse;
  }

  lemma StampOf(t: Topology, lines: Lines, trace: seq<Access>, z: nat, k: nat)
    requires Alone(t) && |lines| == t.nodes[0].geometry.size && LruInvariant(t, lines, trace)
    requires InWindow(t.nodes[0].geometry, z, k) && lines[k].tag == Tag(t.nodes[0].geometry, z) != EMPTY_TAG
    ensures lines[k].lastUsed == LastUse(t.lineSize, trace, z)
  {
    hide Tidy, Tag, Find, LastUse;
  }

  lemma GoneIsBehind(t: Topology, lines: Lines, trace: seq<Access>, x: nat, w: nat)
    requires Alone(t) && Ticking(trace) && |lines| == t.nodes[0].geometry.size && LruInvariant(t, lines, trace)
    requires Tag(t.nodes[0].geometry, x) != EMPTY_TAG && Find(t.nodes[0].geometry, lines, x) == -1
    requires LastUse(t.lineSize, trace, x) >= 0 && w < t.nodes[0].geometry.associativity
    ensures lines[Base(t.nodes[0].geometry, x) + w].tag != EMPTY_TAG
    ensures LineInWay(t.nodes[0].geometry, lines, x, w) in Newer(t.lineSize, t.nodes[0].geometry.Sets(), trace, x)
  {
    hide Valid, LruInvariant, Base, Tag, Find, LastUse, LineInWay, SetIndex, Ticking, Newer;
    GeometryOf(t);
    var g := t.nodes[0].geometry;
    var k, z := Base(g, x) + w, LineInWay(g, lines, x, w);
    WindowsApart(g, x, z);
    assert InWindow(g, x, k) && InWindow(g, z, k);
    WayOfGone(t, lines, trace, x, k);
    StampOf(t, lines, trace, z, k);
    SeenLineHasRealTag(t, trace, z);
    IsNewer(g, t.lineSize, trace, x, z);
  }

  lemma IsNewer(g: Geometry, lineSize: nat, trace: seq<Access>, x: nat, y: nat)
    requires g.Valid() && lineSize > 0 && y in LinesUsed(lineSize, trace) && SetIndex(g, y) == SetIndex(g, x)
    requires LastUse(lineSize, trace, y) > LastUse(lineSize, trace, x)
    ensures y in Newer(lineSize, g.Sets(), trace, x)
  {
  }

  // In a set without unused ways all tags differ.
  lemma TagsApart(g: Geometry, lines: Lines, x: nat)
    requires g.Valid() && |lines| == g.size && Tidy(g, lines)
    ensures (forall k :: Base(g, x) <= k < Base(g, x) + g.associativity ==> lines[k].tag != EMPTY_TAG) ==>
      forall k, l :: Base(g, x) <= k < l < Base(g, x) + g.associativity ==> lines[k].tag != lines[l].tag
  {
    hide Base;
    assert UniqueIn(lines, Base(g, x), Base(g, x) + g.associativity);
  }

  // A line that is gone has a set full of newer lines before it.
  lemma GoneHasManyNewer(t: Topology, lines: Lines, trace: seq<Access>, x: nat)
    requires Alone(t) && Ticking(trace) && |lines| == t.nodes[0].geometry.size && LruInvariant(t, lines, trace)
    requires Tag(t.nodes[0].geometry, x) != EMPTY_TAG && Find(t.nodes[0].geometry, lines, x) == -1
    requires LastUse(t.lineSize, trace, x) >= 0
    ensures |Newer(t.lineSize, t.nodes[0].geometry.Sets(), trace, x)| >= t.nodes[0].geometry.associativity
  {
    var g := t.nodes[0].geometry;
    var q, newer := LinesIn(g, lines, x), Newer(t.lineSize, g.Sets(), trace, x);
    TagsApart(g, lines, x);
    hide Base, Tag, SetIndex, Find, Newer, LinesIn, LineInWay, LruInvariant;
    forall w | 0 <= w < |q| ensures q[w] in newer && lines[Base(g, x) + w].tag != EMPTY_TAG {
      GoneIsBehind(t, lines, trace, x, w);
    }
    forall k | Base(g, x) <= k < Base(g, x) + g.associativity ensures lines[k].tag != EMPTY_TAG {
      GoneIsBehind(t, lines, trace, x, k - Base(g, x));
    }
    forall v, w | 0 <= v < w < |q| ensures q[v] != q[w] {
      assert lines[Base(g, x) + v].tag != lines[Base(g, x) + w].tag;
    }
    ElementsCount(q);
    SubsetIsSmaller(Elements(q), newer);
  }

  /**
   * Least recently used, exactly: after any run of a cache by itself with rising time stamps, a line is
   * held if and only if it was used and fewer lines of its set than there are ways were used since.
   */
  lemma HeldIffFewNewer(t: Topology, trace: seq<Access>, x: nat)
    requires Alone(t) && t.variant == Repaired && Ticking(trace) && x * t.lineSize < ADDRESS_LIMIT
    ensures var g := t.nodes[0].geometry;
      Find(g, RunAlone(t, trace)[0], x) != -1 <==>
        LastUse(t.lineSize, trace, x) >= 0 && |Newer(t.lineSize, g.Sets(), trace, x)| < g.associativity
  {
    hide Valid, Find, LastUse, Newer, Tag, LruInvariant, Ticking;
    GeometryOf(t);
    var lines := RunAlone(t, trace)[0];
    LruInvariantHolds(t, trace);
    var a := Access(x * t.lineSize, 0, false);
    DivideUnique(a.address, t.lineSize, x, 0);
    TagIsReal(t, 0, a);
    if Find(t.nodes[0].geometry, lines, x) != -1 {
      HeldHasFewNewer(t, lines, trace, x);
    } else if LastUse(t.lineSize, trace, x) >= 0 {
      GoneHasManyNewer(t, lines, trace, x);
    }
  }

  /** More ways never hurt: with the same number of sets, whatever the smaller cache holds the larger holds too. */
  lemma MoreWaysHoldMore(t: Topology, u: Topology, trace: seq<Access>, x: nat)
    requires Alone(t) && Alone(u) && t.variant == u.variant == Repaired && t.lineSize == u.lineSize
    requires t.nodes[0].geometry.Sets() == u.nodes[0].geometry.Sets()
    requires t.nodes[0].geometry.associativity <= u.nodes[0].geometry.associativity
    requires Ticking(trace) && x * t.lineSize < ADDRESS_LIMIT
    ensures Find(t.nodes[0].geometry, RunAlone(t, trace)[0], x) != -1 ==>
            Find(u.nodes[0].geometry, RunAlone(u, trace)[0], x) != -1
  {
    HeldIffFewNewer(t, trace, x);
    HeldIffFewNewer(u, trace, x);
  }
}
