/**
 * The replacement code as written: what a cache by itself holds after any run, when it gives up a least
 * recently used line, and for which caches that makes no difference.
 */
module LruWritten {
  import opened Options
  import opened Arith
  import opened Msi
  import opened CacheSpec
  import opened Coherence
  import opened Lru

  // ----- the victim

  // The search never looks past the first way for a stamp: it ends at the first unused way, or where it began.
  lemma {:induction false} WrittenSearch(lines: Lines, lo: nat, hi: nat, i: nat)
    requires lo <= i <= hi <= |lines| && lo < hi
    requires forall k :: lo <= k < i ==> lines[k].state != Invalid
    ensures var r := VictimFrom(AsWritten, lines, lo, hi, i, lines[lo].lastUsed, lo);
      if forall k :: lo <= k < hi ==> lines[k].state != Invalid then r == lo
      else lines[r].state == Invalid && forall k :: lo <= k < r ==> lines[k].state != Invalid
    decreases hi - i
  {
    if i < hi && lines[i].state != Invalid {
      WrittenSearch(lines, lo, hi, i + 1);
    }
  }

  lemma WrittenVictim(g: Geometry, lines: Lines, line: nat)
    requires g.Valid() && |lines| == g.size
    ensures var r := Victim(AsWritten, g, lines, line);
      if Full(g, lines, line) then r == Base(g, line)
      else lines[r].state == Invalid && forall k :: Base(g, line) <= k < r ==> lines[k].state != Invalid
  {
    var lo := Base(g, line);
    assert forall k :: lo <= k < lo + g.associativity ==> InWindow(g, line, k);
    WrittenSearch(lines, lo, lo + g.associativity, lo);
  }

  // ----- full sets

  ghost predicate Full(g: Geometry, lines: Lines, line: nat)
    requires g.Valid() && |lines| == g.size
  {
    forall k :: InWindow(g, line, k) ==> lines[k].state != Invalid
  }

  ghost predicate OnlyFirstChanged(g: Geometry, lines: Lines, lines': Lines, line: nat)
    requires g.Valid() && |lines| == |lines'| == g.size
  {
    forall k :: InWindow(g, line, k) && k != Base(g, line) ==> lines'[k].tag == lines[k].tag
  }

  lemma SameWindow(g: Geometry, x: nat, y: nat, i: nat)
    requires g.Valid() && InWindow(g, x, i) && InWindow(g, y, i)
    ensures Base(g, x) == Base(g, y) && SetIndex(g, x) == SetIndex(g, y)
  {
    WindowsApart(g, x, y);
  }

  lemma OnlyFirstTwice(g: Geometry, l1: Lines, l2: Lines, l3: Lines, line: nat)
    requires g.Valid() && |l1| == |l2| == |l3| == g.size
    ensures OnlyFirstChanged(g, l1, l1, line)
    ensures OnlyFirstChanged(g, l1, l2, line) && OnlyFirstChanged(g, l2, l3, line) ==> OnlyFirstChanged(g, l1, l3, line)
  {
  }

  lemma WrittenStep(t: Topology, s: System, a: Access, line: nat)
    requires Alone(t) && t.variant == AsWritten && Shaped(t, s) && Full(t.nodes[0].geometry, s[0], line)
    ensures var g, s' := t.nodes[0].geometry, AccessCache(t, s, 0, a).system;
      Full(g, s'[0], line) && OnlyFirstChanged(g, s[0], s'[0], line)
  {
    hide AccessCache, Find, Victim, Base, SetIndex;
    var g, own := t.nodes[0].geometry, LineOf(t, a);
    var i, x := AloneChange(t, s, a);
    if InWindow(g, line, i) {
      SameWindow(g, own, line, i);
      if Find(g, s[0], own) == -1 {
        WrittenVictim(g, s[0], own);
      }
    }
  }

  /**
   * A set that is full keeps for ever what it has in all ways but the first, however often other lines are used.
   */
  lemma {:induction false} WrittenFreezesFullSets(t: Topology, before: seq<Access>, after: seq<Access>, line: nat)
    requires Alone(t) && t.variant == AsWritten && Full(t.nodes[0].geometry, RunAlone(t, before)[0], line)
    ensures var g, s, s' := t.nodes[0].geometry, RunAlone(t, before), RunAlone(t, before + after);
      Full(g, s'[0], line) && OnlyFirstChanged(g, s[0], s'[0], line)
    decreases |after|
  {
    var g, s := t.nodes[0].geometry, RunAlone(t, before);
    OnlyFirstTwice(g, s[0], s[0], s[0], line);
    if after == [] {
      assert before + after == before;
    } else {
      hide AccessCache, Full, OnlyFirstChanged;
      var init, a := after[..|after| - 1], after[|after| - 1];
      WrittenFreezesFullSets(t, before, init, line);
      assert (before + after)[..|before + after| - 1] == before + init;
      WrittenStep(t, RunAlone(t, before + init), a, line);
      OnlyFirstTwice(g, s[0], RunAlone(t, before + init)[0], RunAlone(t, before + after)[0], line);
    }
  }

  // ----- the contents after a run

  // The lines in the ways in use of the set of z, way by way.
  function Ways(t: Topology, trace: seq<Access>, z: nat): (q: seq<nat>)
    requires Alone(t)
    ensures |q| <= t.nodes[0].geometry.associativity
    ensures forall w :: 0 <= w < |q| ==> SetIndex(t.nodes[0].geometry, q[w]) == SetIndex(t.nodes[0].geometry, z)
  {
    if trace == [] then []
    else WaysNext(t, Ways(t, trace[..|trace| - 1], z), LineOf(t, trace[|trace| - 1]), z)
  }

  // A new line goes into the first unused way, and when there is none into the first way.
  function WaysNext(t: Topology, q: seq<nat>, x: nat, z: nat): seq<nat>
    requires Alone(t)
  {
    if x in q || SetIndex(t.nodes[0].geometry, x) != SetIndex(t.nodes[0].geometry, z) then q
    else if |q| < t.nodes[0].geometry.associativity then q + [x]
    else q[0 := x]
  }

  // The set of z has these lines in its first ways, and the other ways are unused.
  ghost predicate HasWays(g: Geometry, lines: Lines, q: seq<nat>, z: nat)
    requires g.Valid() && |lines| == g.size
  {
    && |q| <= g.associativity
    && (forall w :: 0 <= w < |q| ==> SetIndex(g, q[w]) == SetIndex(g, z))
    && (forall w :: 0 <= w < |q| ==> lines[Base(g, z) + w].tag == Tag(g, q[w]) < EMPTY_TAG)
    && (forall k :: InWindow(g, z, k) ==> (lines[k].state == Invalid <==> k >= Base(g, z) + |q|))
    && (forall k :: InWindow(g, z, k) && k >= Base(g, z) + |q| ==> lines[k].tag == EMPTY_TAG)
  }

  lemma HasWaysFind(g: Geometry, lines: Lines, q: seq<nat>, z: nat)
    requires g.Valid() && |lines| == g.size && HasWays(g, lines, q, z) && Tag(g, z) < EMPTY_TAG
    ensures Find(g, lines, z) != -1 <==> z in q
    ensures Find(g, lines, z) != -1 ==> Find(g, lines, z) < Base(g, z) + |q| && q[Find(g, lines, z) - Base(g, z)] == z
  {
    hide Base, Tag, SetIndex;
    if z in q {
      var w :| 0 <= w < |q| && q[w] == z;
      assert InWindow(g, z, Base(g, z) + w);
    }
    var i := Find(g, lines, z);
    if i != -1 {
      assert InWindow(g, z, i);
      TagAndSetNameTheLine(g, q[i - Base(g, z)], z);
    }
  }

  lemma OtherSetsKept(g: Geometry, lines: Lines, q: seq<nat>, z: nat, own: nat, i: nat, x: CacheLine)
    requires g.Valid() && |lines| == g.size && HasWays(g, lines, q, z)
    requires InWindow(g, own, i) && SetIndex(g, own) != SetIndex(g, z)
    ensures HasWays(g, lines[i := x], q, z)
  {
    hide Base, Tag, SetIndex;
    if InWindow(g, z, i) {
      SameWindow(g, own, z, i);
    }
    forall w | 0 <= w < |q| ensures lines[i := x][Base(g, z) + w].tag == Tag(g, q[w]) {
      assert InWindow(g, z, Base(g, z) + w);
    }
  }

  lemma OwnSetHit(g: Geometry, lines: Lines, q: seq<nat>, own: nat, x: CacheLine)
    requires g.Valid() && |lines| == g.size && HasWays(g, lines, q, own) && own in q
    requires x.state != Invalid && x.tag == Tag(g, own) < EMPTY_TAG
    ensures Find(g, lines, own) != -1 && HasWays(g, lines[Find(g, lines, own) := x], q, own)
  {
    hide Base, Tag, SetIndex, Find;
    HasWaysFind(g, lines, q, own);
  }

  // A new line in a set with unused ways.
  lemma OwnSetGrown(g: Geometry, lines: Lines, q: seq<nat>, own: nat, x: CacheLine)
    requires g.Valid() && |lines| == g.size && HasWays(g, lines, q, own) && |q| < g.associativity
    requires x.state != Invalid && x.tag == Tag(g, own) < EMPTY_TAG
    ensures HasWays(g, lines[Victim(AsWritten, g, lines, own) := x], q + [own], own)
  {
    FirstUnused(g, lines, q, own);
    hide Base, Tag, SetIndex, Victim;
    var i := Base(g, own) + |q|;
    forall w | 0 <= w < |q + [own]| ensures lines[i := x][Base(g, own) + w].tag == Tag(g, (q + [own])[w]) {
    }
  }

  lemma FirstUnused(g: Geometry, lines: Lines, q: seq<nat>, own: nat)
    requires g.Valid() && |lines| == g.size && HasWays(g, lines, q, own) && |q| < g.associativity
    ensures Victim(AsWritten, g, lines, own) == Base(g, own) + |q|
  {
    hide Base, Tag, SetIndex, Victim;
    WrittenVictim(g, lines, own);
    assert InWindow(g, own, Victim(AsWritten, g, lines, own));
    assert InWindow(g, own, Base(g, own) + |q|);
  }

  // A new line in a full set.
  lemma OwnSetReplaced(g: Geometry, lines: Lines, q: seq<nat>, own: nat, x: CacheLine)
    requires g.Valid() && |lines| == g.size && HasWays(g, lines, q, own) && |q| == g.associativity
    requires x.state != Invalid && x.tag == Tag(g, own) < EMPTY_TAG
    ensures HasWays(g, lines[Victim(AsWritten, g, lines, own) := x], q[0 := own], own)
  {
    FirstOfFull(g, lines, q, own);
    hide Base, Tag, SetIndex, Victim;
    var b := Base(g, own);
    assert InWindow(g, own, b);
    var q' := q[0 := own];
    assert forall w :: 0 <= w < |q'| ==> lines[b := x][b + w].tag == Tag(g, q'[w]);
  }

  lemma FirstOfFull(g: Geometry, lines: Lines, q: seq<nat>, own: nat)
    requires g.Valid() && |lines| == g.size && HasWays(g, lines, q, own) && |q| == g.associativity
    ensures Victim(AsWritten, g, lines, own) == Base(g, own)
  {
    hide Base, Tag, SetIndex, Victim;
    WrittenVictim(g, lines, own);
  }

  lemma WaysAtMost(g: Geometry, lines: Lines, q: seq<nat>, z: nat)
    requires g.Valid() && |lines| == g.size && HasWays(g, lines, q, z)
    ensures |q| <= g.associativity
  {
  }

  lemma SameSetSameWays(g: Geometry, lines: Lines, q: seq<nat>, y: nat, z: nat)
    requires g.Valid() && |lines| == g.size && SetIndex(g, y) == SetIndex(g, z)
    ensures HasWays(g, lines, q, y) <==> HasWays(g, lines, q, z)
  {
    WindowsApart(g, y, z);
    hide Base, Tag, SetIndex;
    assert forall k :: InWindow(g, y, k) <==> InWindow(g, z, k);
  }

  lemma OwnSetChanged(g: Geometry, lines: Lines, q: seq<nat>, z: nat, own: nat, i: nat, x: CacheLine)
    requires g.Valid() && |lines| == g.size && HasWays(g, lines, q, z) && SetIndex(g, own) == SetIndex(g, z)
    requires i == if Find(g, lines, own) == -1 then Victim(AsWritten, g, lines, own) else Find(g, lines, own)
    requires x.state != Invalid && x.tag == Tag(g, own) < EMPTY_TAG
    ensures var q' := if own in q then q else if |q| < g.associativity then q + [own] else q[0 := own];
      HasWays(g, lines[i := x], q', z)
  {
    hide HasWays, Tag, SetIndex, Find, Victim, Base;
    SameSetSameWays(g, lines, q, own, z);
    HasWaysFind(g, lines, q, own);
    if own in q {
      OwnSetHit(g, lines, q, own, x);
      SameSetSameWays(g, lines[i := x], q, own, z);
    } else {
      if |q| < g.associativity {
        OwnSetGrown(g, lines, q, own, x);
      } else {
        WaysAtMost(g, lines, q, own);
        OwnSetReplaced(g, lines, q, own, x);
      }
      SameSetSameWays(g, lines[i := x], if |q| < g.associativity then q + [own] else q[0 := own], own, z);
    }
  }

  lemma {:induction false} RunHasWays(t: Topology, trace: seq<Access>, z: nat)
    requires Alone(t) && t.variant == AsWritten && forall i :: 0 <= i < |trace| ==> Addressable(trace[i])
    ensures HasWays(t.nodes[0].geometry, RunAlone(t, trace)[0], Ways(t, trace, z), z)
  {
    var g := t.nodes[0].geometry;
    if trace != [] {
      var init, a := trace[..|trace| - 1], trace[|trace| - 1];
      RunHasWays(t, init, z);
      TagIsReal(t, 0, a);
      hide HasWays, AccessCache, SetIndex, Tag, Victim, Find, Base;
      var i, x := AloneChange(t, RunAlone(t, init), a);
      if SetIndex(g, LineOf(t, a)) == SetIndex(g, z) {
        OwnSetChanged(g, RunAlone(t, init)[0], Ways(t, init, z), z, LineOf(t, a), i, x);
      } else {
        OtherSetsKept(g, RunAlone(t, init)[0], Ways(t, init, z), z, LineOf(t, a), i, x);
      }
    }
  }


  // ----- the contents in terms of the trace

  // The lines of the set of z, in the order of their first use.
  function FirstUses(t: Topology, trace: seq<Access>, z: nat): (f: seq<nat>)
    requires Alone(t)
    ensures forall y :: y in f <==>
      SetIndex(t.nodes[0].geometry, y) == SetIndex(t.nodes[0].geometry, z) && LastUse(t.lineSize, trace, y) >= 0
    ensures forall i, j :: 0 <= i < j < |f| ==> f[i] != f[j]
  {
    if trace == [] then []
    else
      var f, x := FirstUses(t, trace[..|trace| - 1], z), LineOf(t, trace[|trace| - 1]);
      if x in f || SetIndex(t.nodes[0].geometry, x) != SetIndex(t.nodes[0].geometry, z) then f else f + [x]
  }

  // The lines that stay in their ways: all that fit in when they were used first, except the very first.
  function Settlers(associativity: nat, f: seq<nat>): set<nat> {
    set i | 1 <= i < associativity && i < |f| :: f[i]
  }

  // The ways are those of the settlers, and the first way has the line used last of all others.
  ghost predicate Sorted(t: Topology, trace: seq<Access>, f: seq<nat>, q: seq<nat>)
    requires Alone(t)
  {
    && |q| == (if |f| < t.nodes[0].geometry.associativity then |f| else t.nodes[0].geometry.associativity)
    && (forall w :: 1 <= w < |q| ==> q[w] == f[w])
    && (|q| > 0 ==> q[0] in f && q[0] !in Settlers(t.nodes[0].geometry.associativity, f))
    && (forall y :: y in f && y !in Settlers(t.nodes[0].geometry.associativity, f) ==>
          LastUse(t.lineSize, trace, y) <= LastUse(t.lineSize, trace, q[0]))
  }

  // The settlers when a line is used for the first time.
  lemma SettlersNext(n: nat, f: seq<nat>, x: nat)
    requires x !in f
    ensures Settlers(n, f + [x]) == if 1 <= |f| < n then Settlers(n, f) + {x} else Settlers(n, f)
  {
    var f' := f + [x];
    forall y | y in Settlers(n, f) ensures y in Settlers(n, f') {
      var i :| 1 <= i < n && i < |f| && f[i] == y;
      assert f'[i] == y;
    }
    if 1 <= |f| < n {
      assert f'[|f|] == x;
    }
  }

  // In a set that is not full the only line that is no settler is the very first.
  lemma SettlersOfFew(n: nat, f: seq<nat>, y: nat)
    requires y in f && y !in Settlers(n, f) && |f| <= n
    ensures y == f[0]
  {
  }

  // Any line of the set but a settler was used: it has the first way.
  lemma LooseUsed(t: Topology, init: seq<Access>, a: Access, f: seq<nat>, q: seq<nat>, z: nat)
    requires Alone(t) && Sorted(t, init, f, q) && Ticked(t, init, a)
    requires LineOf(t, a) in f && LineOf(t, a) !in Settlers(t.nodes[0].geometry.associativity, f)
    requires SetIndex(t.nodes[0].geometry, LineOf(t, a)) == SetIndex(t.nodes[0].geometry, z)
    ensures Sorted(t, init + [a], f, WaysNext(t, q, LineOf(t, a), z))
  {
    hide LastUse, SetIndex;
    var n, x := t.nodes[0].geometry.associativity, LineOf(t, a);
    assert forall w :: 1 <= w < |q| ==> q[w] in Settlers(n, f);
    if |f| <= n {
      SettlersOfFew(n, f, x);
      SettlersOfFew(n, f, q[0]);
    }
  }

  lemma NewUsed(t: Topology, init: seq<Access>, a: Access, f: seq<nat>, q: seq<nat>, z: nat)
    requires Alone(t) && Sorted(t, init, f, q) && Ticked(t, init, a) && LineOf(t, a) !in f
    requires SetIndex(t.nodes[0].geometry, LineOf(t, a)) == SetIndex(t.nodes[0].geometry, z)
    ensures Sorted(t, init + [a], f + [LineOf(t, a)], WaysNext(t, q, LineOf(t, a), z))
  {
    hide LastUse, SetIndex;
    var n, x := t.nodes[0].geometry.associativity, LineOf(t, a);
    SettlersNext(n, f, x);
    assert forall w :: 1 <= w < |q| ==> q[w] in f;
    hide Settlers;
  }

  // Nothing but a settler, or a line of another set, was used: all stays.
  lemma OthersUsed(t: Topology, init: seq<Access>, a: Access, f: seq<nat>, q: seq<nat>, z: nat)
    requires Alone(t) && Sorted(t, init, f, q) && Ticked(t, init, a)
    requires if LineOf(t, a) in f then LineOf(t, a) in Settlers(t.nodes[0].geometry.associativity, f)
      else SetIndex(t.nodes[0].geometry, LineOf(t, a)) != SetIndex(t.nodes[0].geometry, z)
    ensures Sorted(t, init + [a], f, WaysNext(t, q, LineOf(t, a), z))
  {
    hide LastUse, SetIndex;
    var n, x := t.nodes[0].geometry.associativity, LineOf(t, a);
    if i :| 1 <= i < n && i < |f| && f[i] == x {
      assert q[i] == x;
    }
  }

  // The access is the newest of all.
  ghost predicate Ticked(t: Topology, init: seq<Access>, a: Access)
    requires Alone(t)
  {
    && (forall y: nat :: LastUse(t.lineSize, init, y) < a.timestamp)
    && forall y: nat ::
      LastUse(t.lineSize, init + [a], y) == if y == LineOf(t, a) then a.timestamp else LastUse(t.lineSize, init, y)
  }

  lemma {:induction false} WaysSorted(t: Topology, trace: seq<Access>, z: nat)
    requires Alone(t) && Ticking(trace)
    ensures Sorted(t, trace, FirstUses(t, trace, z), Ways(t, trace, z))
  {
    if trace != [] {
      var init, a := trace[..|trace| - 1], trace[|trace| - 1];
      WaysSorted(t, init, z);
      assert init + [a] == trace;
      LastUseNext(t.lineSize, init, a);
      forall y: nat ensures LastUse(t.lineSize, init, y) < a.timestamp {
        LastUseBounded(t.lineSize, init, y, a.timestamp);
      }
      var f, q, x := FirstUses(t, init, z), Ways(t, init, z), LineOf(t, a);
      if x !in f && SetIndex(t.nodes[0].geometry, x) == SetIndex(t.nodes[0].geometry, z) {
        NewUsed(t, init, a, f, q, z);
      } else if x in f && x !in Settlers(t.nodes[0].geometry.associativity, f) {
        LooseUsed(t, init, a, f, q, z);
      } else {
        OthersUsed(t, init, a, f, q, z);
      }
    }
  }

  /**
   * After any run with rising time stamps, a line is held if and only if it was used and settled, or nothing but
   * settlers of its set was used since.
   */
  lemma HeldIffOnlySettlersNewer(t: Topology, trace: seq<Access>, x: nat)
    requires Alone(t) && t.variant == AsWritten && Ticking(trace) && x * t.lineSize < ADDRESS_LIMIT
    ensures var g := t.nodes[0].geometry;
      var settlers := Settlers(g.associativity, FirstUses(t, trace, x));
      Find(g, RunAlone(t, trace)[0], x) != -1 <==>
        LastUse(t.lineSize, trace, x) >= 0 && (x in settlers || Newer(t.lineSize, g.Sets(), trace, x) <= settlers)
  {
    var g, q, f := t.nodes[0].geometry, Ways(t, trace, x), FirstUses(t, trace, x);
    RunHasWays(t, trace, x);
    WaysSorted(t, trace, x);
    RealTag(t, x);
    HasWaysFind(g, RunAlone(t, trace)[0], q, x);
    HeldFromSorted(t, trace, x, f, q);
  }

  // Only lines of the set that were used can be newer than one.
  lemma NewerWereUsed(t: Topology, trace: seq<Access>, x: nat)
    requires Alone(t)
    ensures Newer(t.lineSize, t.nodes[0].geometry.Sets(), trace, x) <= Elements(FirstUses(t, trace, x))
    ensures x !in Newer(t.lineSize, t.nodes[0].geometry.Sets(), trace, x)
    ensures LastUse(t.lineSize, trace, x) >= 0 <==> x in FirstUses(t, trace, x)
  {
  }

  lemma NewerIff(t: Topology, trace: seq<Access>, x: nat, y: nat)
    requires Alone(t) && y in FirstUses(t, trace, x)
    ensures y in Newer(t.lineSize, t.nodes[0].geometry.Sets(), trace, x) <==>
      LastUse(t.lineSize, trace, y) > LastUse(t.lineSize, trace, x)
  {
    assert LastUse(t.lineSize, trace, y) >= 0;
    assert y in LinesUsed(t.lineSize, trace);
  }

  lemma InWaysIsHeld(t: Topology, trace: seq<Access>, x: nat, f: seq<nat>, q: seq<nat>)
    requires Alone(t) && f == FirstUses(t, trace, x) && Sorted(t, trace, f, q) && x in q
    ensures var g := t.nodes[0].geometry;
      x in f && (x in Settlers(g.associativity, f) ||
        Newer(t.lineSize, g.Sets(), trace, x) <= Settlers(g.associativity, f))
  {
    hide LastUse, FirstUses, Newer;
    var n, newer := t.nodes[0].geometry.associativity, Newer(t.lineSize, t.nodes[0].geometry.Sets(), trace, x);
    var w :| 0 <= w < |q| && q[w] == x;
    NewerWereUsed(t, trace, x);
    if w == 0 {
      forall y | y in newer ensures y in Settlers(n, f) {
        NewerIff(t, trace, x, y);
      }
    }
  }

  lemma HeldIsInWays(t: Topology, trace: seq<Access>, x: nat, f: seq<nat>, q: seq<nat>)
    requires Alone(t) && Ticking(trace) && f == FirstUses(t, trace, x) && Sorted(t, trace, f, q) && x in f
    requires var g := t.nodes[0].geometry;
      x in Settlers(g.associativity, f) || Newer(t.lineSize, g.Sets(), trace, x) <= Settlers(g.associativity, f)
    ensures x in q
  {
    var n := t.nodes[0].geometry.associativity;
    NewerWereUsed(t, trace, x);
    hide LastUse, FirstUses, Newer, Elements, Ticking;
    if x in Settlers(n, f) {
      var i :| 1 <= i < n && i < |f| && f[i] == x;
      assert q[i] == x;
    } else {
      NewerIff(t, trace, x, q[0]);
      if LastUse(t.lineSize, trace, q[0]) == LastUse(t.lineSize, trace, x) {
        LastUseTellsLinesApart(t.lineSize, trace, q[0], x);
      }
    }
  }

  lemma HeldFromSorted(t: Topology, trace: seq<Access>, x: nat, f: seq<nat>, q: seq<nat>)
    requires Alone(t) && Ticking(trace) && f == FirstUses(t, trace, x) && Sorted(t, trace, f, q)
    ensures var g := t.nodes[0].geometry;
      var settlers := Settlers(g.associativity, f);
      x in q <==>
        LastUse(t.lineSize, trace, x) >= 0 && (x in settlers || Newer(t.lineSize, g.Sets(), trace, x) <= settlers)
  {
    hide LastUse, FirstUses, Newer, Settlers, Sorted, Ticking;
    NewerWereUsed(t, trace, x);
    if x in q {
      InWaysIsHeld(t, trace, x, f, q);
    }
    var g := t.nodes[0].geometry;
    var settlers := Settlers(g.associativity, f);
    if x in f && (x in settlers || Newer(t.lineSize, g.Sets(), trace, x) <= settlers) {
      HeldIsInWays(t, trace, x, f, q);
    }
  }

  lemma RealTag(t: Topology, x: nat)
    requires Alone(t) && x * t.lineSize < ADDRESS_LIMIT
    ensures Tag(t.nodes[0].geometry, x) < EMPTY_TAG
  {
    var a := Access(x * t.lineSize, 0, false);
    DivideUnique(a.address, t.lineSize, x, 0);
    TagIsReal(t, 0, a);
  }

  // ----- when recency is respected

  // Time of the last access to the line in way w of the set of x.
  function UsedIn(t: Topology, lines: Lines, trace: seq<Access>, x: nat, w: nat): int
    requires Alone(t) && |lines| == t.nodes[0].geometry.size && w < t.nodes[0].geometry.associativity
  {
    LastUse(t.lineSize, trace, LineInWay(t.nodes[0].geometry, lines, x, w))
  }

  // No line in the set of x was used before the one in way v.
  ghost predicate IsOldest(t: Topology, lines: Lines, trace: seq<Access>, x: nat, v: nat)
    requires Alone(t) && |lines| == t.nodes[0].geometry.size && v < t.nodes[0].geometry.associativity
  {
    forall w :: 0 <= w < t.nodes[0].geometry.associativity ==>
      UsedIn(t, lines, trace, x, v) <= UsedIn(t, lines, trace, x, w)
  }

  // Line r may be given up for x: it is unused, or its set is full and nothing in it was used earlier.
  ghost predicate LeastRecentlyUsed(t: Topology, lines: Lines, trace: seq<Access>, x: nat, r: nat)
    requires Alone(t) && |lines| == t.nodes[0].geometry.size && InWindow(t.nodes[0].geometry, x, r)
  {
    var g := t.nodes[0].geometry;
    lines[r].state == Invalid || (Full(g, lines, x) && IsOldest(t, lines, trace, x, r - Base(g, x)))
  }

  lemma UsedInIs(t: Topology, lines: Lines, trace: seq<Access>, x: nat, q: seq<nat>, w: nat)
    requires Alone(t) && |lines| == t.nodes[0].geometry.size && HasWays(t.nodes[0].geometry, lines, q, x) && w < |q|
    ensures w < t.nodes[0].geometry.associativity
    ensures UsedIn(t, lines, trace, x, w) == LastUse(t.lineSize, trace, q[w])
  {
    hide Base, Tag, SetIndex, LastUse;
    TagAndSetNameTheLine(t.nodes[0].geometry, LineInWay(t.nodes[0].geometry, lines, x, w), q[w]);
  }

  // The lines of the set that are no settlers were all used before every settler.
  ghost predicate SettlersAreNewest(t: Topology, trace: seq<Access>, f: seq<nat>)
    requires Alone(t)
  {
    var settlers := Settlers(t.nodes[0].geometry.associativity, f);
    forall y, z :: y in settlers && z in f && z !in settlers ==>
      LastUse(t.lineSize, trace, z) < LastUse(t.lineSize, trace, y)
  }

  lemma FirstWayIsOldestIff(t: Topology, trace: seq<Access>, x: nat, f: seq<nat>, q: seq<nat>)
    requires Alone(t) && Ticking(trace) && f == FirstUses(t, trace, x) && Sorted(t, trace, f, q) && |q| > 0
    ensures SettlersAreNewest(t, trace, f) <==>
      forall w :: 0 <= w < |q| ==> LastUse(t.lineSize, trace, q[0]) <= LastUse(t.lineSize, trace, q[w])
  {
    hide Valid, FirstUses, LastUse, SetIndex, Ticking;
    GeometryOf(t);
    var n := t.nodes[0].geometry.associativity;
    assert forall y :: y in f ==> LastUse(t.lineSize, trace, y) >= 0;
    if SettlersAreNewest(t, trace, f) {
      forall w | 0 <= w < |q| ensures LastUse(t.lineSize, trace, q[0]) <= LastUse(t.lineSize, trace, q[w]) {
        assert w > 0 ==> q[w] in Settlers(n, f);
      }
    }
    if forall w :: 0 <= w < |q| ==> LastUse(t.lineSize, trace, q[0]) <= LastUse(t.lineSize, trace, q[w]) {
      forall y, z | y in Settlers(n, f) && z in f && z !in Settlers(n, f)
        ensures LastUse(t.lineSize, trace, z) < LastUse(t.lineSize, trace, y)
      {
        var i :| 1 <= i < n && i < |f| && f[i] == y;
        assert q[i] == y;
        if LastUse(t.lineSize, trace, z) == LastUse(t.lineSize, trace, y) {
          LastUseTellsLinesApart(t.lineSize, trace, z, y);
        }
      }
    }
  }

  lemma WrittenVictimIsOldestIff(t: Topology, lines: Lines, trace: seq<Access>, x: nat)
    requires Alone(t) && |lines| == t.nodes[0].geometry.size
    ensures var g := t.nodes[0].geometry;
      LeastRecentlyUsed(t, lines, trace, x, Victim(AsWritten, g, lines, x)) <==>
        !Full(g, lines, x) || IsOldest(t, lines, trace, x, 0)
  {
    hide Base, Victim, IsOldest;
    WrittenVictim(t.nodes[0].geometry, lines, x);
    assert InWindow(t.nodes[0].geometry, x, Victim(AsWritten, t.nodes[0].geometry, lines, x));
  }

  lemma IsOldestIff(t: Topology, lines: Lines, trace: seq<Access>, x: nat, q: seq<nat>)
    requires Alone(t) && |lines| == t.nodes[0].geometry.size && HasWays(t.nodes[0].geometry, lines, q, x)
    requires |q| == t.nodes[0].geometry.associativity
    ensures IsOldest(t, lines, trace, x, 0) <==>
      forall w :: 0 <= w < |q| ==> LastUse(t.lineSize, trace, q[0]) <= LastUse(t.lineSize, trace, q[w])
  {
    hide LastUse, HasWays, UsedIn;
    forall w | 0 <= w < |q| ensures UsedIn(t, lines, trace, x, w) == LastUse(t.lineSize, trace, q[w]) {
      UsedInIs(t, lines, trace, x, q, w);
    }
  }

  lemma FullIff(g: Geometry, lines: Lines, q: seq<nat>, x: nat)
    requires g.Valid() && |lines| == g.size && HasWays(g, lines, q, x)
    ensures Full(g, lines, x) <==> |q| == g.associativity
  {
    hide Base, Tag, SetIndex;
    if |q| < g.associativity {
      assert InWindow(g, x, Base(g, x) + |q|);
    }
  }

  /**
   * To bring in line x, a least recently used line goes if and only if the set has an unused way or no line in it was
   * used before the one in its first way; in terms of the trace, if and only if fewer lines of the set were used so
   * far than it has ways, or each of its settlers was used after all other lines.
   */
  lemma WrittenVictimIsLeastRecentIff(t: Topology, trace: seq<Access>, x: nat)
    requires Alone(t) && t.variant == AsWritten && Ticking(trace)
    ensures var g, lines, f := t.nodes[0].geometry, RunAlone(t, trace)[0], FirstUses(t, trace, x);
      var oldest := LeastRecentlyUsed(t, lines, trace, x, Victim(AsWritten, g, lines, x));
      && (oldest <==> !Full(g, lines, x) || IsOldest(t, lines, trace, x, 0))
      && (oldest <==> |f| < g.associativity || SettlersAreNewest(t, trace, f))
  {
    hide Base, Tag, SetIndex, Find, Victim, FirstUses, Ways, RunAlone, SettlersAreNewest, LastUse, HasWays, IsOldest,
      Full;
    hide Settlers;
    var g, lines := t.nodes[0].geometry, RunAlone(t, trace)[0];
    var f, q := FirstUses(t, trace, x), Ways(t, trace, x);
    RunHasWays(t, trace, x);
    WaysSorted(t, trace, x);
    WrittenVictimIsOldestIff(t, lines, trace, x);
    FullIff(g, lines, q, x);
    if |q| == g.associativity {
      IsOldestIff(t, lines, trace, x, q);
      FirstWayIsOldestIff(t, trace, x, f, q);
    }
  }

  // ----- an example

  // One set of two ways.
  function TwoWays(): (t: Topology)
    ensures Alone(t) && t.variant == AsWritten && t.nodes[0].geometry.Sets() == 1
  {
    var t := Topology(AsWritten, 64, [Node(Geometry(2, 2), 0, None, [], [], true, false)]);
    assert Linked(t, 0);
    t
  }

  // Lines 0, 1 and 2 are read at times 1, 2 and 3.
  function ThreeReads(n: nat): (trace: seq<Access>)
    requires n <= 3
    ensures |trace| == n && Ticking(trace)
    ensures forall i :: 0 <= i < n ==> trace[i] == Access(64 * i, i + 1, false)
  {
    if n == 0 then [] else ThreeReads(n - 1) + [Access(64 * (n - 1), n, false)]
  }

  lemma OneSet(z: nat)
    ensures var g := TwoWays().nodes[0].geometry;
      g.size == g.associativity == 2 && Tag(g, z) == z && SetIndex(g, z) == 0 && Base(g, z) == 0
  {
    DivideUnique(z, 1, z, 0);
  }

  lemma ReadNext(n: nat)
    requires n < 3
    ensures ThreeReads(n + 1) == ThreeReads(n) + [Access(64 * n, n + 1, false)]
    ensures LineOf(TwoWays(), Access(64 * n, n + 1, false)) == n && TwoWays().lineSize == 64
  {
    DivideUnique(64 * n, 64, n, 0);
  }

  lemma WaysAfter(t: Topology, trace: seq<Access>, a: Access, z: nat)
    requires Alone(t)
    ensures Ways(t, trace + [a], z) == WaysNext(t, Ways(t, trace, z), LineOf(t, a), z)
  {
    assert (trace + [a])[..|trace + [a]| - 1] == trace;
  }

  function ExpectedWays(n: nat): seq<nat> {
    if n == 0 then [] else if n == 1 then [0] else if n == 2 then [0, 1] else [2, 1]
  }

  lemma ExampleNext(n: nat, z: nat)
    requires n < 3
    ensures WaysNext(TwoWays(), ExpectedWays(n), n, z) == ExpectedWays(n + 1)
  {
    hide Tag, SetIndex, Base, Alone;
    OneSet(z);
    OneSet(n);
  }

  lemma NoWays(t: Topology, z: nat)
    requires Alone(t)
    ensures Ways(t, [], z) == []
  {
  }

  lemma ExampleWays(n: nat, z: nat)
    requires n <= 3
    ensures Ways(TwoWays(), ThreeReads(n), z) == ExpectedWays(n)
  {
    hide Ways, WaysNext, Alone, TwoWays, LineOf;
    if n == 0 {
      NoWays(TwoWays(), z);
    } else {
      ExampleWays(n - 1, z);
      ReadNext(n - 1);
      WaysAfter(TwoWays(), ThreeReads(n - 1), Access(64 * (n - 1), n, false), z);
      ExampleNext(n - 1, z);
    }
  }

  // Only refills so far, so no stamps.
  lemma ExampleStamps(n: nat)
    requires n <= 3
    ensures var lines := RunAlone(TwoWays(), ThreeReads(n))[0];
      |lines| == 2 && lines[0].lastUsed == lines[1].lastUsed == 0
  {
    hide Base, Tag, SetIndex, TwoWays, LineOf, ThreeReads, AccessCache, Ways, HasWays, Find, Victim;
    var t := TwoWays();
    OneSet(0);
    if n > 0 {
      ExampleStamps(n - 1);
      ReadNext(n - 1);
      var trace, a := ThreeReads(n - 1), Access(64 * (n - 1), n, false);
      assert ThreeReads(n)[..n - 1] == trace;
      RunHasWays(t, trace, n - 1);
      ExampleWays(n - 1, n - 1);
      OneSet(n - 1);
      HasWaysFind(t.nodes[0].geometry, RunAlone(t, trace)[0], Ways(t, trace, n - 1), n - 1);
      var i, x := AloneChange(t, RunAlone(t, trace), a);
    }
  }

  lemma ExampleUses()
    ensures LastUse(64, ThreeReads(3), 2) == 3 && LastUse(64, ThreeReads(3), 1) == 2
  {
    ReadNext(1);
    ReadNext(2);
    LastUseNext(64, ThreeReads(2), Access(128, 3, false));
    LastUseNext(64, ThreeReads(1), Access(64, 2, false));
  }

  /**
   * With two ways, the third line takes the place of the first and is at once the next to go, although the second was
   * used before it. By the stamps the choice looks right, because the refills did not set any.
   */
  lemma NewestIsEvicted()
    ensures var t, trace := TwoWays(), ThreeReads(3);
      var g, lines := t.nodes[0].geometry, RunAlone(t, trace)[0];
      && Find(g, lines, 3) == -1 && Victim(AsWritten, g, lines, 3) == 0
      && UsedIn(t, lines, trace, 3, 0) == 3 && UsedIn(t, lines, trace, 3, 1) == 2
      && LeastRecent(g, lines, 3, 0) && !LeastRecentlyUsed(t, lines, trace, 3, 0)
  {
    hide Base, Tag, SetIndex, TwoWays, ThreeReads, AccessCache, Ways, Find, Victim, RunAlone, LastUse, UsedIn;
    var t, trace := TwoWays(), ThreeReads(3);
    var g, lines := t.nodes[0].geometry, RunAlone(t, trace)[0];
    OneSet(3);
    RunHasWays(t, trace, 3);
    ExampleWays(3, 3);
    ExampleStamps(3);
    ExampleUses();
    ReadNext(0);
    HasWaysFind(g, lines, [2, 1], 3);
    WrittenVictim(g, lines, 3);
    UsedInIs(t, lines, trace, 3, [2, 1], 0);
    UsedInIs(t, lines, trace, 3, [2, 1], 1);
  }

  // ----- when the cache is a least recently used cache all the same

  // Line x is held after the trace exactly if few lines of its set were used since.
  ghost predicate HeldLikeLru(t: Topology, trace: seq<Access>, x: nat)
    requires Alone(t)
  {
    var g := t.nodes[0].geometry;
    Find(g, RunAlone(t, trace)[0], x) != -1 <==>
      LastUse(t.lineSize, trace, x) >= 0 && |Newer(t.lineSize, g.Sets(), trace, x)| < g.associativity
  }

  // Line k of set 0.
  function Nth(t: Topology, k: nat): nat
    requires Alone(t)
  {
    k * t.nodes[0].geometry.Sets()
  }

  lemma NthApart(t: Topology, j: nat, k: nat)
    requires Alone(t) && j < k
    ensures Nth(t, j) < Nth(t, k)
  {
    NextBlock(j, k, t.nodes[0].geometry.Sets());
  }

  function ReadOf(t: Topology, k: nat, time: nat): Access
    requires Alone(t)
  {
    Access(Nth(t, k) * t.lineSize, time, false)
  }

  lemma ReadOfIs(t: Topology, k: nat, n: nat, time: nat)
    requires Alone(t) && k <= n && Nth(t, n) * t.lineSize < ADDRESS_LIMIT
    ensures Addressable(ReadOf(t, k, time)) && LineOf(t, ReadOf(t, k, time)) == Nth(t, k)
    ensures SetIndex(t.nodes[0].geometry, Nth(t, k)) == 0
  {
    var sets := t.nodes[0].geometry.Sets();
    MulMonotone(k, n, sets);
    MulMonotone(Nth(t, k), Nth(t, n), t.lineSize);
    DivideUnique(Nth(t, k) * t.lineSize, t.lineSize, Nth(t, k), 0);
    DivideUnique(Nth(t, k), sets, k, 0);
  }

  // Read line k of set 0 at time k, for every k below n.
  function ReadInTurn(t: Topology, n: nat): (trace: seq<Access>)
    requires Alone(t)
    ensures |trace| == n && forall k :: 0 <= k < n ==> trace[k] == ReadOf(t, k, k)
  {
    if n == 0 then [] else ReadInTurn(t, n - 1) + [ReadOf(t, n - 1, n - 1)]
  }

  // All lines of set 0 that fit in, the first of them once more, and another one.
  function Disturbing(t: Topology): seq<Access>
    requires Alone(t)
  {
    var n := t.nodes[0].geometry.associativity;
    ReadInTurn(t, n) + [ReadOf(t, 0, n)] + [ReadOf(t, n, n + 1)]
  }

  // These are the first n lines of set 0.
  ghost predicate InTurn(t: Topology, f: seq<nat>, n: nat)
    requires Alone(t)
  {
    |f| == n && forall k :: 0 <= k < n ==> f[k] == Nth(t, k)
  }

  lemma InTurnNext(t: Topology, f: seq<nat>, n: nat)
    requires Alone(t) && InTurn(t, f, n)
    ensures Nth(t, n) !in f && InTurn(t, f + [Nth(t, n)], n + 1)
  {
    hide Nth;
    forall k | 0 <= k < n ensures f[k] < Nth(t, n) {
      NthApart(t, k, n);
    }
  }

  lemma FirstUsesNext(t: Topology, trace: seq<Access>, a: Access, z: nat)
    requires Alone(t) && SetIndex(t.nodes[0].geometry, LineOf(t, a)) == SetIndex(t.nodes[0].geometry, z)
    ensures var f := FirstUses(t, trace, z);
      FirstUses(t, trace + [a], z) == if LineOf(t, a) in f then f else f + [LineOf(t, a)]
  {
    assert (trace + [a])[..|trace + [a]| - 1] == trace;
  }

  lemma TurnNext(t: Topology, n: nat, limit: nat)
    requires Alone(t) && n <= limit && Nth(t, limit) * t.lineSize < ADDRESS_LIMIT
    requires InTurn(t, FirstUses(t, ReadInTurn(t, n), 0), n)
    ensures InTurn(t, FirstUses(t, ReadInTurn(t, n + 1), 0), n + 1)
  {
    hide Valid, Nth, InTurn, FirstUses, SetIndex, LineOf, ReadOf;
    var trace, a := ReadInTurn(t, n), ReadOf(t, n, n);
    assert ReadInTurn(t, n + 1) == trace + [a];
    ReadOfIs(t, n, limit, n);
    ZeroIsInSetZero(t);
    FirstUsesNext(t, trace, a, 0);
    InTurnNext(t, FirstUses(t, trace, 0), n);
  }

  lemma TurnTicks(t: Topology, n: nat, limit: nat)
    requires Alone(t) && n <= limit + 1 && Nth(t, limit) * t.lineSize < ADDRESS_LIMIT
    ensures Ticking(ReadInTurn(t, n))
  {
    hide Nth;
    forall k | 0 <= k < n ensures Addressable(ReadInTurn(t, n)[k]) {
      ReadOfIs(t, k, limit, k);
    }
  }

  lemma {:induction false} TurnFirstUses(t: Topology, n: nat, limit: nat)
    requires Alone(t) && n <= limit + 1 && Nth(t, limit) * t.lineSize < ADDRESS_LIMIT
    ensures InTurn(t, FirstUses(t, ReadInTurn(t, n), 0), n)
  {
    hide FirstUses;
    if n == 0 {
      NothingUsed(t, 0);
    } else {
      TurnFirstUses(t, n - 1, limit);
      TurnNext(t, n - 1, limit);
    }
  }

  lemma NothingUsed(t: Topology, z: nat)
    requires Alone(t)
    ensures FirstUses(t, [], z) == []
  {
  }

  lemma ZeroIsInSetZero(t: Topology)
    requires Alone(t)
    ensures SetIndex(t.nodes[0].geometry, 0) == 0
  {
  }

  lemma DisturbingUses(t: Topology)
    requires Alone(t) && Nth(t, t.nodes[0].geometry.associativity) * t.lineSize < ADDRESS_LIMIT
    ensures var n := t.nodes[0].geometry.associativity;
      InTurn(t, FirstUses(t, Disturbing(t), 0), n + 1)
  {
    hide Valid, Nth, FirstUses, SetIndex, LineOf, ReadOf;
    GeometryOf(t);
    var n := t.nodes[0].geometry.associativity;
    var trace := ReadInTurn(t, n);
    TurnFirstUses(t, n, n);
    ReadOfIs(t, 0, n, n);
    ReadOfIs(t, n, n, n + 1);
    ZeroIsInSetZero(t);
    FirstUsesNext(t, trace, ReadOf(t, 0, n), 0);
    FirstUsesNext(t, trace + [ReadOf(t, 0, n)], ReadOf(t, n, n + 1), 0);
    assert FirstUses(t, trace, 0)[0] == Nth(t, 0);
    InTurnNext(t, FirstUses(t, trace, 0), n);
  }

  lemma DisturbingTicks(t: Topology)
    requires Alone(t) && Nth(t, t.nodes[0].geometry.associativity) * t.lineSize < ADDRESS_LIMIT
    ensures Ticking(Disturbing(t))
  {
    hide Valid, Nth, LineOf;
    var n := t.nodes[0].geometry.associativity;
    TurnTicks(t, n, n);
    ReadOfIs(t, 0, n, n);
    ReadOfIs(t, n, n, n + 1);
  }

  // Line 0 was used last but one.
  lemma DisturbingNewer(t: Topology)
    requires Alone(t) && Nth(t, t.nodes[0].geometry.associativity) * t.lineSize < ADDRESS_LIMIT
    ensures var g := t.nodes[0].geometry;
      && LastUse(t.lineSize, Disturbing(t), 0) >= 0
      && Newer(t.lineSize, g.Sets(), Disturbing(t), 0) == {Nth(t, g.associativity)}
  {
    var g, n := t.nodes[0].geometry, t.nodes[0].geometry.associativity;
    var trace, a, b := ReadInTurn(t, n), ReadOf(t, 0, n), ReadOf(t, n, n + 1);
    ReadOfIs(t, 0, n, n);
    ReadOfIs(t, n, n, n + 1);
    NthApart(t, 0, n);
    LastUseNext(t.lineSize, trace, a);
    LastUseNext(t.lineSize, trace + [a], b);
    hide Valid, Nth, ReadOf, ReadInTurn, LastUse;
    forall y: nat ensures LastUse(t.lineSize, trace, y) < n {
      LastUseBounded(t.lineSize, trace, y, n);
    }
    assert Disturbing(t)[n + 1] == b;
  }

  lemma EndsDoNotSettle(n: nat, f: seq<nat>)
    requires n >= 1 && |f| == n + 1 && forall i, j :: 0 <= i < j < |f| ==> f[i] != f[j]
    ensures f[0] !in Settlers(n, f) && f[n] !in Settlers(n, f)
  {
  }

  lemma DisturbingIsNotLru(t: Topology)
    requires Alone(t) && t.variant == AsWritten && t.nodes[0].geometry.associativity >= 2
    requires Nth(t, t.nodes[0].geometry.associativity) * t.lineSize < ADDRESS_LIMIT
    ensures Ticking(Disturbing(t)) && !HeldLikeLru(t, Disturbing(t), 0)
  {
    hide Valid, Nth, FirstUses, SetIndex, LineOf, ReadOf, ReadInTurn, LastUse, Disturbing, Newer, Settlers, Ticking;
    GeometryOf(t);
    var n, trace := t.nodes[0].geometry.associativity, Disturbing(t);
    DisturbingTicks(t);
    DisturbingUses(t);
    DisturbingNewer(t);
    var f := FirstUses(t, trace, 0);
    EndsDoNotSettle(n, f);
    HeldIffOnlySettlersNewer(t, trace, 0);
    ZerothIsZero(t);
    assert f[0] == Nth(t, 0) && f[n] == Nth(t, n);
  }

  lemma ZerothIsZero(t: Topology)
    requires Alone(t)
    ensures Nth(t, 0) == 0
  {
  }

  // With one way there are no settlers.
  lemma DirectMappedIsLru(t: Topology, trace: seq<Access>, x: nat)
    requires Alone(t) && t.variant == AsWritten && t.nodes[0].geometry.associativity == 1
    requires Ticking(trace) && x * t.lineSize < ADDRESS_LIMIT
    ensures HeldLikeLru(t, trace, x)
  {
    hide Valid, FirstUses, SetIndex, LastUse, Newer;
    HeldIffOnlySettlersNewer(t, trace, x);
  }

  function Below(n: nat): (s: set<nat>)
    ensures |s| == n && forall i: nat :: i in s <==> i < n
  {
    if n == 0 then {} else Below(n - 1) + {n - 1}
  }

  lemma DistinctBelow(q: seq<nat>, n: nat)
    requires forall i, j :: 0 <= i < j < |q| ==> q[i] != q[j]
    requires forall i :: 0 <= i < |q| ==> q[i] < n
    ensures |q| <= n
  {
    ElementsCount(q);
    SubsetIsSmaller(Elements(q), Below(n));
  }

  // A line with an address has a tag below the number of ways.
  lemma TagBelow(t: Topology, trace: seq<Access>, y: nat)
    requires Alone(t) && Ticking(trace) && LastUse(t.lineSize, trace, y) >= 0
    requires Nth(t, t.nodes[0].geometry.associativity) * t.lineSize >= ADDRESS_LIMIT
    ensures Tag(t.nodes[0].geometry, y) < t.nodes[0].geometry.associativity
  {
    var g := t.nodes[0].geometry;
    var i :| 0 <= i < |trace| && trace[i].address / t.lineSize == y;
    QuotientSmaller(trace[i].address, t.lineSize);
    QuotientSmaller(y, g.Sets());
    if g.associativity <= Tag(g, y) {
      MulMonotone(g.associativity, Tag(g, y), g.Sets());
      MulMonotone(Nth(t, g.associativity), y, t.lineSize);
      assert false;
    }
  }

  lemma FewFirstUses(t: Topology, trace: seq<Access>, x: nat)
    requires Alone(t) && Ticking(trace) && Nth(t, t.nodes[0].geometry.associativity) * t.lineSize >= ADDRESS_LIMIT
    ensures |FirstUses(t, trace, x)| <= t.nodes[0].geometry.associativity
  {
    hide Valid, FirstUses, LastUse, SetIndex, Tag, Nth;
    GeometryOf(t);
    var g, f := t.nodes[0].geometry, FirstUses(t, trace, x);
    var tags := seq(|f|, i requires 0 <= i < |f| => Tag(g, f[i]));
    forall i | 0 <= i < |tags| ensures tags[i] < g.associativity {
      assert f[i] in f;
      TagBelow(t, trace, f[i]);
    }
    forall i, j | 0 <= i < j < |tags| ensures tags[i] != tags[j] {
      assert f[i] in f && f[j] in f;
      TagAndSetNameTheLine(g, f[i], f[j]);
    }
    DistinctBelow(tags, g.associativity);
  }

  // If all lines used fit in, few are newer than any, and the first is older than settlers only.
  lemma AllFit(n: nat, f: seq<nat>, newer: set<nat>, x: nat)
    requires |f| <= n && x in f && x !in newer && newer <= Elements(f)
    ensures |newer| < n && (x in Settlers(n, f) || newer <= Settlers(n, f))
  {
    ElementsCount(f);
    SubsetIsSmaller(newer + {x}, Elements(f));
    if x !in Settlers(n, f) {
      SettlersOfFew(n, f, x);
    }
  }

  lemma RoomForAllIsLru(t: Topology, trace: seq<Access>, x: nat)
    requires Alone(t) && t.variant == AsWritten && Ticking(trace) && x * t.lineSize < ADDRESS_LIMIT
    requires Nth(t, t.nodes[0].geometry.associativity) * t.lineSize >= ADDRESS_LIMIT
    ensures HeldLikeLru(t, trace, x)
  {
    hide Valid, FirstUses, LastUse, Newer, Nth, Settlers, Ticking, Elements;
    GeometryOf(t);
    var g, f := t.nodes[0].geometry, FirstUses(t, trace, x);
    NewerWereUsed(t, trace, x);
    FewFirstUses(t, trace, x);
    if x in f {
      AllFit(g.associativity, f, Newer(t.lineSize, g.Sets(), trace, x), x);
    }
    HeldIffOnlySettlersNewer(t, trace, x);
  }

  /**
   * As written, the cache holds after every run what a least recently used cache holds if and only if it has one
   * way, or a way for every line of the address space in set 0.
   */
  lemma WrittenIsLruIff(t: Topology)
    requires Alone(t) && t.variant == AsWritten
    ensures (forall trace, x: nat :: Ticking(trace) && x * t.lineSize < ADDRESS_LIMIT ==> HeldLikeLru(t, trace, x)) <==>
      t.nodes[0].geometry.associativity == 1 || Nth(t, t.nodes[0].geometry.associativity) * t.lineSize >= ADDRESS_LIMIT
  {
    hide Valid, HeldLikeLru, Nth, Disturbing;
    GeometryOf(t);
    if t.nodes[0].geometry.associativity == 1 {
      forall trace, x: nat | Ticking(trace) && x * t.lineSize < ADDRESS_LIMIT ensures HeldLikeLru(t, trace, x) {
        DirectMappedIsLru(t, trace, x);
      }
    } else if Nth(t, t.nodes[0].geometry.associativity) * t.lineSize >= ADDRESS_LIMIT {
      forall trace, x: nat | Ticking(trace) && x * t.lineSize < ADDRESS_LIMIT ensures HeldLikeLru(t, trace, x) {
        RoomForAllIsLru(t, trace, x);
      }
    } else {
      DisturbingIsNotLru(t);
    }
  }
}
