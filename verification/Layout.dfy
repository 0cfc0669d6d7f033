/**
 * Where a set lies. The tests of the caches (cache/state_test.c:121-137) place sets next to each other; the macro
 * at cache/state.h:26 yields the number of the set without the number of ways, so that sets overlap.
 */
module Layout {
  import opened Arith
  import opened Msi
  import opened CacheSpec
  import opened Coherence
  import opened Hierarchy
  import Effects
  import Lru

  // The macro's result is the first way of a line's set.
  function WrittenBase(g: Geometry, line: nat): (b: nat)
    requires g.Valid()
    ensures b + g.associativity <= g.size
  {
    MulMonotone(1, g.associativity, g.Sets() - 1);
    NextBlock(g.Sets() - 1, g.Sets(), g.associativity);
    SetIndex(g, line)
  }

  predicate InWrittenWindow(g: Geometry, line: nat, i: int)
    requires g.Valid()
  {
    WrittenBase(g, line) <= i < WrittenBase(g, line) + g.associativity
  }

  /** The first ways and the tags that the tests ask for, in caches of 64 lines with one way, 64 ways and four. */
  lemma TestedValues()
    ensures var g := Geometry(64, 1);
      && Base(g, 0) == 0 && Base(g, 1) == 1 && Base(g, 64) == 0 && Base(g, 67) == 3
      && Tag(g, 0) == 0 && Tag(g, 1) == 0 && Tag(g, 64) == 1 && Tag(g, 67) == 1 && Tag(g, 203 * 64 + 3) == 203
    ensures var g := Geometry(64, 64);
      && Base(g, 0) == Base(g, 1) == Base(g, 49) == Base(g, 64) == Base(g, 67) == Base(g, 270) == 0
      && Tag(g, 0) == 0 && Tag(g, 1) == 1 && Tag(g, 49) == 49 && Tag(g, 64) == 64 && Tag(g, 67) == 67
      && Tag(g, 270) == 270
    ensures var g := Geometry(64, 4);
      && Base(g, 0) == 0 && Base(g, 1) == 4 && Base(g, 4) == 16 && Base(g, 16) == 0 && Base(g, 17) == 4
      && Base(g, 64) == 0 && Base(g, 67) == 3 * 4
      && Tag(g, 0) == 0 && Tag(g, 1) == 0 && Tag(g, 4) == 0 && Tag(g, 16) == 1 && Tag(g, 17) == 1
      && Tag(g, 64) == 4 && Tag(g, 67) == 4
  {
  }

  /** As tested, two lines share ways exactly if they are in the same set. */
  lemma TestedWindowsMeetIff(g: Geometry, x: nat, y: nat)
    requires g.Valid()
    ensures (exists i :: InWindow(g, x, i) && InWindow(g, y, i)) <==> SetIndex(g, x) == SetIndex(g, y)
  {
    NextBlock(SetIndex(g, x), SetIndex(g, y), g.associativity);
    NextBlock(SetIndex(g, y), SetIndex(g, x), g.associativity);
    if SetIndex(g, x) == SetIndex(g, y) {
      assert InWindow(g, x, Base(g, x)) && InWindow(g, y, Base(g, x));
    }
  }

  /** As written, they share ways exactly if their sets are fewer apart than a set has ways. */
  lemma WrittenWindowsMeetIff(g: Geometry, x: nat, y: nat)
    requires g.Valid()
    ensures (exists i :: InWrittenWindow(g, x, i) && InWrittenWindow(g, y, i)) <==>
      -(g.associativity as int) < SetIndex(g, x) - SetIndex(g, y) < g.associativity
  {
    var i := if SetIndex(g, x) < SetIndex(g, y) then SetIndex(g, y) else SetIndex(g, x);
    if -(g.associativity as int) < SetIndex(g, x) - SetIndex(g, y) < g.associativity {
      assert InWrittenWindow(g, x, i) && InWrittenWindow(g, y, i);
    }
  }

  // ----- a cache by itself in the layout as written

  function WrittenFind(g: Geometry, lines: Lines, line: nat): (r: int)
    requires g.Valid() && |lines| == g.size
    ensures r == -1 || (InWrittenWindow(g, line, r) && lines[r].tag == Tag(g, line))
    ensures r == -1 <==> forall k :: InWrittenWindow(g, line, k) ==> lines[k].tag != Tag(g, line)
  {
    FindFrom(lines, Tag(g, line), WrittenBase(g, line), WrittenBase(g, line) + g.associativity)
  }

  function WrittenVictim(v: Variant, g: Geometry, lines: Lines, line: nat): (r: nat)
    requires g.Valid() && |lines| == g.size
    ensures InWrittenWindow(g, line, r) && r < g.size
  {
    var lo := WrittenBase(g, line);
    VictimFrom(v, lines, lo, lo + g.associativity, lo, lines[lo].lastUsed, lo)
  }

  // What an access makes of the lines of a cache with no other caches around it, and whether it reports a miss.
  function WrittenAccess(v: Variant, g: Geometry, lineSize: nat, lines: Lines, a: Access): (r: (Lines, bool))
    requires g.Valid() && |lines| == g.size && lineSize > 0
    ensures |r.0| == g.size
  {
    var line, event := a.address / lineSize, if a.write then Write else Read;
    var hit := WrittenFind(g, lines, line);
    if hit != -1 then
      (lines[hit := CacheLine(lines[hit].tag, NewState(lines[hit].state, event).0, a.timestamp)], false)
    else
      var i := WrittenVictim(v, g, lines, line);
      var stamp := if v == AsWritten then lines[i].lastUsed else a.timestamp;
      (lines[i := CacheLine(Tag(g, line), NewState(Invalid, event).0, stamp)], true)
  }

  // With one way or one set, both layouts are the same.
  lemma SameLayout(g: Geometry, x: nat)
    requires g.Valid() && (g.associativity == 1 || g.Sets() == 1)
    ensures WrittenBase(g, x) == Base(g, x)
  {
  }

  /** So there the access in the layout as written is the access of a cache by itself. */
  lemma WrittenIsTested(t: Topology, s: System, a: Access)
    requires Lru.Alone(t) && Shaped(t, s) && t.nodes[0].reports
    requires t.nodes[0].geometry.associativity == 1 || t.nodes[0].geometry.Sets() == 1
    ensures var (lines, missed) := WrittenAccess(t.variant, t.nodes[0].geometry, t.lineSize, s[0], a);
      var r := AccessCache(t, s, 0, a);
      r.system == [lines] && (missed <==> r.reports != [])
  {
    hide WrittenBase, Base, FindFrom, VictimFrom;
    SameLayout(t.nodes[0].geometry, LineOf(t, a));
    Effects.EntryExactly(t, s, 0, a);
  }

  function Unused(g: Geometry): (lines: Lines)
    ensures |lines| == g.size
  {
    seq(g.size, i => UNUSED)
  }

  // Line x comes first, into an unused cache, then line y; true if y is taken to be there.
  predicate TakenFor(v: Variant, g: Geometry, lineSize: nat, x: nat, y: nat)
    requires g.Valid() && lineSize > 0
  {
    var lines := WrittenAccess(v, g, lineSize, Unused(g), Access(x * lineSize, 0, false)).0;
    !WrittenAccess(v, g, lineSize, lines, Access(y * lineSize, 1, false)).1
  }

  // The first access of all refills the first way of its set.
  lemma FirstRefill(v: Variant, g: Geometry, lineSize: nat, a: Access)
    requires g.Valid() && lineSize > 0 && Tag(g, a.address / lineSize) < EMPTY_TAG
    ensures var x := a.address / lineSize;
      var (lines, missed) := WrittenAccess(v, g, lineSize, Unused(g), a);
      missed && forall k :: 0 <= k < g.size ==>
        lines[k].tag == if k == WrittenBase(g, x) then Tag(g, x) else EMPTY_TAG
  {
  }

  lemma TakenForIff(v: Variant, g: Geometry, lineSize: nat, x: nat, y: nat)
    requires g.Valid() && lineSize > 0 && Tag(g, x) < EMPTY_TAG && Tag(g, y) < EMPTY_TAG
    ensures TakenFor(v, g, lineSize, x, y) <==> Tag(g, x) == Tag(g, y) && InWrittenWindow(g, y, WrittenBase(g, x))
  {
    var a, b := Access(x * lineSize, 0, false), Access(y * lineSize, 1, false);
    DivideUnique(a.address, lineSize, x, 0);
    DivideUnique(b.address, lineSize, y, 0);
    FirstRefill(v, g, lineSize, a);
    hide WrittenVictim, Tag, WrittenBase, Unused;
    var lines := WrittenAccess(v, g, lineSize, Unused(g), a).0;
    var i := WrittenBase(g, x);
    if Tag(g, x) == Tag(g, y) && InWrittenWindow(g, y, i) {
      assert lines[i].tag == Tag(g, y);
    }
    var r := WrittenFind(g, lines, y);
    assert r != -1 ==> lines[r].tag == Tag(g, y) && r == i;
  }

  /**
   * As written, when line x alone has been used, line y is taken to be there if and only if it has the same tag and
   * the set of x begins at a way of the set of y. No miss is reported for y then, though it was never used.
   */
  lemma WrittenFalseHitIff(v: Variant, g: Geometry, lineSize: nat, x: nat, y: nat)
    requires g.Valid() && lineSize > 0 && Tag(g, x) < EMPTY_TAG && Tag(g, y) < EMPTY_TAG
    ensures TakenFor(v, g, lineSize, x, y) <==>
      Tag(g, x) == Tag(g, y) && 0 <= SetIndex(g, x) - SetIndex(g, y) < g.associativity
  {
    TakenForIff(v, g, lineSize, x, y);
  }

  // ----- over whole runs

  function WrittenRun(v: Variant, g: Geometry, lineSize: nat, trace: seq<Access>): (lines: Lines)
    requires g.Valid() && lineSize > 0
    ensures |lines| == g.size
  {
    if trace == [] then Unused(g)
    else WrittenAccess(v, g, lineSize, WrittenRun(v, g, lineSize, trace[..|trace| - 1]), trace[|trace| - 1]).0
  }

  function LineOfAccess(lineSize: nat, a: Access): nat
    requires lineSize > 0
  {
    a.address / lineSize
  }

  ghost predicate Used(lineSize: nat, trace: seq<Access>, x: nat)
    requires lineSize > 0
  {
    exists i :: 0 <= i < |trace| && LineOfAccess(lineSize, trace[i]) == x
  }

  // A line that was used could have brought this tag into way i.
  ghost predicate Explained(g: Geometry, lineSize: nat, trace: seq<Access>, tag: nat, i: nat)
    requires g.Valid() && lineSize > 0
  {
    exists x: nat :: Used(lineSize, trace, x) && Tag(g, x) == tag && InWrittenWindow(g, x, i)
  }

  ghost predicate AllExplained(g: Geometry, lineSize: nat, trace: seq<Access>, lines: Lines)
    requires g.Valid() && lineSize > 0
  {
    forall i :: 0 <= i < |lines| && lines[i].tag != EMPTY_TAG ==> Explained(g, lineSize, trace, lines[i].tag, i)
  }

  lemma StillExplained(g: Geometry, lineSize: nat, trace: seq<Access>, a: Access, lines: Lines)
    requires g.Valid() && lineSize > 0 && AllExplained(g, lineSize, trace, lines)
    ensures AllExplained(g, lineSize, trace + [a], lines)
  {
    hide Tag, InWrittenWindow;
    forall i | 0 <= i < |lines| && lines[i].tag != EMPTY_TAG
      ensures Explained(g, lineSize, trace + [a], lines[i].tag, i)
    {
      assert Explained(g, lineSize, trace, lines[i].tag, i);
      var x: nat :| Used(lineSize, trace, x) && Tag(g, x) == lines[i].tag && InWrittenWindow(g, x, i);
      var j :| 0 <= j < |trace| && LineOfAccess(lineSize, trace[j]) == x;
      assert (trace + [a])[j] == trace[j];
      assert Used(lineSize, trace + [a], x);
    }
  }

  // One access changes at most one tag, to that of its line in its window.
  lemma OneTagChanged(v: Variant, g: Geometry, lineSize: nat, lines: Lines, a: Access) returns (i: nat)
    requires g.Valid() && |lines| == g.size && lineSize > 0
    ensures var x, after := LineOfAccess(lineSize, a), WrittenAccess(v, g, lineSize, lines, a).0;
      && i < g.size && InWrittenWindow(g, x, i) && after[i].tag == Tag(g, x)
      && forall k :: 0 <= k < g.size && k != i ==> after[k] == lines[k]
  {
    var hit := WrittenFind(g, lines, LineOfAccess(lineSize, a));
    i := if hit != -1 then hit else WrittenVictim(v, g, lines, LineOfAccess(lineSize, a));
  }

  lemma AccessExplained(v: Variant, g: Geometry, lineSize: nat, trace: seq<Access>, lines: Lines, a: Access)
    requires g.Valid() && lineSize > 0 && |lines| == g.size && AllExplained(g, lineSize, trace, lines)
    ensures AllExplained(g, lineSize, trace + [a], WrittenAccess(v, g, lineSize, lines, a).0)
  {
    hide WrittenAccess, Tag, InWrittenWindow, LineOfAccess;
    StillExplained(g, lineSize, trace, a, lines);
    var i := OneTagChanged(v, g, lineSize, lines, a);
    assert (trace + [a])[|trace|] == a;
    assert Used(lineSize, trace + [a], LineOfAccess(lineSize, a));
    assert Explained(g, lineSize, trace + [a], Tag(g, LineOfAccess(lineSize, a)), i);
  }

  lemma {:induction false} RunExplained(v: Variant, g: Geometry, lineSize: nat, trace: seq<Access>)
    requires g.Valid() && lineSize > 0
    ensures AllExplained(g, lineSize, trace, WrittenRun(v, g, lineSize, trace))
  {
    hide WrittenAccess, Explained;
    if trace != [] {
      var init, a := trace[..|trace| - 1], trace[|trace| - 1];
      RunExplained(v, g, lineSize, init);
      AccessExplained(v, g, lineSize, init, WrittenRun(v, g, lineSize, init), a);
      assert init + [a] == trace;
    }
  }

  // After some accesses, one more counts as a hit, although its line was never used.
  ghost predicate FalseHit(v: Variant, g: Geometry, lineSize: nat, trace: seq<Access>, a: Access)
    requires g.Valid() && lineSize > 0
  {
    && (forall i :: 0 <= i < |trace| ==> Addressable(trace[i]))
    && Addressable(a) && Tag(g, LineOfAccess(lineSize, a)) < EMPTY_TAG
    && !Used(lineSize, trace, LineOfAccess(lineSize, a))
    && !WrittenAccess(v, g, lineSize, WrittenRun(v, g, lineSize, trace), a).1
  }

  // With one way or one set, only lines of one set share a way.
  lemma OneWayOrSet(g: Geometry, x: nat, y: nat, i: nat)
    requires g.Valid() && (g.associativity == 1 || g.Sets() == 1)
    requires InWrittenWindow(g, x, i) && InWrittenWindow(g, y, i)
    ensures SetIndex(g, x) == SetIndex(g, y)
  {
  }

  lemma HitIsFound(v: Variant, g: Geometry, lineSize: nat, lines: Lines, a: Access)
    requires g.Valid() && |lines| == g.size && lineSize > 0
    ensures WrittenAccess(v, g, lineSize, lines, a).1 <==> WrittenFind(g, lines, LineOfAccess(lineSize, a)) == -1
  {
  }

  lemma NoFalseHit(v: Variant, g: Geometry, lineSize: nat, trace: seq<Access>, a: Access)
    requires g.Valid() && lineSize > 0 && (g.associativity == 1 || g.Sets() == 1)
    ensures !FalseHit(v, g, lineSize, trace, a)
  {
    hide Tag, InWrittenWindow, SetIndex, WrittenRun, LineOfAccess, WrittenAccess, Used;
    if FalseHit(v, g, lineSize, trace, a) {
      var y, lines := LineOfAccess(lineSize, a), WrittenRun(v, g, lineSize, trace);
      RunExplained(v, g, lineSize, trace);
      HitIsFound(v, g, lineSize, lines, a);
      var i := WrittenFind(g, lines, y);
      assert Explained(g, lineSize, trace, lines[i].tag, i);
      var x: nat :| Used(lineSize, trace, x) && Tag(g, x) == lines[i].tag && InWrittenWindow(g, x, i);
      OneWayOrSet(g, x, y, i);
      TagAndSetNameTheLine(g, x, y);
    }
  }

  // Lines 1 and 0, in that order.
  function Neighbours(lineSize: nat): (seq<Access>, Access) {
    ([Access(lineSize, 0, false)], Access(0, 1, false))
  }

  /**
   * There is a run with a false hit if and only if there are several sets, and several ways in each; then the
   * accesses to lines 1 and 0 are one.
   */
  lemma FalseHitsExistIff(v: Variant, g: Geometry, lineSize: nat)
    requires g.Valid() && 0 < lineSize < ADDRESS_LIMIT
    ensures (exists trace, a :: FalseHit(v, g, lineSize, trace, a)) <==> g.associativity >= 2 && g.Sets() >= 2
    ensures g.associativity >= 2 && g.Sets() >= 2 ==>
      FalseHit(v, g, lineSize, Neighbours(lineSize).0, Neighbours(lineSize).1)
  {
    hide FalseHit;
    if g.associativity >= 2 && g.Sets() >= 2 {
      NeighboursAreConfused(v, g, lineSize);
      assert FalseHit(v, g, lineSize, Neighbours(lineSize).0, Neighbours(lineSize).1);
    } else {
      forall trace, a ensures !FalseHit(v, g, lineSize, trace, a) {
        NoFalseHit(v, g, lineSize, trace, a);
      }
    }
  }

  lemma NeighboursAreConfused(v: Variant, g: Geometry, lineSize: nat)
    requires g.Valid() && 0 < lineSize < ADDRESS_LIMIT && g.associativity >= 2 && g.Sets() >= 2
    ensures FalseHit(v, g, lineSize, Neighbours(lineSize).0, Neighbours(lineSize).1)
  {
    hide WrittenAccess, Tag;
    NeighbourIsTakenFor(v, g, lineSize);
    DivideUnique(lineSize, lineSize, 1, 0);
    DivideUnique(0, lineSize, 0, 0);
    var (trace, a) := Neighbours(lineSize);
    assert trace[..0] == [] && WrittenRun(v, g, lineSize, []) == Unused(g);
  }

  lemma NeighbourIsTakenFor(v: Variant, g: Geometry, lineSize: nat)
    requires g.Valid() && 0 < lineSize && g.associativity >= 2 && g.Sets() >= 2
    ensures Tag(g, 0) == Tag(g, 1) == 0 && TakenFor(v, g, lineSize, 1, 0)
  {
    hide TakenFor;
    DivideUnique(0, g.Sets(), 0, 0);
    DivideUnique(1, g.Sets(), 0, 1);
    WrittenFalseHitIff(v, g, lineSize, 1, 0);
  }
}
