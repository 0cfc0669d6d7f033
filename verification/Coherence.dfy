/**
 * What every access keeps: no set holds a real tag twice, and on every bus a line that one
 * cache holds modified is held by no other.
 */
module Coherence {
  import opened Arith
  import opened Msi
  import opened CacheSpec

  // ----- tags, sets and lines

  /** Tag and set together name a line: the map is a bijection between lines and (tag, set) pairs. */
  lemma TagAndSetNameTheLine(g: Geometry, x: nat, y: nat)
    requires g.Valid()
    ensures x == Tag(g, x) * g.Sets() + SetIndex(g, x)
    ensures Tag(g, x) == Tag(g, y) && SetIndex(g, x) == SetIndex(g, y) ==> x == y
  {
  }

  lemma EveryTagAndSetIsALine(g: Geometry, tag: nat, index: nat)
    requires g.Valid() && index < g.Sets()
    ensures Tag(g, tag * g.Sets() + index) == tag && SetIndex(g, tag * g.Sets() + index) == index
  {
    DivideUnique(tag * g.Sets() + index, g.Sets(), tag, index);
  }

  lemma TagBelowLimit(g: Geometry, lineSize: nat, address: nat)
    requires g.Valid() && lineSize > 0 && lineSize * g.Sets() >= 2 && address < ADDRESS_LIMIT
    ensures Tag(g, address / lineSize) < EMPTY_TAG
  {
    QuotientSmaller(address, lineSize);
    QuotientSmaller(address / lineSize, g.Sets());
    if lineSize >= 2 {
      HalfAtMost(address, lineSize);
    } else {
      assert lineSize == 1;
      HalfAtMost(address / lineSize, g.Sets());
    }
  }

  /** The tag of a 64-bit address is never mistaken for the tag of an unused line. */
  lemma TagIsReal(t: Topology, c: nat, a: Access)
    requires Valid(t) && c < |t.nodes| && Addressable(a)
    ensures Tag(t.nodes[c].geometry, LineOf(t, a)) < EMPTY_TAG
  {
    TagBelowLimit(t.nodes[c].geometry, t.lineSize, a.address);
  }

  /** Valid asks for no more than that. */
  lemma TagsAreRealIff(g: Geometry, lineSize: nat)
    requires g.Valid() && lineSize > 0
    ensures (forall address: nat :: address < ADDRESS_LIMIT ==> TagOf(g, lineSize, address) < EMPTY_TAG) <==>
      lineSize * g.Sets() >= 2
  {
    hide TagOf;
    if lineSize * g.Sets() >= 2 {
      forall address: nat | address < ADDRESS_LIMIT ensures TagOf(g, lineSize, address) < EMPTY_TAG {
        TagOfBelow(g, lineSize, address);
      }
    } else {
      LastTagIsEmpty(g, lineSize);
    }
  }

  // The tag of an address in a cache of its own.
  function TagOf(g: Geometry, lineSize: nat, address: nat): nat
    requires g.Valid() && lineSize > 0
  {
    Tag(g, address / lineSize)
  }

  lemma TagOfBelow(g: Geometry, lineSize: nat, address: nat)
    requires g.Valid() && lineSize > 0 && lineSize * g.Sets() >= 2 && address < ADDRESS_LIMIT
    ensures TagOf(g, lineSize, address) < EMPTY_TAG
  {
    TagBelowLimit(g, lineSize, address);
  }

  lemma LastTagIsEmpty(g: Geometry, lineSize: nat)
    requires g.Valid() && lineSize > 0 && lineSize * g.Sets() < 2
    ensures TagOf(g, lineSize, ADDRESS_LIMIT - 1) == EMPTY_TAG
  {
    MulMonotone(1, g.Sets(), lineSize);
    MulMonotone(1, lineSize, g.Sets());
    DivideUnique(ADDRESS_LIMIT - 1, 1, EMPTY_TAG, 0);
  }

  /** With one set of one-byte lines, the line of the last address is found where nothing has been used. */
  lemma LastLineLooksUnused(g: Geometry, lines: Lines)
    requires g.Valid() && g.Sets() == 1 && |lines| == g.size && forall i :: 0 <= i < |lines| ==>
      lines[i].tag == EMPTY_TAG
    ensures Find(g, lines, ADDRESS_LIMIT - 1) != -1
  {
    DivideUnique(ADDRESS_LIMIT - 1, 1, EMPTY_TAG, 0);
    assert InWindow(g, ADDRESS_LIMIT - 1, Base(g, ADDRESS_LIMIT - 1));
  }

  /** Sets do not overlap. */
  lemma WindowsApart(g: Geometry, x: nat, y: nat)
    requires g.Valid()
    ensures SetIndex(g, x) == SetIndex(g, y) ==> Base(g, x) == Base(g, y)
    ensures SetIndex(g, x) < SetIndex(g, y) ==> Base(g, x) + g.associativity <= Base(g, y)
    ensures SetIndex(g, x) > SetIndex(g, y) ==> Base(g, y) + g.associativity <= Base(g, x)
  {
    NextBlock(SetIndex(g, x), SetIndex(g, y), g.associativity);
    NextBlock(SetIndex(g, y), SetIndex(g, x), g.associativity);
  }

  // No real tag stands twice in lines[lo..hi].
  ghost predicate UniqueIn(lines: Lines, lo: nat, hi: nat)
    requires lo <= hi <= |lines|
  {
    forall i, j :: lo <= i < j < hi && lines[i].tag == lines[j].tag ==> lines[i].tag == EMPTY_TAG
  }

  // Every set is free of duplicates, and an unused line is invalid.
  ghost predicate Tidy(g: Geometry, lines: Lines)
    requires g.Valid() && |lines| == g.size
  {
    && (forall line: nat :: UniqueIn(lines, Base(g, line), Base(g, line) + g.associativity))
    && (forall i :: 0 <= i < |lines| && lines[i].tag == EMPTY_TAG ==> lines[i].state == Invalid)
  }

  // Equal tags, whatever else differs.
  ghost predicate SameTags(l1: Lines, l2: Lines) {
    |l1| == |l2| && forall i :: 0 <= i < |l1| ==> l1[i].tag == l2[i].tag
  }

  /** Looking up only reads tags. */
  lemma SameTagsSameFind(g: Geometry, l1: Lines, l2: Lines, line: nat)
    requires g.Valid() && |l1| == g.size && SameTags(l1, l2)
    ensures Find(g, l1, line) == Find(g, l2, line)
  {
    var r1, r2 := Find(g, l1, line), Find(g, l2, line);
    if r1 == -1 {
      assert forall k :: InWindow(g, line, k) ==> l2[k].tag != Tag(g, line);
    } else {
      assert InWindow(g, line, r1);
    }
  }

  // ----- effect of one update on what a cache holds

  /** Changing the state (and stamp) of one line changes what is held for at most that line. */
  lemma StateUpdateEffect(g: Geometry, lines: Lines, i: nat, x: CacheLine)
    requires g.Valid() && |lines| == g.size && i < |lines| && x.tag == lines[i].tag
    requires x.tag == EMPTY_TAG ==> x.state == Invalid
    ensures Tidy(g, lines) ==> Tidy(g, lines[i := x])
    ensures forall line: nat ::
      StateOf(g, lines[i := x], line) == if Find(g, lines, line) == i then x.state else StateOf(g, lines, line)
  {
    forall line: nat
      ensures StateOf(g, lines[i := x], line) == if Find(g, lines, line) == i then x.state else StateOf(g, lines, line)
    {
      SameTagsSameFind(g, lines, lines[i := x], line);
    }
  }

  // The ways of one set hold the tag at most once, so the first match is the only one.
  lemma FindIsThe(g: Geometry, lines: Lines, line: nat, i: nat)
    requires g.Valid() && |lines| == g.size && Tidy(g, lines)
    requires InWindow(g, line, i) && lines[i].tag == Tag(g, line) != EMPTY_TAG
    ensures Find(g, lines, line) == i
  {
    assert UniqueIn(lines, Base(g, line), Base(g, line) + g.associativity);
    var r := Find(g, lines, line);
    assert InWindow(g, line, r);
    assert r != i ==> lines[r].tag == lines[i].tag;
  }

  /** Refilling a way with an absent line brings that line in and at most drops another one. */
  lemma RefillEffect(g: Geometry, lines: Lines, line: nat, j: nat, x: CacheLine)
    requires g.Valid() && |lines| == g.size && Tidy(g, lines)
    requires Find(g, lines, line) == -1 && InWindow(g, line, j) && x.tag == Tag(g, line) < EMPTY_TAG
    ensures Tidy(g, lines[j := x]) && Find(g, lines[j := x], line) == j
    ensures forall y: nat :: y != line ==> Demoted(StateOf(g, lines[j := x], y), StateOf(g, lines, y))
  {
    var lines' := lines[j := x];
    RefillTidy(g, lines, line, j, x);
    FindIsThe(g, lines', line, j);
    forall y: nat | y != line ensures Demoted(StateOf(g, lines', y), StateOf(g, lines, y)) {
      RefillOther(g, lines, line, j, x, y);
    }
  }

  lemma RefillTidy(g: Geometry, lines: Lines, line: nat, j: nat, x: CacheLine)
    requires g.Valid() && |lines| == g.size && Tidy(g, lines)
    requires Find(g, lines, line) == -1 && InWindow(g, line, j) && x.tag == Tag(g, line) < EMPTY_TAG
    ensures Tidy(g, lines[j := x])
  {
    var lines' := lines[j := x];
    forall y: nat ensures UniqueIn(lines', Base(g, y), Base(g, y) + g.associativity) {
      WindowsApart(g, line, y);
      assert UniqueIn(lines, Base(g, y), Base(g, y) + g.associativity);
      if SetIndex(g, line) == SetIndex(g, y) {
        assert forall k :: Base(g, y) <= k < Base(g, y) + g.associativity ==> InWindow(g, line, k);
      }
    }
  }

  lemma RefillOther(g: Geometry, lines: Lines, line: nat, j: nat, x: CacheLine, y: nat)
    requires g.Valid() && |lines| == g.size && Tidy(g, lines)
    requires InWindow(g, line, j) && x.tag == Tag(g, line) < EMPTY_TAG && y != line
    ensures Demoted(StateOf(g, lines[j := x], y), StateOf(g, lines, y))
  {
    var lines' := lines[j := x];
    WindowsApart(g, line, y);
    TagAndSetNameTheLine(g, line, y);
    var r' := Find(g, lines', y);
    if r' != -1 {
      assert r' != j && lines[r'] == lines'[r'];
      var r := Find(g, lines, y);
      assert InWindow(g, y, r');
      assert r != -1;
      assert r <= r';
      if r < r' {
        assert InWindow(g, y, r);
        assert r == j;
        assert UniqueIn(lines, Base(g, y), Base(g, y) + g.associativity);
        assert lines[r].tag == lines[r'].tag == EMPTY_TAG;
        assert lines'[r'].state == Invalid;
      }
    }
  }

  // ----- whole systems

  // The state in which cache c holds a line.
  function Held(t: Topology, s: System, c: nat, line: nat): LineState
    requires Valid(t) && Shaped(t, s) && c < |t.nodes|
  {
    StateOf(t.nodes[c].geometry, s[c], line)
  }

  ghost predicate AllTidy(t: Topology, s: System)
    requires Valid(t) && Shaped(t, s)
  {
    forall c :: 0 <= c < |s| ==> Tidy(t.nodes[c].geometry, s[c])
  }

  // No cache holds any line with more permission than before, line x0 of cache c0 apart.
  ghost predicate DemotedBut(t: Topology, s': System, s: System, c0: int, x0: nat)
    requires Valid(t) && Shaped(t, s) && Shaped(t, s')
  {
    forall c: nat, x: nat :: c < |t.nodes| && (c != c0 || x != x0) ==> Demoted(Held(t, s', c, x), Held(t, s, c, x))
  }

  ghost predicate AllDemoted(t: Topology, s': System, s: System)
    requires Valid(t) && Shaped(t, s) && Shaped(t, s')
  {
    DemotedBut(t, s', s, -1, 0)
  }

  /** On every bus, a line held modified by one cache is held by no other cache. */
  ghost predicate SingleWriter(t: Topology, s: System)
    requires Valid(t) && Shaped(t, s)
  {
    forall c: nat, p: nat, x: nat ::
      c < |t.nodes| && p < |t.nodes| && p in t.nodes[c].peers && p != c && Held(t, s, c, x) == Modified ==>
        Held(t, s, p, x) == Invalid
  }

  lemma StateUpdateInSystem(t: Topology, s: System, c: nat, i: nat, x: CacheLine)
    requires Valid(t) && Shaped(t, s) && AllTidy(t, s) && c < |t.nodes| && i < |s[c]|
    requires x.tag == s[c][i].tag && (x.tag == EMPTY_TAG ==> x.state == Invalid)
    ensures Shaped(t, Update(s, c, i, x)) && AllTidy(t, Update(s, c, i, x))
    ensures SameTags(s[c], Update(s, c, i, x)[c])
    ensures forall y: nat ::
      Held(t, Update(s, c, i, x), c, y) == if Find(t.nodes[c].geometry, s[c], y) == i then x.state else Held(t, s, c, y)
  {
    StateUpdateEffect(t.nodes[c].geometry, s[c], i, x);
  }

  /** A snooped request only takes permissions away, and all of those it must take for its own line. */
  lemma SnoopEffect(t: Topology, s: System, c: nat, event: Event, line: nat)
    requires Valid(t) && Shaped(t, s) && AllTidy(t, s) && c < |t.nodes|
    requires event !in {Read, Write}
    ensures var s' := Snoop(t, s, c, event, line);
      AllTidy(t, s') && AllDemoted(t, s', s) && Bowed(Held(t, s', c, line), event) && SameTags(s[c], s'[c])
  {
    hide NewState, Victim;
    var g := t.nodes[c].geometry;
    var hit := Find(g, s[c], line);
    var i := if hit == -1 then Victim(t.variant, g, s[c], line) else hit;
    var previous := if hit == -1 then Invalid else s[c][i].state;
    var x := s[c][i].(state := NewState(previous, event).0);
    assert Tidy(g, s[c]);
    StateUpdateInSystem(t, s, c, i, x);
  }

  // What a bus request leaves its own line in, in every other cache.
  predicate Bowed(s: LineState, event: Event) {
    && (event in {BusReadX, BusUpgrade} ==> s == Invalid)
    && (event == BusRead ==> s != Modified)
  }

  lemma {:induction false} BroadcastEffect(t: Topology, s: System, peers: seq<nat>, origin: nat, event: Event,
                                           line: nat)
    requires Valid(t) && Shaped(t, s) && AllTidy(t, s) && Known(t, peers)
    requires event !in {Read, Write}
    ensures var s' := Broadcast(t, s, peers, origin, event, line);
      AllTidy(t, s') && AllDemoted(t, s', s)
      && (forall p :: p in peers && p != origin ==> Bowed(Held(t, s', p, line), event))
      && (forall c :: 0 <= c < |s| ==> SameTags(s[c], s'[c]))
    decreases |peers|
  {
    hide Snoop, StateOf, Find, Base, Tidy;
    if peers != [] {
      var s1 := if peers[0] == origin then s else Snoop(t, s, peers[0], event, line);
      if peers[0] != origin {
        SnoopEffect(t, s, peers[0], event, line);
      }
      BroadcastEffect(t, s1, peers[1..], origin, event, line);
      var s' := Broadcast(t, s, peers, origin, event, line);
      forall p | p in peers && p != origin ensures Bowed(Held(t, s', p, line), event) {
        if p !in peers[1..] {
          assert p == peers[0];
          assert Demoted(Held(t, s', p, line), Held(t, s1, p, line));
        }
      }
    }
  }

  lemma {:induction false} InformEffect(t: Topology, s: System, lower: seq<nat>, line: nat)
    requires Valid(t) && Shaped(t, s) && AllTidy(t, s) && Known(t, lower)
    ensures var s' := InformLower(t, s, lower, line);
      AllTidy(t, s') && AllDemoted(t, s', s) && (forall c :: 0 <= c < |s| ==> SameTags(s[c], s'[c]))
    decreases |lower|
  {
    hide StateOf, Find, Base, Tidy;
    if lower != [] {
      var c := lower[0];
      var i := Find(t.nodes[c].geometry, s[c], line);
      var s1 := if i == -1 then s else Update(s, c, i, s[c][i].(state := Invalid));
      if i != -1 {
        StateUpdateInSystem(t, s, c, i, s[c][i].(state := Invalid));
      }
      InformEffect(t, s1, lower[1..], line);
    }
  }

  // ----- the end of an access

  // Storing the new state of line x0 in cache c, before the bus has been told.
  lemma GrantEffect(t: Topology, s: System, s0: System, c: nat, i: nat, next: LineState, x0: nat)
    requires Valid(t) && Shaped(t, s) && Shaped(t, s0) && c < |t.nodes| && i < |s[c]|
    requires AllTidy(t, s) && DemotedBut(t, s, s0, c, x0)
    requires Find(t.nodes[c].geometry, s[c], x0) == i && s[c][i].tag < EMPTY_TAG
    ensures var s1 := Update(s, c, i, s[c][i].(state := next));
      Shaped(t, s1) && AllTidy(t, s1) && DemotedBut(t, s1, s0, c, x0) && Held(t, s1, c, x0) == next
      && (forall d :: 0 <= d < |s| ==> SameTags(s[d], s1[d]))
  {
    var g, x := t.nodes[c].geometry, s[c][i].(state := next);
    StateUpdateInSystem(t, s, c, i, x);
    var s1 := Update(s, c, i, x);
    forall d: nat, y: nat | d < |t.nodes| && (d != c || y != x0) ensures Demoted(Held(t, s1, d, y), Held(t, s0, d, y)) {
      if d == c && Find(g, s[c], y) == i {
        assert Tag(g, y) == Tag(g, x0);
        WindowsApart(g, y, x0);
        assert InWindow(g, y, i) && InWindow(g, x0, i);
        TagAndSetNameTheLine(g, y, x0);
      }
    }
  }

  // The request passes the bus: a new writer ends alone, a new reader ends among readers.
  lemma BroadcastRestores(t: Topology, s1: System, s0: System, c: nat, event: Event, x0: nat)
    requires Valid(t) && Shaped(t, s1) && Shaped(t, s0) && c < |t.nodes|
    requires AllTidy(t, s1) && SingleWriter(t, s0) && DemotedBut(t, s1, s0, c, x0)
    requires (event == BusRead && Held(t, s1, c, x0) == Shared) || event in {BusReadX, BusUpgrade}
    requires Known(t, t.nodes[c].peers)
    ensures var s' := Broadcast(t, s1, t.nodes[c].peers, c, event, x0); SingleWriter(t, s')
  {
    var peers := t.nodes[c].peers;
    var s' := Broadcast(t, s1, peers, c, event, x0);
    BroadcastEffect(t, s1, peers, c, event, x0);
    forall d: nat, p: nat, x: nat |
      d < |t.nodes| && p < |t.nodes| && p in t.nodes[d].peers && p != d && Held(t, s', d, x) == Modified
      ensures Held(t, s', p, x) == Invalid
    {
      PeersAreMutual(t, d, p);
      assert Demoted(Held(t, s', d, x), Held(t, s1, d, x)) && Demoted(Held(t, s', p, x), Held(t, s1, p, x));
      if x == x0 && d == c {
        assert Bowed(Held(t, s', p, x), event);
      } else if x != x0 || p != c {
        assert Demoted(Held(t, s1, d, x), Held(t, s0, d, x)) && Demoted(Held(t, s1, p, x), Held(t, s0, p, x));
      }
    }
  }

  lemma PeersAreMutual(t: Topology, d: nat, p: nat)
    requires Valid(t) && d < |t.nodes| && p in t.nodes[d].peers
    ensures p < |t.nodes| && t.nodes[p].peers == t.nodes[d].peers && d in t.nodes[p].peers
  {
    assert Linked(t, d);
  }

  lemma DemotionKeepsSingleWriter(t: Topology, s: System, s0: System)
    requires Valid(t) && Shaped(t, s) && Shaped(t, s0) && SingleWriter(t, s0) && AllDemoted(t, s, s0)
    ensures SingleWriter(t, s)
  {
    forall d: nat, p: nat, x: nat |
      d < |t.nodes| && p < |t.nodes| && p in t.nodes[d].peers && p != d && Held(t, s, d, x) == Modified
      ensures Held(t, s, p, x) == Invalid
    {
      assert Demoted(Held(t, s, d, x), Held(t, s0, d, x)) && Demoted(Held(t, s, p, x), Held(t, s0, p, x));
    }
  }

  // s0 is a settled system; s differs from it by having fetched line x0 into way i of cache c, whose
  // state still has to be set. Settling leaves the line usable in c and nobody else in its way.
  lemma SettleEffect(t: Topology, s: System, s0: System, c: nat, i: nat, a: Access)
    requires Valid(t) && Shaped(t, s) && Shaped(t, s0) && c < |t.nodes| && i < |s[c]|
    requires AllTidy(t, s) && SingleWriter(t, s0) && DemotedBut(t, s, s0, c, LineOf(t, a))
    requires Find(t.nodes[c].geometry, s[c], LineOf(t, a)) == i && s[c][i].tag < EMPTY_TAG
    ensures var s' := Settle(t, s, c, i, Held(t, s0, c, LineOf(t, a)), a);
      AllTidy(t, s') && SingleWriter(t, s') && DemotedBut(t, s', s0, c, LineOf(t, a))
      && Held(t, s', c, LineOf(t, a)) == Served(t.nodes[c].coherent, Held(t, s0, c, LineOf(t, a)), a.write)
      && (forall d :: 0 <= d < |s| ==> SameTags(s[d], s'[d]))
  {
    var n, x0, previous := t.nodes[c], LineOf(t, a), Held(t, s0, c, LineOf(t, a));
    assert Linked(t, c);
    var (next, request) :=
      if n.coherent then NewState(previous, if a.write then Write else Read) else (Modified, Silent);
    var s1 := Update(s, c, i, s[c][i].(state := next));
    GrantEffect(t, s, s0, c, i, next, x0);
    if request.Ask? {
      BroadcastEffect(t, s1, n.peers, c, request.event, x0);
      BroadcastRestores(t, s1, s0, c, request.event, x0);
    } else if n.coherent {
      assert next == previous;
      DemotionKeepsSingleWriter(t, s1, s0);
    } else {
      assert n.peers == [];
      NoBusKeepsSingleWriter(t, s1, s0, c, x0);
    }
  }

  lemma NoBusKeepsSingleWriter(t: Topology, s: System, s0: System, c: nat, x0: nat)
    requires Valid(t) && Shaped(t, s) && Shaped(t, s0) && c < |t.nodes| && t.nodes[c].peers == []
    requires SingleWriter(t, s0) && DemotedBut(t, s, s0, c, x0)
    ensures SingleWriter(t, s)
  {
    forall d: nat, p: nat, x: nat |
      d < |t.nodes| && p < |t.nodes| && p in t.nodes[d].peers && p != d && Held(t, s, d, x) == Modified
      ensures Held(t, s, p, x) == Invalid
    {
      PeersAreMutual(t, d, p);
      assert Demoted(Held(t, s, d, x), Held(t, s0, d, x)) && Demoted(Held(t, s, p, x), Held(t, s0, p, x));
    }
  }

  // The state that an access leaves its line in, in a cache that it passes through and that held the line before.
  function Served(coherent: bool, before: LineState, write: bool): LineState {
    if !coherent || write || before == Modified then Modified else Shared
  }

  // ----- one access

  ghost predicate Good(t: Topology, s: System)
    requires Valid(t) && Shaped(t, s)
  {
    AllTidy(t, s) && SingleWriter(t, s)
  }

  // Cache c and, from the first miss upwards, every cache the access visited in state s hold the line in s' as served.
  ghost predicate VisitedHold(t: Topology, s: System, s': System, c: nat, a: Access)
    requires Valid(t) && Shaped(t, s) && Shaped(t, s') && c < |t.nodes|
    decreases MAX_CACHE_LEVELS - t.nodes[c].level
  {
    assert Linked(t, c);
    && Held(t, s', c, LineOf(t, a)) == Served(t.nodes[c].coherent, Held(t, s, c, LineOf(t, a)), a.write)
    && (Find(t.nodes[c].geometry, s[c], LineOf(t, a)) == -1 && t.nodes[c].higher.Some? ==>
          VisitedHold(t, s, s', t.nodes[c].higher.value, a))
  }

  lemma VisitedFrame(t: Topology, s: System, s1: System, s2: System, c: nat, a: Access)
    requires Valid(t) && Shaped(t, s) && Shaped(t, s1) && Shaped(t, s2) && c < |t.nodes|
    requires VisitedHold(t, s, s1, c, a)
    requires forall d :: 0 <= d < |s| && t.nodes[d].level >= t.nodes[c].level ==> s1[d] == s2[d]
    ensures VisitedHold(t, s, s2, c, a)
    decreases MAX_CACHE_LEVELS - t.nodes[c].level
  {
    assert Linked(t, c);
    if Find(t.nodes[c].geometry, s[c], LineOf(t, a)) == -1 && t.nodes[c].higher.Some? {
      VisitedFrame(t, s, s1, s2, t.nodes[c].higher.value, a);
    }
  }

  // Settling works on the level of its cache only.
  lemma SettleFrame(t: Topology, s: System, c: nat, i: nat, previous: LineState, a: Access, d: nat)
    requires Valid(t) && Shaped(t, s) && c < |t.nodes| && i < |s[c]| && d < |s|
    requires t.nodes[d].level != t.nodes[c].level
    ensures Settle(t, s, c, i, previous, a)[d] == s[d]
  {
    assert Linked(t, c);
    assert d !in t.nodes[c].peers;
  }

  // What the notices of an eviction leave alone: every cache that is not below.
  lemma InformFrame(t: Topology, s: System, c: nat, line: nat, d: nat)
    requires Valid(t) && Shaped(t, s) && c < |t.nodes| && d < |s|
    requires t.nodes[d].level >= t.nodes[c].level
    ensures Known(t, t.nodes[c].lower) && InformLower(t, s, t.nodes[c].lower, line)[d] == s[d]
  {
    assert Linked(t, c);
    assert d !in t.nodes[c].lower;
  }

  lemma HitKeeps(t: Topology, s: System, c: nat, a: Access)
    requires Valid(t) && Shaped(t, s) && Good(t, s) && c < |t.nodes| && Addressable(a)
    requires Find(t.nodes[c].geometry, s[c], LineOf(t, a)) != -1
    ensures var s' := AccessCache(t, s, c, a).system;
      Good(t, s') && DemotedBut(t, s', s, c, LineOf(t, a)) && VisitedHold(t, s, s', c, a)
      && (forall d :: 0 <= d < |s| ==> SameTags(s[d], s'[d]))
  {
    var i := Find(t.nodes[c].geometry, s[c], LineOf(t, a));
    TagIsReal(t, c, a);
    assert Tidy(t.nodes[c].geometry, s[c]);
    var x := s[c][i].(lastUsed := a.timestamp);
    var s1 := Update(s, c, i, x);
    StateUpdateInSystem(t, s, c, i, x);
    SameTagsSameFind(t.nodes[c].geometry, s[c], s1[c], LineOf(t, a));
    SettleEffect(t, s1, s, c, i, a);
  }

  // The refill of a missing line, from the system in which the lower levels have been told.
  lemma RefillKeeps(t: Topology, s1: System, c: nat, a: Access)
    requires Valid(t) && Shaped(t, s1) && Good(t, s1) && c < |t.nodes| && Addressable(a)
    requires Find(t.nodes[c].geometry, s1[c], LineOf(t, a)) == -1
    ensures var i := Victim(t.variant, t.nodes[c].geometry, s1[c], LineOf(t, a));
      var s2 := Update(s1, c, i, Refilled(t, s1[c][i], Tag(t.nodes[c].geometry, LineOf(t, a)), a));
      var s' := Settle(t, s2, c, i, Invalid, a);
      Good(t, s') && DemotedBut(t, s', s1, c, LineOf(t, a))
      && Held(t, s', c, LineOf(t, a)) == Served(t.nodes[c].coherent, Invalid, a.write)
      && (forall d :: 0 <= d < |s1| && d != c ==> SameTags(s1[d], s'[d]))
  {
    var g, line := t.nodes[c].geometry, LineOf(t, a);
    var i := Victim(t.variant, g, s1[c], line);
    var x := Refilled(t, s1[c][i], Tag(g, line), a);
    var s2 := Update(s1, c, i, x);
    TagIsReal(t, c, a);
    assert Tidy(g, s1[c]);
    RefillEffect(g, s1[c], line, i, x);
    SettleEffect(t, s2, s1, c, i, a);
  }

  // A miss at cache c, once the higher level has been accessed and has left the system up.
  lemma MissKeeps(t: Topology, up: System, c: nat, a: Access)
    requires Valid(t) && Shaped(t, up) && Good(t, up) && c < |t.nodes| && Addressable(a)
    requires Find(t.nodes[c].geometry, up[c], LineOf(t, a)) == -1 && Known(t, t.nodes[c].lower)
    ensures var s' := AfterMiss(t, up, c, a);
      Good(t, s') && DemotedBut(t, s', up, c, LineOf(t, a))
      && Held(t, s', c, LineOf(t, a)) == Served(t.nodes[c].coherent, Invalid, a.write)
      && (forall d :: 0 <= d < |up| && d != c ==> SameTags(up[d], s'[d]))
      && (forall d :: 0 <= d < |up| && t.nodes[d].level > t.nodes[c].level ==> s'[d] == up[d])
  {
    var n, line := t.nodes[c], LineOf(t, a);
    var s1 := InformLower(t, up, n.lower, line);
    InformEffect(t, up, n.lower, line);
    DemotionKeepsSingleWriter(t, s1, up);
    InformFrame(t, up, c, line, c);
    RefillKeeps(t, s1, c, a);
    var s' := AfterMiss(t, up, c, a);
    forall d | 0 <= d < |up| && t.nodes[d].level > n.level ensures s'[d] == up[d] {
      AfterMissFrame(t, up, c, a, d);
    }
  }

  lemma AfterMissFrame(t: Topology, up: System, c: nat, a: Access, d: nat)
    requires Valid(t) && Shaped(t, up) && c < |t.nodes| && Known(t, t.nodes[c].lower)
    requires d < |up| && t.nodes[d].level > t.nodes[c].level
    ensures AfterMiss(t, up, c, a)[d] == up[d]
  {
    var g, line := t.nodes[c].geometry, LineOf(t, a);
    var i := Victim(t.variant, g, up[c], line);
    var s1 := InformLower(t, up, t.nodes[c].lower, line);
    InformFrame(t, up, c, line, d);
    SettleFrame(t, Update(s1, c, i, Refilled(t, s1[c][i], Tag(g, line), a)), c, i, Invalid, a, d);
  }

  // What an access that went from s to s' has kept, and what the caches it visited hold.
  ghost predicate Kept(t: Topology, s: System, s': System, c: nat, a: Access)
    requires Valid(t) && Shaped(t, s) && Shaped(t, s') && c < |t.nodes|
  {
    && Good(t, s') && VisitedHold(t, s, s', c, a)
    && forall d :: 0 <= d < |s| && t.nodes[d].level < t.nodes[c].level ==> SameTags(s[d], s'[d])
  }

  // The system in which a cache refills its line: after the higher level, if there is one, was asked.
  function Asked(t: Topology, s: System, c: nat, a: Access): (up: System)
    requires Valid(t) && Shaped(t, s) && c < |t.nodes|
    ensures Shaped(t, up)
  {
    assert Linked(t, c);
    if t.nodes[c].higher.Some? then AccessCache(t, s, t.nodes[c].higher.value, a).system else s
  }

  lemma NotAsked(t: Topology, s: System, c: nat, a: Access)
    requires Valid(t) && Shaped(t, s) && c < |t.nodes| && t.nodes[c].higher.None?
    ensures Asked(t, s, c, a) == s
  {
  }

  lemma MissIs(t: Topology, s: System, up: System, c: nat, a: Access)
    requires Valid(t) && Shaped(t, s) && c < |t.nodes| && Linked(t, c) && Known(t, t.nodes[c].lower)
    requires up == Asked(t, s, c, a) && Find(t.nodes[c].geometry, s[c], LineOf(t, a)) == -1
    ensures AccessCache(t, s, c, a).system == AfterMiss(t, up, c, a)
  {
  }

  lemma MissKept(t: Topology, s: System, up: System, c: nat, a: Access)
    requires Valid(t) && Shaped(t, s) && Good(t, s) && c < |t.nodes| && Addressable(a)
    requires Find(t.nodes[c].geometry, s[c], LineOf(t, a)) == -1
    requires up == Asked(t, s, c, a) && Good(t, up)
    requires t.nodes[c].higher.Some? ==> Linked(t, c) && Kept(t, s, up, t.nodes[c].higher.value, a)
    ensures Kept(t, s, AccessCache(t, s, c, a).system, c, a)
  {
    hide Good, AfterMiss, AccessCache, Find, Asked;
    var n, line := t.nodes[c], LineOf(t, a);
    assert Linked(t, c);
    MissIs(t, s, up, c, a);
    if n.higher.None? {
      NotAsked(t, s, c, a);
    }
    assert SameTags(s[c], up[c]);
    SameTagsSameFind(n.geometry, s[c], up[c], line);
    MissKeeps(t, up, c, a);
    if n.higher.Some? {
      VisitedFrame(t, s, up, AfterMiss(t, up, c, a), n.higher.value, a);
    }
  }

  /**
   * One access keeps both invariants, whatever the replacement variant, and leaves its line usable in
   * every cache it visited. Below the level it enters at, no cache changes a tag.
   */
  lemma {:induction false} AccessKeeps(t: Topology, s: System, c: nat, a: Access)
    requires Valid(t) && Shaped(t, s) && Good(t, s) && c < |t.nodes| && Addressable(a)
    ensures var s' := AccessCache(t, s, c, a).system;
      Good(t, s') && VisitedHold(t, s, s', c, a)
      && (forall d :: 0 <= d < |s| && t.nodes[d].level < t.nodes[c].level ==> SameTags(s[d], s'[d]))
    decreases MAX_CACHE_LEVELS - t.nodes[c].level
  {
    if Find(t.nodes[c].geometry, s[c], LineOf(t, a)) != -1 {
      HitKeeps(t, s, c, a);
    } else {
      assert Linked(t, c);
      if t.nodes[c].higher.Some? {
        AccessKeeps(t, s, t.nodes[c].higher.value, a);
      }
      MissKept(t, s, Asked(t, s, c, a), c, a);
    }
  }
}
