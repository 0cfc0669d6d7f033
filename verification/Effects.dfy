/**
 * What one access does to the other caches, line by line: the notices of an eviction, the requests on a bus, and who
 * may end up with a modified line.
 */
module Effects {
  import opened Msi
  import opened CacheSpec
  import opened Coherence
  import opened Hierarchy
  import opened Accounting

  // ----- eviction notices

  // A cache in which the line, if it is there and to be dropped, is invalid; everything else is as before.
  ghost predicate HasDropped(g: Geometry, before: Lines, after: Lines, line: nat, drop: bool)
    requires g.Valid() && |before| == g.size
  {
    && |after| == |before|
    && forall i :: 0 <= i < |before| ==>
      after[i] == if drop && i == Find(g, before, line) then before[i].(state := Invalid) else before[i]
  }

  lemma DropsAddUp(g: Geometry, l0: Lines, l1: Lines, l2: Lines, line: nat, p: bool, q: bool)
    requires g.Valid() && |l0| == g.size && HasDropped(g, l0, l1, line, p) && HasDropped(g, l1, l2, line, q)
    ensures HasDropped(g, l0, l2, line, p || q)
  {
    SameTagsSameFind(g, l0, l1, line);
    hide Find;
  }

  lemma NothingDropped(g: Geometry, lines: Lines, line: nat)
    requires g.Valid() && |lines| == g.size
    ensures HasDropped(g, lines, lines, line, false)
  {
  }

  lemma DroppedIsInvalid(g: Geometry, before: Lines, after: Lines, line: nat)
    requires g.Valid() && |before| == g.size && HasDropped(g, before, after, line, true)
    ensures StateOf(g, after, line) == Invalid
  {
    SameTagsSameFind(g, before, after, line);
    hide Find;
  }

  lemma DropDrops(t: Topology, s: System, c: nat, line: nat, d: nat)
    requires Valid(t) && Shaped(t, s) && c < |t.nodes| && d < |t.nodes|
    ensures HasDropped(t.nodes[d].geometry, s[d], Drop(t, s, c, line)[d], line, d == c)
  {
    hide Find;
  }

  /** After a notice, the caches listed have the line invalid where it stands; nothing else has changed anywhere. */
  lemma {:induction false} InformExactly(t: Topology, s: System, lower: seq<nat>, line: nat, d: nat)
    requires Valid(t) && Shaped(t, s) && Known(t, lower) && d < |s|
    ensures var s' := InformLower(t, s, lower, line);
      && HasDropped(t.nodes[d].geometry, s[d], s'[d], line, d in lower)
      && (d in lower ==> Held(t, s', d, line) == Invalid)
    decreases |lower|
  {
    hide HasDropped, Drop, StateOf;
    var g, s' := t.nodes[d].geometry, InformLower(t, s, lower, line);
    if lower == [] {
      NothingDropped(g, s[d], line);
    } else {
      var s1 := Drop(t, s, lower[0], line);
      DropDrops(t, s, lower[0], line, d);
      InformExactly(t, s1, lower[1..], line, d);
      DropsAddUp(g, s[d], s1[d], s'[d], line, d == lower[0], d in lower[1..]);
    }
    if d in lower {
      DroppedIsInvalid(g, s[d], s'[d], line);
    }
  }

  // The caches that an access passes through: the one it enters at and, as long as it misses, those above.
  predicate Passes(t: Topology, s: System, c: nat, a: Access, d: nat)
    requires Valid(t) && Shaped(t, s) && c < |t.nodes|
    decreases MAX_CACHE_LEVELS - t.nodes[c].level
  {
    assert Linked(t, c);
    || d == c
    || (Find(t.nodes[c].geometry, s[c], LineOf(t, a)) == -1 && t.nodes[c].higher.Some?
        && Passes(t, s, t.nodes[c].higher.value, a, d))
  }

  // Those of them that do not have the tag.
  predicate MissesAt(t: Topology, s: System, c: nat, a: Access, m: nat)
    requires Valid(t) && Shaped(t, s) && c < |t.nodes|
    decreases MAX_CACHE_LEVELS - t.nodes[c].level
  {
    assert Linked(t, c);
    && Find(t.nodes[c].geometry, s[c], LineOf(t, a)) == -1
    && (m == c || (t.nodes[c].higher.Some? && MissesAt(t, s, t.nodes[c].higher.value, a, m)))
  }

  // No cache gains permissions, but for the line of the access in the caches that it passes through.
  ghost predicate OnlyPassedGain(t: Topology, s: System, s': System, c: nat, a: Access)
    requires Valid(t) && Shaped(t, s) && Shaped(t, s') && c < |t.nodes|
  {
    forall d: nat, y: nat :: d < |t.nodes| && (y != LineOf(t, a) || !Passes(t, s, c, a, d)) ==>
      Demoted(Held(t, s', d, y), Held(t, s, d, y))
  }

  lemma {:induction false} AccessDemotesOthers(t: Topology, s: System, c: nat, a: Access)
    requires Valid(t) && Shaped(t, s) && Good(t, s) && c < |t.nodes| && Addressable(a)
    ensures OnlyPassedGain(t, s, AccessCache(t, s, c, a).system, c, a)
    decreases MAX_CACHE_LEVELS - t.nodes[c].level
  {
    hide Good, Find, Held, AccessCache;
    var s' := AccessCache(t, s, c, a).system;
    assert Linked(t, c);
    if Find(t.nodes[c].geometry, s[c], LineOf(t, a)) != -1 {
      HitKeeps(t, s, c, a);
    } else {
      var up := AboveMissed(t, s, c, a);
      if t.nodes[c].higher.Some? {
        AccessDemotesOthers(t, s, t.nodes[c].higher.value, a);
      }
      MissKeeps(t, up, c, a);
      forall d: nat, y: nat | d < |t.nodes| && (y != LineOf(t, a) || !Passes(t, s, c, a, d))
        ensures Demoted(Held(t, s', d, y), Held(t, s, d, y))
      {
        assert Demoted(Held(t, s', d, y), Held(t, up, d, y));
      }
    }
  }

  // At a miss: the system that the higher level has left, and what is known of it.
  lemma AboveMissed(t: Topology, s: System, c: nat, a: Access) returns (up: System)
    requires Valid(t) && Shaped(t, s) && Good(t, s) && c < |t.nodes| && Addressable(a)
    requires Find(t.nodes[c].geometry, s[c], LineOf(t, a)) == -1
    ensures Known(t, t.nodes[c].lower) && Shaped(t, up) && Good(t, up) && up == Asked(t, s, c, a)
    ensures Find(t.nodes[c].geometry, up[c], LineOf(t, a)) == -1
    ensures t.nodes[c].higher.None? ==> up == s
    ensures Linked(t, c) && (t.nodes[c].higher.Some? ==> up == AccessCache(t, s, t.nodes[c].higher.value, a).system)
    ensures AccessCache(t, s, c, a).system == AfterMiss(t, up, c, a)
  {
    hide Good, Find;
    assert Linked(t, c);
    up := Asked(t, s, c, a);
    if t.nodes[c].higher.Some? {
      AccessKeeps(t, s, t.nodes[c].higher.value, a);
    }
    assert SameTags(s[c], up[c]);
    SameTagsSameFind(t.nodes[c].geometry, s[c], up[c], LineOf(t, a));
    MissIs(t, s, up, c, a);
  }

  // The notice of a miss at c, with what follows at c.
  lemma MissTells(t: Topology, up: System, c: nat, a: Access, d: nat)
    requires Valid(t) && Shaped(t, up) && Good(t, up) && c < |t.nodes| && Addressable(a)
    requires Find(t.nodes[c].geometry, up[c], LineOf(t, a)) == -1 && Known(t, t.nodes[c].lower)
    requires d in t.nodes[c].lower && d != c
    ensures Held(t, AfterMiss(t, up, c, a), d, LineOf(t, a)) == Invalid
  {
    hide Find, Held;
    var line := LineOf(t, a);
    var s1 := InformLower(t, up, t.nodes[c].lower, line);
    InformEffect(t, up, t.nodes[c].lower, line);
    DemotionKeepsSingleWriter(t, s1, up);
    InformFrame(t, up, c, line, c);
    InformExactly(t, up, t.nodes[c].lower, line, d);
    RefillKeeps(t, s1, c, a);
  }

  /**
   * Every cache listed below one that missed has the line invalid when the access is over, unless the access passed
   * through it.
   */
  lemma {:induction false} MissesAreTold(t: Topology, s: System, c: nat, a: Access, m: nat, d: nat)
    requires Valid(t) && Shaped(t, s) && Good(t, s) && c < |t.nodes| && Addressable(a)
    requires MissesAt(t, s, c, a, m) && m < |t.nodes| && d in t.nodes[m].lower && !Passes(t, s, c, a, d)
    ensures d < |t.nodes| && Held(t, AccessCache(t, s, c, a).system, d, LineOf(t, a)) == Invalid
    decreases MAX_CACHE_LEVELS - t.nodes[c].level
  {
    hide Good, Find, Held, AccessCache;
    assert Linked(t, c) && Linked(t, m);
    var up := AboveMissed(t, s, c, a);
    if m == c {
      MissTells(t, up, c, a, d);
    } else {
      MissesAreTold(t, s, t.nodes[c].higher.value, a, m, d);
      MissKeeps(t, up, c, a);
    }
  }

  // A cache that misses on the way lists this one.
  predicate Told(t: Topology, s: System, c: nat, a: Access, d: nat)
    requires Valid(t) && Shaped(t, s) && c < |t.nodes|
    decreases MAX_CACHE_LEVELS - t.nodes[c].level
  {
    assert Linked(t, c);
    && Find(t.nodes[c].geometry, s[c], LineOf(t, a)) == -1
    && (d in t.nodes[c].lower || (t.nodes[c].higher.Some? && Told(t, s, t.nodes[c].higher.value, a, d)))
  }

  /** Below the cache that an access enters at, those that are told drop the line, and nothing else happens at all. */
  lemma {:induction false} BelowExactly(t: Topology, s: System, c: nat, a: Access, d: nat)
    requires Valid(t) && Shaped(t, s) && c < |t.nodes| && d < |t.nodes| && t.nodes[d].level < t.nodes[c].level
    ensures HasDropped(t.nodes[d].geometry, s[d], AccessCache(t, s, c, a).system[d], LineOf(t, a), Told(t, s, c, a, d))
    decreases MAX_CACHE_LEVELS - t.nodes[c].level
  {
    hide Find, HasDropped, Settle;
    assert Linked(t, c);
    var g, line := t.nodes[c].geometry, LineOf(t, a);
    if Find(g, s[c], line) != -1 {
      var i := Find(g, s[c], line);
      SettleFrame(t, Update(s, c, i, s[c][i].(lastUsed := a.timestamp)), c, i, s[c][i].state, a, d);
      NothingDropped(t.nodes[d].geometry, s[d], line);
    } else {
      var up := Asked(t, s, c, a);
      MissIs(t, s, up, c, a);
      if t.nodes[c].higher.Some? {
        BelowExactly(t, s, t.nodes[c].higher.value, a, d);
      } else {
        NothingDropped(t.nodes[d].geometry, s[d], line);
      }
      MissDrops(t, up, c, a, d);
      DropsAddUp(t.nodes[d].geometry, s[d], up[d], AfterMiss(t, up, c, a)[d], line,
        t.nodes[c].higher.Some? && Told(t, s, t.nodes[c].higher.value, a, d), d in t.nodes[c].lower);
    }
  }

  lemma MissDrops(t: Topology, up: System, c: nat, a: Access, d: nat)
    requires Valid(t) && Shaped(t, up) && c < |t.nodes| && Known(t, t.nodes[c].lower)
    requires d < |t.nodes| && t.nodes[d].level < t.nodes[c].level
    ensures HasDropped(t.nodes[d].geometry, up[d], AfterMiss(t, up, c, a)[d], LineOf(t, a), d in t.nodes[c].lower)
  {
    hide Find, Victim, Settle, Held;
    var g, line := t.nodes[c].geometry, LineOf(t, a);
    var i := Victim(t.variant, g, up[c], line);
    var s1 := InformLower(t, up, t.nodes[c].lower, line);
    InformExactly(t, up, t.nodes[c].lower, line, d);
    SettleFrame(t, Update(s1, c, i, Refilled(t, s1[c][i], Tag(g, line), a)), c, i, Invalid, a, d);
  }

  /**
   * The cache that an access enters at: the way that has the line, or makes room for it, takes its tag, the state that
   * the protocol calls for and, if it was a hit or refills are stamped, the time. No other way changes.
   */
  lemma EntryExactly(t: Topology, s: System, c: nat, a: Access)
    requires Valid(t) && Shaped(t, s) && c < |t.nodes|
    ensures var g, line := t.nodes[c].geometry, LineOf(t, a);
      var hit := Find(g, s[c], line);
      var i := if hit != -1 then hit else Victim(t.variant, g, s[c], line);
      var state := Served(t.nodes[c].coherent, if hit != -1 then s[c][hit].state else Invalid, a.write);
      var stamp := if hit != -1 || t.variant == Repaired then a.timestamp else s[c][i].lastUsed;
      AccessCache(t, s, c, a).system[c] == s[c][i := CacheLine(Tag(g, line), state, stamp)]
  {
    hide Find, Victim, Settle, Base;
    assert Linked(t, c);
    var g, line := t.nodes[c].geometry, LineOf(t, a);
    if Find(g, s[c], line) != -1 {
      var i := Find(g, s[c], line);
      SettleServes(t, Update(s, c, i, s[c][i].(lastUsed := a.timestamp)), c, i, s[c][i].state, a);
    } else {
      var up := Asked(t, s, c, a);
      MissIs(t, s, up, c, a);
      if t.nodes[c].higher.Some? {
        BelowExactly(t, s, t.nodes[c].higher.value, a, c);
      }
      assert up[c] == s[c];
      var i := Victim(t.variant, g, up[c], line);
      InformFrame(t, up, c, line, c);
      var s1 := InformLower(t, up, t.nodes[c].lower, line);
      SettleServes(t, Update(s1, c, i, Refilled(t, s1[c][i], Tag(g, line), a)), c, i, Invalid, a);
    }
  }

  lemma SettleServes(t: Topology, s: System, c: nat, i: nat, previous: LineState, a: Access)
    requires Valid(t) && Shaped(t, s) && c < |t.nodes| && i < |s[c]|
    ensures Settle(t, s, c, i, previous, a)[c] ==
      s[c][i := s[c][i].(state := Served(t.nodes[c].coherent, previous, a.write))]
  {
    assert Linked(t, c);
  }

  /** The same of the last access of a run from fresh caches. */
  lemma LastMissesAreTold(h: Hierarchy, trace: seq<MemoryAccess>, last: MemoryAccess, m: nat, d: nat)
    requires ValidHierarchy(h) && AddressableTrace(trace) && last.address < ADDRESS_LIMIT
    requires !Refused(h, last) && |h.data| > 0 && m < |h.topology.nodes| && d in h.topology.nodes[m].lower
    requires Shaped(h.topology, Fresh(h.topology))
    requires var s := Run(h, Fresh(h.topology), trace).system;
      MissesAt(h.topology, s, Entry(h, last), Request(last), m)
      && !Passes(h.topology, s, Entry(h, last), Request(last), d)
    ensures d < |h.topology.nodes|
    ensures Held(h.topology, Run(h, Fresh(h.topology), trace + [last]).system, d, last.address / h.topology.lineSize)
      == Invalid
  {
    hide Held, AccessCache, Good, Passes, MissesAt, Entry;
    FreshIsGood(h.topology);
    RunKeeps(h, Fresh(h.topology), trace);
    RunLast(h, Fresh(h.topology), trace, last);
    MissesAreTold(h.topology, Run(h, Fresh(h.topology), trace).system, Entry(h, last), Request(last), m, d);
  }

  // ----- requests on the bus

  // The first invalid way of lines[i..hi], or hi.
  function FirstInvalid(lines: Lines, i: nat, hi: nat): (r: nat)
    requires i <= hi <= |lines|
    ensures i <= r <= hi && (r < hi ==> lines[r].state == Invalid)
    ensures forall k :: i <= k < r ==> lines[k].state != Invalid
    decreases hi - i
  {
    if i == hi || lines[i].state == Invalid then i else FirstInvalid(lines, i + 1, hi)
  }

  // An invalid way makes room before any other.
  lemma {:induction false} InvalidGoesFirst(v: Variant, lines: Lines, lo: nat, hi: nat, i: nat, smallest: nat,
                                            best: nat)
    requires lo <= i <= hi <= |lines| && lo <= best < hi
    ensures FirstInvalid(lines, i, hi) < hi ==>
      VictimFrom(v, lines, lo, hi, i, smallest, best) == FirstInvalid(lines, i, hi)
    decreases hi - i
  {
    if i < hi && lines[i].state != Invalid {
      if lines[if v == AsWritten then lo else i].lastUsed < smallest {
        InvalidGoesFirst(v, lines, lo, hi, i + 1, lines[i].lastUsed, i);
      } else {
        InvalidGoesFirst(v, lines, lo, hi, i + 1, smallest, best);
      }
    }
  }

  lemma VictimIsFirstInvalid(v: Variant, g: Geometry, lines: Lines, line: nat)
    requires g.Valid() && |lines| == g.size
    ensures var r := FirstInvalid(lines, Base(g, line), Base(g, line) + g.associativity);
      InWindow(g, line, r) ==> Victim(v, g, lines, line) == r
  {
    var lo := Base(g, line);
    InvalidGoesFirst(v, lines, lo, lo + g.associativity, lo, lines[lo].lastUsed, lo);
  }

  // A way that made room and is invalid now makes room again.
  lemma VictimStays(v: Variant, g: Geometry, lines: Lines, line: nat)
    requires g.Valid() && |lines| == g.size
    ensures var i := Victim(v, g, lines, line);
      Victim(v, g, lines[i := lines[i].(state := Invalid)], line) == i
  {
    hide Victim, Base;
    var i, lo, hi := Victim(v, g, lines, line), Base(g, line), Base(g, line) + g.associativity;
    var lines' := lines[i := lines[i].(state := Invalid)];
    VictimIsFirstInvalid(v, g, lines, line);
    VictimIsFirstInvalid(v, g, lines', line);
    assert lines'[i].state == Invalid;
    var r := FirstInvalid(lines', lo, hi);
    assert r <= i;
    assert lines[r].state == Invalid || r == i;
  }

  // The way that a request of another cache acts on, and the state that it leaves there.
  function SnoopedWay(v: Variant, g: Geometry, lines: Lines, line: nat): nat
    requires g.Valid() && |lines| == g.size
  {
    if Find(g, lines, line) != -1 then Find(g, lines, line) else Victim(v, g, lines, line)
  }

  predicate IsRequest(event: Event) {
    event == BusRead || event == BusReadX || event == BusUpgrade
  }

  // A cache after a request: the line itself is given up, or shared if it is only to be read; without the line, the
  // way that would make room for it is invalid.
  ghost predicate HasBowed(v: Variant, g: Geometry, before: Lines, after: Lines, line: nat, event: Event)
    requires g.Valid() && |before| == g.size
  {
    && |after| == |before|
    && forall i :: 0 <= i < |before| ==>
      after[i] ==
        if i != SnoopedWay(v, g, before, line) then before[i]
        else if event == BusRead && Find(g, before, line) != -1 && before[i].state != Invalid then
          before[i].(state := Shared)
        else before[i].(state := Invalid)
  }

  lemma SnoopBows(t: Topology, s: System, c: nat, event: Event, line: nat)
    requires Valid(t) && Shaped(t, s) && c < |t.nodes| && IsRequest(event)
    ensures HasBowed(t.variant, t.nodes[c].geometry, s[c], Snoop(t, s, c, event, line)[c], line, event)
  {
    hide Find, Victim, Base;
  }

  // Who has bowed once does not bow deeper.
  lemma BowOnce(v: Variant, g: Geometry, l0: Lines, l1: Lines, l2: Lines, line: nat, event: Event)
    requires g.Valid() && |l0| == g.size && IsRequest(event)
    requires HasBowed(v, g, l0, l1, line, event) && HasBowed(v, g, l1, l2, line, event)
    ensures l2 == l1
  {
    hide Find, Victim, Base;
    SameTagsSameFind(g, l0, l1, line);
    if Find(g, l0, line) == -1 {
      VictimStays(v, g, l0, line);
      var i := Victim(v, g, l0, line);
      assert l1 == l0[i := l0[i].(state := Invalid)];
    }
  }

  lemma {:induction false} BroadcastBows(t: Topology, s: System, peers: seq<nat>, origin: nat, event: Event, line: nat,
                                         p: nat)
    requires Valid(t) && Shaped(t, s) && Known(t, peers) && IsRequest(event) && p in peers && p != origin
    ensures p < |s|
    ensures HasBowed(t.variant, t.nodes[p].geometry, s[p], Broadcast(t, s, peers, origin, event, line)[p], line, event)
    decreases |peers|
  {
    hide HasBowed, Snoop;
    var s1 := if peers[0] == origin then s else Snoop(t, s, peers[0], event, line);
    var s' := Broadcast(t, s, peers, origin, event, line);
    if peers[0] == p {
      SnoopBows(t, s, p, event, line);
    }
    if p in peers[1..] {
      BroadcastBows(t, s1, peers[1..], origin, event, line, p);
      if peers[0] == p {
        BowOnce(t.variant, t.nodes[p].geometry, s[p], s1[p], s'[p], line, event);
      }
    }
  }

  // What an access puts on the bus of a cache that holds its line in this state.
  function Asks(before: LineState, write: bool): (r: BusRequest)
    ensures r.Ask? ==> IsRequest(r.event)
  {
    if write then
      if before == Modified then Silent else if before == Shared then Ask(BusUpgrade) else Ask(BusReadX)
    else if before == Invalid then Ask(BusRead) else Silent
  }

  // The contents of the other caches of the level of cache c when the access comes to the bus.
  function AtTheBus(t: Topology, s: System, c: nat, a: Access): (u: System)
    requires Valid(t) && Shaped(t, s) && c < |t.nodes|
    ensures Shaped(t, u)
  {
    if Find(t.nodes[c].geometry, s[c], LineOf(t, a)) != -1 then s else Asked(t, s, c, a)
  }

  /**
   * The bus of the cache that an access enters at: the request that the protocol calls for reaches every other cache
   * there, and without one none of them changes.
   */
  lemma BusHears(t: Topology, s: System, c: nat, a: Access, p: nat)
    requires Valid(t) && Shaped(t, s) && Good(t, s) && c < |t.nodes| && Addressable(a)
    requires p in t.nodes[c].peers && p != c
    ensures p < |s|
    ensures var u, s' := AtTheBus(t, s, c, a), AccessCache(t, s, c, a).system;
      var request := Asks(Held(t, s, c, LineOf(t, a)), a.write);
      if request.Ask? then HasBowed(t.variant, t.nodes[p].geometry, u[p], s'[p], LineOf(t, a), request.event)
      else s'[p] == u[p]
  {
    hide Good, Find, HasBowed;
    assert Linked(t, c);
    var g, line := t.nodes[c].geometry, LineOf(t, a);
    if Find(g, s[c], line) != -1 {
      var i := Find(g, s[c], line);
      SettleBows(t, Update(s, c, i, s[c][i].(lastUsed := a.timestamp)), c, i, s[c][i].state, a, p);
    } else {
      var up := AboveMissed(t, s, c, a);
      var i := Victim(t.variant, g, up[c], line);
      InformFrame(t, up, c, line, p);
      var s1 := InformLower(t, up, t.nodes[c].lower, line);
      SettleBows(t, Update(s1, c, i, Refilled(t, s1[c][i], Tag(g, line), a)), c, i, Invalid, a, p);
    }
  }

  /** The same holds of the bus of every cache that the access passes through. */
  lemma {:induction false} PassedBusesHear(t: Topology, s: System, c: nat, a: Access, m: nat, p: nat)
    requires Valid(t) && Shaped(t, s) && Good(t, s) && c < |t.nodes| && Addressable(a)
    requires Passes(t, s, c, a, m) && m < |t.nodes| && p in t.nodes[m].peers && p != m
    ensures p < |s|
    ensures var u, s' := AtTheBus(t, s, m, a), AccessCache(t, s, c, a).system;
      var request := Asks(Held(t, s, m, LineOf(t, a)), a.write);
      if request.Ask? then HasBowed(t.variant, t.nodes[p].geometry, u[p], s'[p], LineOf(t, a), request.event)
      else s'[p] == u[p]
    decreases MAX_CACHE_LEVELS - t.nodes[c].level
  {
    hide Good, Find, HasBowed, AccessCache, AtTheBus, Asks, AfterMiss, Held;
    assert Linked(t, c) && Linked(t, m);
    if m == c {
      BusHears(t, s, c, a, p);
    } else {
      var up := AboveMissed(t, s, c, a);
      PassedBusesHear(t, s, t.nodes[c].higher.value, a, m, p);
      PassedAreAbove(t, s, t.nodes[c].higher.value, a, m);
      AfterMissFrame(t, up, c, a, p);
    }
  }

  lemma {:induction false} PassedAreAbove(t: Topology, s: System, c: nat, a: Access, m: nat)
    requires Valid(t) && Shaped(t, s) && c < |t.nodes| && Passes(t, s, c, a, m)
    ensures m < |t.nodes| && t.nodes[c].level <= t.nodes[m].level
    decreases MAX_CACHE_LEVELS - t.nodes[c].level
  {
    hide Find;
    assert Linked(t, c);
    if m != c {
      PassedAreAbove(t, s, t.nodes[c].higher.value, a, m);
    }
  }

  lemma SettleBows(t: Topology, s: System, c: nat, i: nat, previous: LineState, a: Access, p: nat)
    requires Valid(t) && Shaped(t, s) && c < |t.nodes| && i < |s[c]| && p in t.nodes[c].peers && p != c
    ensures p < |s|
    ensures var request, s' := Asks(previous, a.write), Settle(t, s, c, i, previous, a);
      if request.Ask? then HasBowed(t.variant, t.nodes[p].geometry, s[p], s'[p], LineOf(t, a), request.event)
      else s'[p] == s[p]
  {
    hide HasBowed;
    assert Linked(t, c);
    var request := Asks(previous, a.write);
    if request.Ask? {
      var next := NewState(previous, if a.write then Write else Read).0;
      BroadcastBows(t, Update(s, c, i, s[c][i].(state := next)), t.nodes[c].peers, c, request.event, LineOf(t, a), p);
    }
  }

  // ----- who has a modified line

  ghost predicate AllCoherent(t: Topology) {
    forall c :: 0 <= c < |t.nodes| ==> t.nodes[c].coherent
  }

  lemma {:induction false} PassedAreServed(t: Topology, s: System, s': System, c: nat, a: Access, d: nat)
    requires Valid(t) && Shaped(t, s) && Shaped(t, s') && c < |t.nodes|
    requires VisitedHold(t, s, s', c, a) && Passes(t, s, c, a, d)
    ensures d < |t.nodes|
    ensures Held(t, s', d, LineOf(t, a)) == Served(t.nodes[d].coherent, Held(t, s, d, LineOf(t, a)), a.write)
    decreases MAX_CACHE_LEVELS - t.nodes[c].level
  {
    hide Find, Held;
    assert Linked(t, c);
    if d != c {
      PassedAreServed(t, s, s', t.nodes[c].higher.value, a, d);
    }
  }

  // A line is modified after an access if it was before, or if it was written and the access passed through.
  lemma ModifiedComesFrom(t: Topology, s: System, c: nat, a: Access, d: nat, y: nat)
    requires Valid(t) && Shaped(t, s) && Good(t, s) && c < |t.nodes| && Addressable(a) && AllCoherent(t)
    requires d < |t.nodes| && Held(t, AccessCache(t, s, c, a).system, d, y) == Modified
    ensures Held(t, s, d, y) == Modified || (a.write && y == LineOf(t, a) && Passes(t, s, c, a, d))
  {
    hide Find, Held, Good, AccessCache, VisitedHold, Passes;
    var s' := AccessCache(t, s, c, a).system;
    AccessKeeps(t, s, c, a);
    AccessDemotesOthers(t, s, c, a);
    if y == LineOf(t, a) && Passes(t, s, c, a, d) {
      PassedAreServed(t, s, s', c, a, d);
    } else {
      assert Demoted(Held(t, s', d, y), Held(t, s, d, y));
    }
  }

  // Some access of the trace, by a processor of the hierarchy, wrote the line.
  ghost predicate WasWritten(h: Hierarchy, trace: seq<MemoryAccess>, line: nat)
    requires h.topology.lineSize > 0
  {
    exists i :: 0 <= i < |trace| && WritesTo(h, trace[i], line)
  }

  predicate WritesTo(h: Hierarchy, m: MemoryAccess, line: nat)
    requires h.topology.lineSize > 0
  {
    m.kind == KIND_WRITE && m.cpu < h.cpus && m.address / h.topology.lineSize == line
  }

  /** Over every run of the protocol, a line that a cache has modified was written by some access of the run. */
  lemma {:induction false} ModifiedWasWritten(h: Hierarchy, trace: seq<MemoryAccess>, c: nat, line: nat)
    requires ValidHierarchy(h) && AddressableTrace(trace) && AllCoherent(h.topology) && c < |h.topology.nodes|
    ensures Shaped(h.topology, Fresh(h.topology))
    ensures Held(h.topology, Run(h, Fresh(h.topology), trace).system, c, line) == Modified ==>
      WasWritten(h, trace, line)
  {
    hide Held, AccessCache, Good, Passes;
    var t, s := h.topology, Fresh(h.topology);
    FreshIsGood(t);
    if trace == [] {
      FreshHoldsNothing(t, c, line);
    } else if Held(t, Run(h, s, trace).system, c, line) == Modified {
      var init, m := trace[..|trace| - 1], trace[|trace| - 1];
      ModifiedWasWritten(h, init, c, line);
      RunKeeps(h, s, init);
      if !Refused(h, m) && |h.data| != 0 {
        ModifiedComesFrom(t, Run(h, s, init).system, Entry(h, m), Request(m), c, line);
        assert WritesTo(h, trace[|trace| - 1], line) ==> WasWritten(h, trace, line);
      }
      if WasWritten(h, init, line) {
        var i :| 0 <= i < |init| && WritesTo(h, init[i], line);
        assert WritesTo(h, trace[i], line);
      }
    }
  }

  lemma FreshHoldsNothing(t: Topology, c: nat, line: nat)
    requires Valid(t) && c < |t.nodes|
    ensures Shaped(t, Fresh(t)) && Held(t, Fresh(t), c, line) == Invalid
  {
  }

  // A modified way is that of a line, which is held modified.
  lemma ModifiedWayIsHeld(g: Geometry, lines: Lines, x: nat, i: nat) returns (y: nat)
    requires g.Valid() && |lines| == g.size && Tidy(g, lines) && InWindow(g, x, i) && lines[i].state == Modified
    ensures StateOf(g, lines, y) == Modified
  {
    y := lines[i].tag * g.Sets() + SetIndex(g, x);
    EveryTagAndSetIsALine(g, lines[i].tag, SetIndex(g, x));
    FindIsThe(g, lines, y, i);
  }

  lemma EvictedWasHeld(t: Topology, s: System, c: nat, a: Access) returns (y: nat)
    requires Valid(t) && Shaped(t, s) && Good(t, s) && c < |t.nodes| && EvictsModified(t, s, c, a)
    ensures Held(t, s, c, y) == Modified
  {
    hide Tidy, SingleWriter, Victim, Base, Find;
    var g, line := t.nodes[c].geometry, LineOf(t, a);
    y := ModifiedWayIsHeld(g, s[c], line, Victim(t.variant, g, s[c], line));
  }

  /**
   * A run without writes writes nothing back: there are as many reports as last-level misses, and every other access
   * that was accepted is a hit.
   */
  lemma {:induction false} ReadsWriteNothingBack(h: Hierarchy, trace: seq<MemoryAccess>)
    requires ValidHierarchy(h) && AddressableTrace(trace) && AllCoherent(h.topology) && LastLevelsReport(h.topology)
    requires forall i :: 0 <= i < |trace| ==> trace[i].kind != KIND_WRITE
    ensures Shaped(h.topology, Fresh(h.topology))
    ensures var n := TallyRun(h, Fresh(h.topology), trace);
      && n.writeBacks == 0 && |Run(h, Fresh(h.topology), trace).reports| == n.misses
      && AmountAccepted(h, trace) == n.hits + n.misses
  {
    hide Held, AccessCache, Good;
    var t, s := h.topology, Fresh(h.topology);
    FreshIsGood(t);
    RunAddsUp(h, s, trace);
    if trace != [] {
      var init, m := trace[..|trace| - 1], trace[|trace| - 1];
      ReadsWriteNothingBack(h, init);
      RunKeeps(h, s, init);
      if !Refused(h, m) && |h.data| != 0 {
        var u, a := Run(h, s, init).system, Request(m);
        var e := EndOf(t, u, Entry(h, m), a);
        if EvictsModified(t, u, e.cache, a) {
          var y := EvictedWasHeld(t, u, e.cache, a);
          ModifiedWasWritten(h, init, e.cache, y);
          assert false;
        }
      }
    }
  }
}
