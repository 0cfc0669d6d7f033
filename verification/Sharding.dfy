/**
 * Splitting a trace over workers by line number. An access works on the sets of its own line only, in
 * every cache; so when every set count is a multiple of the number of workers, the worker that
 * simulates one residue class of lines computes exactly its share of the whole simulation.
 */
module Sharding {
  import opened Arith
  import opened Msi
  import opened CacheSpec
  import opened Coherence
  import opened Hierarchy

  // ----- an access works in the windows of its own line

  // Outside the sets of line x nothing differs, in any cache.
  ghost predicate SameOutside(t: Topology, s: System, s': System, x: nat)
    requires Valid(t) && Shaped(t, s) && Shaped(t, s')
  {
    forall c: nat, i: nat :: c < |s| && i < |s[c]| && !InWindow(t.nodes[c].geometry, x, i) ==> s'[c][i] == s[c][i]
  }

  // Inside the sets of line x nothing differs, in any cache.
  ghost predicate SameInside(t: Topology, s: System, s': System, x: nat)
    requires Valid(t) && Shaped(t, s) && Shaped(t, s')
  {
    forall c: nat, i: nat :: c < |s| && i < |s[c]| && InWindow(t.nodes[c].geometry, x, i) ==> s'[c][i] == s[c][i]
  }

  // What is found, and what would be evicted, depends on the window only.
  lemma WindowDecides(t: Topology, s1: System, s2: System, c: nat, x: nat)
    requires Valid(t) && Shaped(t, s1) && Shaped(t, s2) && c < |t.nodes| && SameInside(t, s1, s2, x)
    ensures Find(t.nodes[c].geometry, s1[c], x) == Find(t.nodes[c].geometry, s2[c], x)
    ensures Victim(t.variant, t.nodes[c].geometry, s1[c], x) == Victim(t.variant, t.nodes[c].geometry, s2[c], x)
  {
    var g := t.nodes[c].geometry;
    var lo := Base(g, x);
    assert forall i :: lo <= i < lo + g.associativity ==> InWindow(g, x, i);
    assert forall i :: lo <= i < lo + g.associativity ==> s1[c][i] == s2[c][i];
    VictimDecided(t.variant, s1[c], s2[c], lo, lo + g.associativity, lo, s1[c][lo].lastUsed, lo);
  }

  lemma {:induction false} VictimDecided(v: Variant, l1: Lines, l2: Lines, lo: nat, hi: nat, i: nat, smallest: nat,
                                         best: nat)
    requires lo <= i <= hi <= |l1| == |l2| && lo <= best < hi
    requires forall k :: lo <= k < hi ==> l1[k] == l2[k]
    ensures VictimFrom(v, l1, lo, hi, i, smallest, best) == VictimFrom(v, l2, lo, hi, i, smallest, best)
    decreases hi - i
  {
    if i < hi && l1[i].state != Invalid {
      if l1[if v == AsWritten then lo else i].lastUsed < smallest {
        VictimDecided(v, l1, l2, lo, hi, i + 1, l1[i].lastUsed, i);
      } else {
        VictimDecided(v, l1, l2, lo, hi, i + 1, smallest, best);
      }
    }
  }

  lemma UpdateLocal(t: Topology, s1: System, s2: System, c: nat, i: nat, y: CacheLine, x: nat)
    requires Valid(t) && Shaped(t, s1) && Shaped(t, s2) && c < |t.nodes| && SameInside(t, s1, s2, x)
    requires InWindow(t.nodes[c].geometry, x, i)
    ensures Shaped(t, Update(s1, c, i, y)) && Shaped(t, Update(s2, c, i, y))
    ensures SameOutside(t, s1, Update(s1, c, i, y), x) && SameInside(t, Update(s1, c, i, y), Update(s2, c, i, y), x)
  {
  }

  lemma {:induction false} InformLocal(t: Topology, s1: System, s2: System, lower: seq<nat>, x: nat)
    requires Valid(t) && Shaped(t, s1) && Shaped(t, s2) && Known(t, lower) && SameInside(t, s1, s2, x)
    ensures SameOutside(t, s1, InformLower(t, s1, lower, x), x)
    ensures SameInside(t, InformLower(t, s1, lower, x), InformLower(t, s2, lower, x), x)
    decreases |lower|
  {
    if lower != [] {
      var c := lower[0];
      WindowDecides(t, s1, s2, c, x);
      var i := Find(t.nodes[c].geometry, s1[c], x);
      if i == -1 {
        InformLocal(t, s1, s2, lower[1..], x);
      } else {
        var y := s1[c][i].(state := Invalid);
        UpdateLocal(t, s1, s2, c, i, y, x);
        InformLocal(t, Update(s1, c, i, y), Update(s2, c, i, y), lower[1..], x);
      }
    }
  }

  lemma SnoopLocal(t: Topology, s1: System, s2: System, p: nat, event: Event, x: nat)
    requires Valid(t) && Shaped(t, s1) && Shaped(t, s2) && p < |t.nodes| && SameInside(t, s1, s2, x)
    ensures SameOutside(t, s1, Snoop(t, s1, p, event, x), x)
    ensures SameInside(t, Snoop(t, s1, p, event, x), Snoop(t, s2, p, event, x), x)
  {
    WindowDecides(t, s1, s2, p, x);
  }

  lemma OutsideOutside(t: Topology, s1: System, s2: System, s3: System, x: nat)
    requires Valid(t) && Shaped(t, s1) && Shaped(t, s2) && Shaped(t, s3)
    requires SameOutside(t, s1, s2, x) && SameOutside(t, s2, s3, x)
    ensures SameOutside(t, s1, s3, x)
  {
  }

  lemma SameIsOutside(t: Topology, s: System, x: nat)
    requires Valid(t) && Shaped(t, s)
    ensures SameOutside(t, s, s, x)
  {
  }

  lemma {:induction false} BroadcastLocal(t: Topology, s1: System, s2: System, peers: seq<nat>, origin: nat,
                                          event: Event, x: nat)
    requires Valid(t) && Shaped(t, s1) && Shaped(t, s2) && Known(t, peers) && SameInside(t, s1, s2, x)
    ensures SameOutside(t, s1, Broadcast(t, s1, peers, origin, event, x), x)
    ensures SameInside(t, Broadcast(t, s1, peers, origin, event, x), Broadcast(t, s2, peers, origin, event, x), x)
    decreases |peers|
  {
    hide SameOutside, SameInside, Snoop;
    SameIsOutside(t, s1, x);
    if peers != [] {
      if peers[0] == origin {
        BroadcastLocal(t, s1, s2, peers[1..], origin, event, x);
      } else {
        var s1', s2' := Snoop(t, s1, peers[0], event, x), Snoop(t, s2, peers[0], event, x);
        SnoopLocal(t, s1, s2, peers[0], event, x);
        BroadcastLocal(t, s1', s2', peers[1..], origin, event, x);
        OutsideOutside(t, s1, s1', Broadcast(t, s1', peers[1..], origin, event, x), x);
      }
    }
  }

  lemma SettleLocal(t: Topology, s1: System, s2: System, c: nat, i: nat, previous: LineState, a: Access)
    requires Valid(t) && Shaped(t, s1) && Shaped(t, s2) && c < |t.nodes| && SameInside(t, s1, s2, LineOf(t, a))
    requires InWindow(t.nodes[c].geometry, LineOf(t, a), i)
    ensures SameOutside(t, s1, Settle(t, s1, c, i, previous, a), LineOf(t, a))
    ensures SameInside(t, Settle(t, s1, c, i, previous, a), Settle(t, s2, c, i, previous, a), LineOf(t, a))
  {
    var n := t.nodes[c];
    assert Linked(t, c);
    if n.coherent {
      var (next, request) := NewState(previous, if a.write then Write else Read);
      var s1', s2' := Update(s1, c, i, s1[c][i].(state := next)), Update(s2, c, i, s2[c][i].(state := next));
      if request.Ask? {
        BroadcastLocal(t, s1', s2', n.peers, c, request.event, LineOf(t, a));
      }
    }
  }

  lemma MissLocal(t: Topology, s1: System, s2: System, c: nat, a: Access)
    requires Valid(t) && Shaped(t, s1) && Shaped(t, s2) && c < |t.nodes| && SameInside(t, s1, s2, LineOf(t, a))
    requires Known(t, t.nodes[c].lower)
    ensures SameOutside(t, s1, AfterMiss(t, s1, c, a), LineOf(t, a))
    ensures SameInside(t, AfterMiss(t, s1, c, a), AfterMiss(t, s2, c, a), LineOf(t, a))
    ensures WritesBack(t, s1, c, a) == WritesBack(t, s2, c, a)
  {
    var g, x := t.nodes[c].geometry, LineOf(t, a);
    WindowDecides(t, s1, s2, c, x);
    InformLocal(t, s1, s2, t.nodes[c].lower, x);
    var i := Victim(t.variant, g, s1[c], x);
    var u1, u2 := InformLower(t, s1, t.nodes[c].lower, x), InformLower(t, s2, t.nodes[c].lower, x);
    var v1 := Update(u1, c, i, Refilled(t, u1[c][i], Tag(g, x), a));
    var v2 := Update(u2, c, i, Refilled(t, u2[c][i], Tag(g, x), a));
    assert u1[c][i] == u2[c][i];
    SettleLocal(t, v1, v2, c, i, Invalid, a);
  }

  lemma HitLocal(t: Topology, s1: System, s2: System, c: nat, a: Access)
    requires Valid(t) && Shaped(t, s1) && Shaped(t, s2) && c < |t.nodes| && SameInside(t, s1, s2, LineOf(t, a))
    requires Find(t.nodes[c].geometry, s1[c], LineOf(t, a)) == Find(t.nodes[c].geometry, s2[c], LineOf(t, a)) != -1
    ensures SameOutside(t, s1, AccessCache(t, s1, c, a).system, LineOf(t, a))
    ensures SameInside(t, AccessCache(t, s1, c, a).system, AccessCache(t, s2, c, a).system, LineOf(t, a))
    ensures AccessCache(t, s1, c, a).reports == AccessCache(t, s2, c, a).reports
  {
    var i := Find(t.nodes[c].geometry, s1[c], LineOf(t, a));
    var s1' := Update(s1, c, i, s1[c][i].(lastUsed := a.timestamp));
    var s2' := Update(s2, c, i, s2[c][i].(lastUsed := a.timestamp));
    SettleLocal(t, s1', s2', c, i, s1[c][i].state, a);
  }

  // The refill after the higher level, if there is one, was asked.
  lemma MissedLocal(t: Topology, s1: System, s2: System, up1: System, up2: System, c: nat, a: Access)
    requires Valid(t) && Shaped(t, s1) && Shaped(t, s2) && c < |t.nodes| && Linked(t, c) && Known(t, t.nodes[c].lower)
    requires Find(t.nodes[c].geometry, s1[c], LineOf(t, a)) == Find(t.nodes[c].geometry, s2[c], LineOf(t, a)) == -1
    requires up1 == Asked(t, s1, c, a) && up2 == Asked(t, s2, c, a)
    requires SameOutside(t, s1, up1, LineOf(t, a)) && SameInside(t, up1, up2, LineOf(t, a))
    requires t.nodes[c].higher.Some? ==>
      AccessCache(t, s1, t.nodes[c].higher.value, a).reports == AccessCache(t, s2, t.nodes[c].higher.value, a).reports
    ensures SameOutside(t, s1, AccessCache(t, s1, c, a).system, LineOf(t, a))
    ensures SameInside(t, AccessCache(t, s1, c, a).system, AccessCache(t, s2, c, a).system, LineOf(t, a))
    ensures AccessCache(t, s1, c, a).reports == AccessCache(t, s2, c, a).reports
  {
    MissLocal(t, up1, up2, c, a);
    OutsideOutside(t, s1, up1, AfterMiss(t, up1, c, a), LineOf(t, a));
    hide SameOutside, SameInside;
  }

  /**
   * Non-interference: an access changes nothing outside the sets of its line, and what it does inside
   * them, and what it reports, is decided by what was inside them.
   */
  lemma {:induction false} AccessLocal(t: Topology, s1: System, s2: System, c: nat, a: Access)
    requires Valid(t) && Shaped(t, s1) && Shaped(t, s2) && c < |t.nodes| && SameInside(t, s1, s2, LineOf(t, a))
    ensures SameOutside(t, s1, AccessCache(t, s1, c, a).system, LineOf(t, a))
    ensures SameInside(t, AccessCache(t, s1, c, a).system, AccessCache(t, s2, c, a).system, LineOf(t, a))
    ensures AccessCache(t, s1, c, a).reports == AccessCache(t, s2, c, a).reports
    decreases MAX_CACHE_LEVELS - t.nodes[c].level
  {
    assert Linked(t, c);
    WindowDecides(t, s1, s2, c, LineOf(t, a));
    SameIsOutside(t, s1, LineOf(t, a));
    if Find(t.nodes[c].geometry, s1[c], LineOf(t, a)) != -1 {
      HitLocal(t, s1, s2, c, a);
    } else {
      if t.nodes[c].higher.Some? {
        AccessLocal(t, s1, s2, t.nodes[c].higher.value, a);
      }
      MissedLocal(t, s1, s2, Asked(t, s1, c, a), Asked(t, s2, c, a), c, a);
    }
  }

  // ----- residue classes of lines and of sets

  ghost predicate Shardable(t: Topology, n: nat)
    requires Valid(t)
  {
    n > 0 && forall c :: 0 <= c < |t.nodes| ==> t.nodes[c].geometry.Sets() % n == 0
  }

  // The same lines in every set whose number is k modulo n, in every cache.
  ghost predicate AgreeOn(t: Topology, n: nat, k: nat, s: System, s': System)
    requires Valid(t) && Shaped(t, s) && Shaped(t, s') && n > 0
  {
    forall c: nat, i: nat :: c < |s| && i < |s[c]| && (i / t.nodes[c].geometry.associativity) % n == k ==>
      s'[c][i] == s[c][i]
  }

  lemma SetOfWindow(g: Geometry, x: nat, i: nat)
    requires g.Valid() && InWindow(g, x, i)
    ensures i / g.associativity == SetIndex(g, x)
  {
    DivideUnique(i, g.associativity, SetIndex(g, x), i - Base(g, x));
  }

  lemma ResidueOfSet(n: nat, sets: nat, x: nat)
    requires n > 0 && sets > 0 && sets % n == 0
    ensures (x % sets) % n == x % n
  {
    var q, r := Divided(x, sets);
    var m, rest := Divided(sets, n);
    var z, s := Divided(r, n);
    Associate(q, m, n);
    DigitOf(q * m, z, s, n);
  }

  lemma WindowInClass(t: Topology, n: nat, c: nat, x: nat, i: nat)
    requires Valid(t) && Shardable(t, n) && c < |t.nodes| && InWindow(t.nodes[c].geometry, x, i)
    ensures (i / t.nodes[c].geometry.associativity) % n == x % n
  {
    SetOfWindow(t.nodes[c].geometry, x, i);
    ResidueOfSet(n, t.nodes[c].geometry.Sets(), x);
  }

  // An access to a line of another class is not seen.
  lemma ForeignAccess(t: Topology, n: nat, k: nat, s: System, s': System, c: nat, a: Access)
    requires Valid(t) && Shaped(t, s) && Shaped(t, s') && Shardable(t, n) && AgreeOn(t, n, k, s, s') && c < |t.nodes|
    requires LineOf(t, a) % n != k
    ensures AgreeOn(t, n, k, AccessCache(t, s, c, a).system, s')
  {
    AccessLocal(t, s, s, c, a);
    var u := AccessCache(t, s, c, a).system;
    forall d: nat, i: nat | d < |u| && i < |u[d]| && (i / t.nodes[d].geometry.associativity) % n == k
      ensures s'[d][i] == u[d][i]
    {
      if InWindow(t.nodes[d].geometry, LineOf(t, a), i) {
        WindowInClass(t, n, d, LineOf(t, a), i);
      }
    }
  }

  // An access to a line of the class has the same effect on both sides.
  lemma OwnAccess(t: Topology, n: nat, k: nat, s: System, s': System, c: nat, a: Access)
    requires Valid(t) && Shaped(t, s) && Shaped(t, s') && Shardable(t, n) && AgreeOn(t, n, k, s, s') && c < |t.nodes|
    requires LineOf(t, a) % n == k
    ensures AgreeOn(t, n, k, AccessCache(t, s, c, a).system, AccessCache(t, s', c, a).system)
    ensures AccessCache(t, s, c, a).reports == AccessCache(t, s', c, a).reports
  {
    var x := LineOf(t, a);
    forall d: nat, i: nat | d < |s| && i < |s[d]| && InWindow(t.nodes[d].geometry, x, i) ensures s'[d][i] == s[d][i] {
      WindowInClass(t, n, d, x, i);
    }
    AccessLocal(t, s, s', c, a);
    AccessLocal(t, s', s', c, a);
    var u, u' := AccessCache(t, s, c, a).system, AccessCache(t, s', c, a).system;
    forall d: nat, i: nat | d < |u| && i < |u[d]| && (i / t.nodes[d].geometry.associativity) % n == k
      ensures u'[d][i] == u[d][i]
    {
      if !InWindow(t.nodes[d].geometry, x, i) {
        assert s'[d][i] == s[d][i];
      }
    }
  }

  // ----- whole runs

  // The accesses of a trace whose line number is k modulo n, in order.
  function Shard(lineSize: nat, trace: seq<MemoryAccess>, n: nat, k: nat): seq<MemoryAccess>
    requires lineSize > 0 && n > 0
  {
    if trace == [] then []
    else
      var m := trace[|trace| - 1];
      Shard(lineSize, trace[..|trace| - 1], n, k) + if (m.address / lineSize) % n == k then [m] else []
  }

  // The reports about such lines, in order.
  function ReportsAbout(lineSize: nat, reports: seq<Access>, n: nat, k: nat): seq<Access>
    requires lineSize > 0 && n > 0
  {
    if reports == [] then []
    else
      var a := reports[|reports| - 1];
      ReportsAbout(lineSize, reports[..|reports| - 1], n, k) + if (a.address / lineSize) % n == k then [a] else []
  }

  // Every report of an access is about the accessed address.
  lemma {:induction false} ReportsAreAboutTheAccess(t: Topology, s: System, c: nat, a: Access)
    requires Valid(t) && Shaped(t, s) && c < |t.nodes|
    ensures forall i :: 0 <= i < |AccessCache(t, s, c, a).reports| ==> AccessCache(t, s, c, a).reports[i] == a
    decreases MAX_CACHE_LEVELS - t.nodes[c].level
  {
    hide AfterMiss, Settle, Find, WritesBack;
    var n := t.nodes[c];
    assert Linked(t, c);
    if Find(n.geometry, s[c], LineOf(t, a)) == -1 && n.higher.Some? {
      ReportsAreAboutTheAccess(t, s, n.higher.value, a);
      var up := AccessCache(t, s, n.higher.value, a);
      assert AccessCache(t, s, c, a).reports == up.reports + if WritesBack(t, up.system, c, a) then [a] else [];
    }
  }

  lemma {:induction false} ReportsAboutAppend(lineSize: nat, r1: seq<Access>, r2: seq<Access>, a: Access, n: nat,
                                              k: nat)
    requires lineSize > 0 && n > 0 && forall i :: 0 <= i < |r2| ==> r2[i] == a
    ensures ReportsAbout(lineSize, r1 + r2, n, k) ==
            ReportsAbout(lineSize, r1, n, k) + if (a.address / lineSize) % n == k then r2 else []
    decreases |r2|
  {
    if r2 == [] {
      assert r1 + r2 == r1;
    } else {
      var init := r2[..|r2| - 1];
      assert (r1 + r2)[..|r1 + r2| - 1] == r1 + init;
      ReportsAboutAppend(lineSize, r1, init, a, n, k);
      assert r2 == init + [a];
    }
  }

  /**
   * Sharded simulation equals sequential simulation: when n divides every set count, a hierarchy fed
   * only the accesses with line number k modulo n ends with the same tag, state and stamp as one fed
   * the whole trace in every set of class k of every cache, and reports the same misses about those
   * lines in the same order.
   */
  lemma {:induction false} ShardEqualsShareOfWhole(h: Hierarchy, s: System, trace: seq<MemoryAccess>, n: nat, k: nat)
    requires ValidHierarchy(h) && Shaped(h.topology, s) && Shardable(h.topology, n)
    ensures var t := h.topology;
      var whole, share := Run(h, s, trace), Run(h, s, Shard(t.lineSize, trace, n, k));
      AgreeOn(t, n, k, whole.system, share.system) && share.reports == ReportsAbout(t.lineSize, whole.reports, n, k)
  {
    if trace != [] {
      var t := h.topology;
      var init, m := trace[..|trace| - 1], trace[|trace| - 1];
      ShardEqualsShareOfWhole(h, s, init, n, k);
      var whole, share := Run(h, s, init), Run(h, s, Shard(t.lineSize, init, n, k));
      var own := (m.address / t.lineSize) % n == k;
      var last := Step(h, whole.system, m);
      if own {
        RunLast(h, s, Shard(t.lineSize, init, n, k), m);
      } else {
        assert Shard(t.lineSize, trace, n, k) == Shard(t.lineSize, init, n, k);
      }
      if Refused(h, m) || |h.data| == 0 {
        assert whole.reports + [] == whole.reports;
      } else {
        ReportsAreAboutTheAccess(t, whole.system, Entry(h, m), Request(m));
        if own {
          OwnAccess(t, n, k, whole.system, share.system, Entry(h, m), Request(m));
        } else {
          ForeignAccess(t, n, k, whole.system, share.system, Entry(h, m), Request(m));
        }
      }
      ReportsAboutAppend(t.lineSize, whole.reports, last.reports, Request(m), n, k);
    }
  }
}
