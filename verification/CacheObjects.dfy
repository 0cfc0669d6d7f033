/**
 * The caches of a hierarchy with their lines updated in place (cache/state.c, cache/bus.c, cache/lru.c).
 * Every method that changes lines is proved against CacheSpec: it turns the contents of all caches into
 * what the function of the same name computes from them.
 */
module CacheObjects {
  import opened Msi
  import opened CacheSpec
  import opened Hierarchy

  /** One cache record: its shape and its lines. Its links to other caches are in the topology. */
  class CacheState {
    const variant: Variant
    const geometry: Geometry
    const lineSize: nat
    const lines: array<CacheLine>

    /** A cache with all lines unused. */
    constructor (variant: Variant, geometry: Geometry, lineSize: nat)
      ensures this.variant == variant && this.geometry == geometry && this.lineSize == lineSize
      ensures fresh(lines) && lines[..] == seq(geometry.size, i => UNUSED)
    {
      this.variant, this.geometry, this.lineSize := variant, geometry, lineSize;
      lines := new CacheLine[geometry.size](i => UNUSED);
    }

    predicate Sound() {
      geometry.Valid() && lines.Length == geometry.size && lineSize > 0
    }

    /** The way of its set that carries the tag of the address, or -1. */
    method GetLineLocation(address: nat) returns (r: int)
      requires Sound()
      ensures r == Find(geometry, lines[..], address / lineSize)
    {
      var tag, base := Tag(geometry, address / lineSize), Base(geometry, address / lineSize);
      var i := base;
      while i < base + geometry.associativity
        invariant base <= i <= base + geometry.associativity
        invariant FindFrom(lines[..], tag, base, base + geometry.associativity)
               == FindFrom(lines[..], tag, i, base + geometry.associativity)
      {
        if lines[i].tag == tag {
          return i;
        }
        i := i + 1;
      }
      return -1;
    }

    /** The way of its set that makes room for the address. */
    method FindLineToEvict(address: nat) returns (r: nat)
      requires Sound()
      ensures r == Victim(variant, geometry, lines[..], address / lineSize)
    {
      var base := Base(geometry, address / lineSize);
      var smallest, best := lines[base].lastUsed, base;
      var i := base;
      while i < base + geometry.associativity
        invariant base <= i <= base + geometry.associativity && base <= best < base + geometry.associativity
        invariant VictimFrom(variant, lines[..], base, base + geometry.associativity, i, smallest, best)
               == Victim(variant, geometry, lines[..], address / lineSize)
      {
        if lines[i].state == Invalid {
          return i;
        }
        if lines[if variant == AsWritten then base else i].lastUsed < smallest {
          smallest, best := lines[i].lastUsed, i;
        }
        i := i + 1;
      }
      return best;
    }
  }

  // The contents of a list of caches.
  ghost function Contents(caches: seq<CacheState>): (s: System)
    reads set c | c in caches :: c.lines
    ensures |s| == |caches| && forall i :: 0 <= i < |caches| ==> s[i] == caches[i].lines[..]
  {
    seq(|caches|, i requires 0 <= i < |caches|
                    reads if 0 <= i < |caches| then {caches[i].lines} else {} => caches[i].lines[..])
  }

  lemma LinksKnown(t: Topology, c: nat)
    requires Valid(t) && c < |t.nodes|
    ensures t.lineSize > 0 && Known(t, t.nodes[c].lower) && Known(t, t.nodes[c].peers)
  {
    assert Linked(t, c);
  }

  lemma InformUnroll(t: Topology, s: System, lower: seq<nat>, k: nat, line: nat)
    requires Valid(t) && Shaped(t, s) && Known(t, lower) && k < |lower|
    ensures InformLower(t, s, lower[k..], line) == InformLower(t, Drop(t, s, lower[k], line), lower[k + 1..], line)
  {
    assert lower[k..][0] == lower[k] && lower[k..][1..] == lower[k + 1..];
  }

  lemma InformNone(t: Topology, s: System, lower: seq<nat>, line: nat)
    requires Valid(t) && Shaped(t, s)
    ensures InformLower(t, s, lower[|lower|..], line) == s
  {
  }

  lemma BroadcastNone(t: Topology, s: System, peers: seq<nat>, c: nat, event: Event, line: nat)
    requires Valid(t) && Shaped(t, s)
    ensures Broadcast(t, s, peers[|peers|..], c, event, line) == s
  {
  }

  lemma BroadcastUnroll(t: Topology, s: System, peers: seq<nat>, k: nat, c: nat, event: Event, line: nat)
    requires Valid(t) && Shaped(t, s) && Known(t, peers) && k < |peers|
    ensures Broadcast(t, s, peers[k..], c, event, line) ==
      Broadcast(t, if peers[k] == c then s else CacheSpec.Snoop(t, s, peers[k], event, line),
                peers[k + 1..], c, event, line)
  {
    assert peers[k..][0] == peers[k] && peers[k..][1..] == peers[k + 1..];
  }

  // The system once the level above cache c has dealt with a miss, and its reports.
  ghost function Above(t: Topology, s: System, c: nat, a: Access): (r: Outcome)
    requires Valid(t) && Shaped(t, s) && c < |t.nodes|
    ensures Shaped(t, r.system)
  {
    assert Linked(t, c);
    var n := t.nodes[c];
    if n.higher.Some? then CacheSpec.AccessCache(t, s, n.higher.value, a) else Outcome(s, if n.reports then [a] else [])
  }

  lemma MissUnfold(t: Topology, s: System, c: nat, a: Access)
    requires Valid(t) && Shaped(t, s) && c < |t.nodes| && Find(t.nodes[c].geometry, s[c], LineOf(t, a)) == -1
    ensures Known(t, t.nodes[c].lower)
    ensures var up := Above(t, s, c, a);
      CacheSpec.AccessCache(t, s, c, a) ==
        Outcome(AfterMiss(t, up.system, c, a), up.reports + if WritesBack(t, up.system, c, a) then [a] else [])
  {
    assert Linked(t, c);
  }

  /** All caches of a hierarchy, connected as the topology says, and the misses reported so far. */
  class CacheSystem {
    const t: Topology
    const caches: seq<CacheState>
    var reports: seq<Access>

    /** Fresh caches for every node of the topology. */
    constructor (t: Topology)
      requires Valid(t)
      ensures this.t == t && Sound() && fresh(Storage()) && reports == []
      ensures State() == Fresh(t)
    {
      var built: seq<CacheState> := [];
      for c := 0 to |t.nodes|
        invariant |built| == c
        invariant forall i :: 0 <= i < c ==>
          built[i].variant == t.variant && built[i].geometry == t.nodes[i].geometry && built[i].lineSize == t.lineSize
        invariant forall i :: 0 <= i < c ==>
          fresh(built[i].lines) && built[i].lines[..] == seq(t.nodes[i].geometry.size, j => UNUSED)
        invariant forall i, j :: 0 <= i < j < c ==> built[i].lines != built[j].lines
      {
        var cache := new CacheState(t.variant, t.nodes[c].geometry, t.lineSize);
        built := built + [cache];
      }
      this.t, caches, reports := t, built, [];
    }

    ghost function Storage(): set<array<CacheLine>> {
      set c | c in caches :: c.lines
    }

    // Every cache is shaped as its node says, and no two share their lines.
    ghost predicate Sound() {
      && Valid(t) && |caches| == |t.nodes|
      && (forall c :: 0 <= c < |caches| ==>
            && caches[c].variant == t.variant && caches[c].lineSize == t.lineSize
            && caches[c].geometry == t.nodes[c].geometry
            && caches[c].lines.Length == t.nodes[c].geometry.size)
      && (forall i, j :: 0 <= i < j < |caches| ==> caches[i].lines != caches[j].lines)
    }

    /** The contents of all caches. */
    ghost function State(): (s: System)
      requires Sound()
      reads Storage()
      ensures Shaped(t, s) && forall c :: 0 <= c < |caches| ==> s[c] == caches[c].lines[..]
    {
      Contents(caches)
    }

    // Stores one line: the only place where lines change.
    method SetLine(c: nat, i: nat, x: CacheLine)
      requires Sound() && c < |caches| && i < caches[c].lines.Length
      modifies Storage()
      ensures State() == old(Update(State(), c, i, x))
    {
      caches[c].lines[i] := x;
      assert caches[c].lines[..] == old(caches[c].lines[..])[i := x];
    }

    // Drops the line of an address from one cache, if it is there.
    method DropLine(c: nat, address: nat)
      requires Sound() && c < |caches|
      modifies Storage()
      ensures State() == Drop(t, old(State()), c, address / t.lineSize)
    {
      var i := caches[c].GetLineLocation(address);
      if i >= 0 {
        SetLine(c, i, caches[c].lines[i].(state := Invalid));
      }
    }

    // One cache acts on a request of another: on the line itself, or else on its next victim.
    method Snoop(c: nat, event: Event, address: nat)
      requires Sound() && c < |caches|
      modifies Storage()
      ensures State() == CacheSpec.Snoop(t, old(State()), c, event, address / t.lineSize)
    {
      var i := caches[c].GetLineLocation(address);
      var previous := Invalid;
      if i == -1 {
        i := caches[c].FindLineToEvict(address);
      } else {
        previous := caches[c].lines[i].state;
      }
      SetLine(c, i, caches[c].lines[i].(state := NewState(previous, event).0));
    }

    /** An eviction notice: the lower-level caches that have the line drop it. */
    method InformLowerLevelCachesEviction(c: nat, address: nat)
      requires Sound() && c < |caches|
      modifies Storage()
      ensures Known(t, t.nodes[c].lower)
      ensures State() == InformLower(t, old(State()), t.nodes[c].lower, address / t.lineSize)
    {
      hide InformLower, Drop, Contents, Linked, Valid, Shaped;
      LinksKnown(t, c);
      var lower := t.nodes[c].lower;
      var k := 0;
      while k < |lower|
        invariant k <= |lower| && Known(t, lower[k..])
        invariant InformLower(t, State(), lower[k..], address / t.lineSize)
               == InformLower(t, old(State()), lower, address / t.lineSize)
      {
        InformUnroll(t, State(), lower, k, address / t.lineSize);
        DropLine(lower[k], address);
        k := k + 1;
      }
      InformNone(t, State(), lower, address / t.lineSize);
    }

    /** Shows a request to every cache on the bus of cache c but c itself. */
    method HandleBusEvent(c: nat, event: Event, address: nat)
      requires Sound() && c < |caches|
      modifies Storage()
      ensures Known(t, t.nodes[c].peers)
      ensures State() == Broadcast(t, old(State()), t.nodes[c].peers, c, event, address / t.lineSize)
    {
      hide Broadcast, CacheSpec.Snoop, Contents, Linked, Valid, Shaped;
      LinksKnown(t, c);
      var peers := t.nodes[c].peers;
      var k := 0;
      while k < |peers|
        invariant k <= |peers| && Known(t, peers[k..])
        invariant Broadcast(t, State(), peers[k..], c, event, address / t.lineSize)
               == Broadcast(t, old(State()), peers, c, event, address / t.lineSize)
      {
        BroadcastUnroll(t, State(), peers, k, c, event, address / t.lineSize);
        if peers[k] != c {
          Snoop(peers[k], event, address);
        }
        k := k + 1;
      }
      BroadcastNone(t, State(), peers, c, event, address / t.lineSize);
    }

    // The end of an access: sets the state of line i and tells the bus.
    method Settle(c: nat, i: nat, previous: LineState, a: Access)
      requires Sound() && c < |caches| && i < caches[c].lines.Length
      modifies Storage()
      ensures State() == CacheSpec.Settle(t, old(State()), c, i, previous, a)
    {
      assert Linked(t, c);
      var n, x := t.nodes[c], caches[c].lines[i];
      if n.coherent {
        var (next, request) := NewState(previous, if a.write then Write else Read);
        SetLine(c, i, x.(state := next));
        if n.peers != [] && request.Ask? {
          HandleBusEvent(c, request.event, a.address);
        }
      } else {
        SetLine(c, i, x.(state := Modified));
      }
    }

    // The rest of an access that found its tag in way i.
    method Touch(c: nat, i: nat, a: Access)
      requires Sound() && c < |caches| && i < caches[c].lines.Length
      modifies Storage()
      ensures var s := old(State());
        State() == CacheSpec.Settle(t, Update(s, c, i, s[c][i].(lastUsed := a.timestamp)), c, i, s[c][i].state, a)
    {
      var previous := caches[c].lines[i].state;
      SetLine(c, i, caches[c].lines[i].(lastUsed := a.timestamp));
      Settle(c, i, previous, a);
    }

    // Way i of cache c takes the line of the access.
    method Install(c: nat, i: nat, a: Access)
      requires Sound() && c < |caches| && i < caches[c].lines.Length
      modifies Storage()
      ensures var s, g := old(State()), t.nodes[c].geometry;
        State() == CacheSpec.Settle(t, Update(s, c, i, Refilled(t, s[c][i], Tag(g, LineOf(t, a)), a)), c, i, Invalid, a)
    {
      var x := caches[c].lines[i];
      var stamp := if t.variant == AsWritten then x.lastUsed else a.timestamp;
      SetLine(c, i, CacheLine(Tag(t.nodes[c].geometry, a.address / t.lineSize), x.state, stamp));
      Settle(c, i, Invalid, a);
    }

    // The rest of an access that missed, once the higher level has been asked.
    method Refill(c: nat, a: Access)
      requires Sound() && c < |caches|
      modifies Storage(), this`reports
      ensures Known(t, t.nodes[c].lower)
      ensures State() == AfterMiss(t, old(State()), c, a)
      ensures reports == old(reports) + if WritesBack(t, old(State()), c, a) then [a] else []
    {
      hide InformLower, CacheSpec.Settle, Find, Victim, Base, Contents;
      var n := t.nodes[c];
      var i := caches[c].FindLineToEvict(a.address);
      InformLowerLevelCachesEviction(c, a.address);
      if n.coherent && FlushNeeded(caches[c].lines[i].state) && n.higher.None? && n.reports {
        reports := reports + [a];
      }
      Install(c, i, a);
    }

    // A miss first goes to the higher level, or is reported if there is none.
    method AskHigher(c: nat, a: Access)
      requires Sound() && c < |caches|
      modifies Storage(), this`reports
      ensures State() == Above(t, old(State()), c, a).system
      ensures reports == old(reports) + Above(t, old(State()), c, a).reports
      decreases MAX_CACHE_LEVELS - t.nodes[c].level, 0
    {
      assert Linked(t, c);
      var n := t.nodes[c];
      if n.higher.Some? {
        AccessCache(n.higher.value, a);
      } else if n.reports {
        reports := reports + [a];
      }
    }

    /** One access: a hit is stamped, a miss goes to the higher level first and then refills a way. */
    method AccessCache(c: nat, a: Access)
      requires Sound() && c < |caches|
      modifies Storage(), this`reports
      ensures State() == CacheSpec.AccessCache(t, old(State()), c, a).system
      ensures reports == old(reports) + CacheSpec.AccessCache(t, old(State()), c, a).reports
      decreases MAX_CACHE_LEVELS - t.nodes[c].level, 1
    {
      hide CacheSpec.Settle, AfterMiss, WritesBack, Victim, Base, Above, Contents;
      assert Linked(t, c);
      var i := caches[c].GetLineLocation(a.address);
      if i >= 0 {
        Touch(c, i, a);
      } else {
        MissUnfold(t, State(), c, a);
        AskHigher(c, a);
        Refill(c, a);
      }
    }

    /** An access by a processor, refused (1) for an unknown processor or event type. */
    method AccessCacheInHierarchy(h: Hierarchy, m: MemoryAccess) returns (code: int)
      requires Sound() && ValidHierarchy(h) && h.topology == t
      modifies Storage(), this`reports
      ensures code == if Refused(h, m) then 1 else 0
      ensures code == 0 <==> m.cpu < h.cpus && m.kind in {0, 1, 2, 3}
      ensures code == 1 ==> State() == old(State()) && reports == old(reports)
      ensures State() == Step(h, old(State()), m).system
      ensures reports == old(reports) + Step(h, old(State()), m).reports
    {
      if m.cpu >= h.cpus {
        return 1;
      }
      if m.kind < KIND_NONE || m.kind > KIND_FETCH {
        return 1;
      }
      if |h.data| == 0 {
        return 0;
      }
      var i := if |h.data| == 1 then 0 else m.cpu;
      if |h.instruction| != 0 && m.kind == KIND_FETCH {
        AccessCache(h.instruction[i], Access(m.address, m.tick, false));
      } else {
        AccessCache(h.data[i], Access(m.address, m.tick, m.kind == KIND_WRITE));
      }
      return 0;
    }
  }
}
