/**
 * The cache model of cache/state.c, cache/bus.c and cache/lru.c on values: what one access
 * does to the contents of every cache of a hierarchy, and which misses it reports.
 * The methods in CacheObjects.dfy do the same in place and are proved against this module.
 */
module CacheSpec {
  import opened Options
  import opened Arith
  import opened Msi

  // Tags and addresses are 64-bit; an unused line carries the tag -1, that is 2^64 - 1.
  const EMPTY_TAG: nat := 0xFFFF_FFFF_FFFF_FFFF
  const ADDRESS_LIMIT: nat := 0x1_0000_0000_0000_0000

  datatype CacheLine = CacheLine(tag: nat, state: LineState, lastUsed: nat)
  type Lines = seq<CacheLine>

  /** Size in lines, and the number of ways of a set. */
  datatype Geometry = Geometry(size: nat, associativity: nat) {
    predicate Valid() {
      0 < associativity <= size
    }

    function Sets(): (n: nat)
      requires Valid()
      ensures 0 < n && n * associativity <= size
    {
      size / associativity
    }
  }

  function SetIndex(g: Geometry, line: nat): (s: nat)
    requires g.Valid()
    ensures s < g.Sets()
  {
    line % g.Sets()
  }

  function Tag(g: Geometry, line: nat): nat
    requires g.Valid()
  {
    line / g.Sets()
  }

  // First index of the set a line maps to: sets lie next to each other, way by way.
  function Base(g: Geometry, line: nat): (b: nat)
    requires g.Valid()
    ensures b + g.associativity <= g.size
  {
    SetFits(g, SetIndex(g, line));
    SetIndex(g, line) * g.associativity
  }

  lemma SetFits(g: Geometry, index: nat)
    requires g.Valid() && index < g.Sets()
    ensures index * g.associativity + g.associativity <= g.size
  {
    NextBlock(index, g.Sets(), g.associativity);
  }

  predicate InWindow(g: Geometry, line: nat, i: int)
    requires g.Valid()
  {
    Base(g, line) <= i < Base(g, line) + g.associativity
  }

  // ----- looking a line up in its set

  // Index of the first line with this tag in lines[i..hi], or -1.
  function FindFrom(lines: Lines, tag: nat, i: nat, hi: nat): (r: int)
    requires i <= hi <= |lines|
    ensures r == -1 <==> forall k :: i <= k < hi ==> lines[k].tag != tag
    ensures r != -1 ==> i <= r < hi && lines[r].tag == tag && forall k :: i <= k < r ==> lines[k].tag != tag
    decreases hi - i
  {
    if i == hi then -1
    else if lines[i].tag == tag then i
    else FindFrom(lines, tag, i + 1, hi)
  }

  function Find(g: Geometry, lines: Lines, line: nat): (r: int)
    requires g.Valid() && |lines| == g.size
    ensures r == -1 || (InWindow(g, line, r) && lines[r].tag == Tag(g, line))
    ensures r == -1 <==> forall k :: InWindow(g, line, k) ==> lines[k].tag != Tag(g, line)
  {
    FindFrom(lines, Tag(g, line), Base(g, line), Base(g, line) + g.associativity)
  }

  // The state a cache holds a line in; a line that is not there is as good as invalid.
  function StateOf(g: Geometry, lines: Lines, line: nat): LineState
    requires g.Valid() && |lines| == g.size
  {
    var i := Find(g, lines, line);
    if i == -1 then Invalid else lines[i].state
  }

  // ----- choosing a victim

  /**
   * The replacement code exists in two forms. AsWritten compares the first way of the set on every
   * round of the search and leaves the stamp of a refilled line alone; Repaired compares the way
   * under inspection and stamps a refilled line, as the tests of the repository expect.
   */
  datatype Variant = AsWritten | Repaired

  // The search loop from way i on: the first invalid way wins at once, else the smallest stamp seen.
  function VictimFrom(v: Variant, lines: Lines, lo: nat, hi: nat, i: nat, smallest: nat, best: nat): (r: nat)
    requires lo <= i <= hi <= |lines| && lo <= best < hi
    ensures lo <= r < hi
    decreases hi - i
  {
    if i == hi then best
    else if lines[i].state == Invalid then i
    else if lines[if v == AsWritten then lo else i].lastUsed < smallest then
      VictimFrom(v, lines, lo, hi, i + 1, lines[i].lastUsed, i)
    else
      VictimFrom(v, lines, lo, hi, i + 1, smallest, best)
  }

  function Victim(v: Variant, g: Geometry, lines: Lines, line: nat): (r: nat)
    requires g.Valid() && |lines| == g.size
    ensures InWindow(g, line, r)
  {
    var lo := Base(g, line);
    VictimFrom(v, lines, lo, lo + g.associativity, lo, lines[lo].lastUsed, lo)
  }

  // ----- the caches of a hierarchy and how they are connected

  /**
   * One cache: its shape, its level, its higher-level cache if any, the lower-level caches it informs
   * of evictions, all caches on its bus (itself included, empty when it has no bus), whether it runs
   * the MSI protocol, and whether it has a function to report misses to.
   */
  datatype Node = Node(geometry: Geometry, level: nat, higher: Option<nat>, lower: seq<nat>,
                       peers: seq<nat>, coherent: bool, reports: bool)

  const MAX_CACHE_LEVELS: nat := 8

  datatype Topology = Topology(variant: Variant, lineSize: nat, nodes: seq<Node>)

  // All ids name caches.
  ghost predicate Known(t: Topology, ids: seq<nat>) {
    forall i :: 0 <= i < |ids| ==> ids[i] < |t.nodes|
  }

  // The links of one cache: levels rise upwards and fall downwards, and a bus stays on one level.
  ghost predicate Linked(t: Topology, c: nat)
    requires c < |t.nodes|
  {
    var n := t.nodes[c];
    && n.level < MAX_CACHE_LEVELS
    && (n.higher.Some? ==> n.higher.value < |t.nodes| && n.level < t.nodes[n.higher.value].level)
    && Known(t, n.lower)
    && (forall i :: 0 <= i < |n.lower| ==> t.nodes[n.lower[i]].level < n.level)
    && Known(t, n.peers)
    && (n.peers != [] ==> n.coherent && c in n.peers)
    && (forall i :: 0 <= i < |n.peers| ==> t.nodes[n.peers[i]].peers == n.peers && t.nodes[n.peers[i]].level == n.level)
  }

  ghost predicate Valid(t: Topology) {
    && t.lineSize > 0
    && (forall c :: 0 <= c < |t.nodes| ==> t.nodes[c].geometry.Valid() && t.lineSize * t.nodes[c].geometry.Sets() >= 2)
    && (forall c :: 0 <= c < |t.nodes| ==> Linked(t, c))
  }

  // The contents of every cache.
  type System = seq<Lines>

  ghost predicate Shaped(t: Topology, s: System) {
    && |s| == |t.nodes|
    && forall c :: 0 <= c < |s| ==> |s[c]| == t.nodes[c].geometry.size
  }

  function Update(s: System, c: nat, i: nat, x: CacheLine): (s': System)
    requires c < |s| && i < |s[c]|
    ensures |s'| == |s| && |s'[c]| == |s[c]|
    ensures forall d :: 0 <= d < |s| && d != c ==> s'[d] == s[d]
  {
    s[c := s[c][i := x]]
  }

  datatype Access = Access(address: nat, timestamp: nat, write: bool)

  predicate Addressable(a: Access) {
    a.address < ADDRESS_LIMIT
  }

  function LineOf(t: Topology, a: Access): nat
    requires t.lineSize > 0
  {
    a.address / t.lineSize
  }

  // ----- one access

  // A cache drops a line, if it has it.
  function Drop(t: Topology, s: System, c: nat, line: nat): (s': System)
    requires Valid(t) && Shaped(t, s) && c < |t.nodes|
    ensures Shaped(t, s')
    ensures forall d :: 0 <= d < |s| && d != c ==> s'[d] == s[d]
  {
    var i := Find(t.nodes[c].geometry, s[c], line);
    if i == -1 then s else Update(s, c, i, s[c][i].(state := Invalid))
  }

  // An eviction notice: every listed lower-level cache that has the line drops it.
  function InformLower(t: Topology, s: System, lower: seq<nat>, line: nat): (s': System)
    requires Valid(t) && Shaped(t, s)
    requires Known(t, lower)
    ensures Shaped(t, s')
    ensures forall d :: 0 <= d < |s| && d !in lower ==> s'[d] == s[d]
    decreases |lower|
  {
    if lower == [] then s else InformLower(t, Drop(t, s, lower[0], line), lower[1..], line)
  }

  // One cache on the bus sees a request. Without the line, it lets the request act on its next victim.
  function Snoop(t: Topology, s: System, c: nat, event: Event, line: nat): (s': System)
    requires Valid(t) && Shaped(t, s) && c < |t.nodes|
    ensures Shaped(t, s')
    ensures forall d :: 0 <= d < |s| && d != c ==> s'[d] == s[d]
  {
    var g := t.nodes[c].geometry;
    var hit := Find(g, s[c], line);
    var i := if hit == -1 then Victim(t.variant, g, s[c], line) else hit;
    var previous := if hit == -1 then Invalid else s[c][i].state;
    Update(s, c, i, s[c][i].(state := NewState(previous, event).0))
  }

  // The request passes every cache on the bus but its origin.
  function Broadcast(t: Topology, s: System, peers: seq<nat>, origin: nat, event: Event, line: nat): (s': System)
    requires Valid(t) && Shaped(t, s)
    requires Known(t, peers)
    ensures Shaped(t, s')
    ensures forall d :: 0 <= d < |s| && (d !in peers || d == origin) ==> s'[d] == s[d]
    decreases |peers|
  {
    if peers == [] then s
    else if peers[0] == origin then Broadcast(t, s, peers[1..], origin, event, line)
    else Broadcast(t, Snoop(t, s, peers[0], event, line), peers[1..], origin, event, line)
  }

  // The end of an access: line i of cache c has been found or refilled, and was in state previous.
  function Settle(t: Topology, s: System, c: nat, i: nat, previous: LineState, a: Access): (s': System)
    requires Valid(t) && Shaped(t, s) && c < |t.nodes| && i < |s[c]|
    ensures Shaped(t, s')
  {
    var n := t.nodes[c];
    if n.coherent then
      var (next, request) := NewState(previous, if a.write then Write else Read);
      var s1 := Update(s, c, i, s[c][i].(state := next));
      assert Linked(t, c);
      if request.Ask? then Broadcast(t, s1, n.peers, c, request.event, LineOf(t, a)) else s1
    else
      Update(s, c, i, s[c][i].(state := Modified))
  }

  function Refilled(t: Topology, x: CacheLine, tag: nat, a: Access): CacheLine {
    CacheLine(tag, x.state, if t.variant == AsWritten then x.lastUsed else a.timestamp)
  }

  // The rest of an access through cache c that missed, once the higher level has been asked.
  function AfterMiss(t: Topology, up: System, c: nat, a: Access): (s': System)
    requires Valid(t) && Shaped(t, up) && c < |t.nodes| && Known(t, t.nodes[c].lower)
    ensures Shaped(t, s')
  {
    var g, line := t.nodes[c].geometry, LineOf(t, a);
    var i := Victim(t.variant, g, up[c], line);
    var s1 := InformLower(t, up, t.nodes[c].lower, line);
    Settle(t, Update(s1, c, i, Refilled(t, s1[c][i], Tag(g, line), a)), c, i, Invalid, a)
  }

  // Whether the line that makes room is written back: only a last-level cache reports that.
  predicate WritesBack(t: Topology, up: System, c: nat, a: Access)
    requires Valid(t) && Shaped(t, up) && c < |t.nodes| && Known(t, t.nodes[c].lower)
  {
    var n, line := t.nodes[c], LineOf(t, a);
    var i := Victim(t.variant, n.geometry, up[c], line);
    var s1 := InformLower(t, up, n.lower, line);
    n.coherent && FlushNeeded(s1[c][i].state) && n.higher.None? && n.reports
  }

  /** Result of an access: the new contents, and the misses reported, in order. */
  datatype Outcome = Outcome(system: System, reports: seq<Access>)

  function AccessCache(t: Topology, s: System, c: nat, a: Access): (r: Outcome)
    requires Valid(t) && Shaped(t, s) && c < |t.nodes|
    ensures Shaped(t, r.system)
    decreases MAX_CACHE_LEVELS - t.nodes[c].level
  {
    assert Linked(t, c);
    var n := t.nodes[c];
    var hit := Find(n.geometry, s[c], LineOf(t, a));
    if hit != -1 then
      var s1 := Update(s, c, hit, s[c][hit].(lastUsed := a.timestamp));
      Outcome(Settle(t, s1, c, hit, s[c][hit].state, a), [])
    else
      var up := if n.higher.Some? then AccessCache(t, s, n.higher.value, a)
                else Outcome(s, if n.reports then [a] else []);
      Outcome(AfterMiss(t, up.system, c, a), up.reports + if WritesBack(t, up.system, c, a) then [a] else [])
  }
}
