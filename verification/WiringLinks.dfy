/**
 * The links between caches, buses and levels: what setting one of them keeps, and what adding caches to a level and
 * putting a level on top of another do to all of them.
 */
module WiringLinks {
  import opened Options
  import opened CacheSpec
  import opened Wiring

  // A set exists, and tags stay below the tag of an unused line.
  predicate Usable(lineSize: nat, g: Geometry) {
    lineSize > 0 && g.Valid() && lineSize * g.Sets() >= 2
  }

  // ----- links in order

  // Level b was put on level a.
  ghost predicate IsNext(placed: seq<nat>, a: nat, b: nat) {
    a != b && exists i :: 0 <= i < |placed| - 1 && placed[i] == a && placed[i + 1] == b
  }

  // A cache's links: they lead to the next level, both ends know of each other, nobody is listed twice.
  ghost predicate RecordOk(k: Links, lineSize: nat, placed: seq<nat>, c: nat)
    requires c < |k.records|
  {
    var r := k.records[c];
    && Usable(lineSize, r.geometry) && r.coherent
    && (r.higher.Some? ==>
          (r.higher.value < |k.records| && IsNext(placed, r.owner, k.records[r.higher.value].owner)
           && c in k.records[r.higher.value].lower))
    && (forall i :: 0 <= i < |r.lower| ==> r.lower[i] < |k.records| && k.records[r.lower[i]].higher == Some(c))
    && (forall i, j :: 0 <= i < j < |r.lower| ==> r.lower[i] != r.lower[j])
    && (r.bus.Some? ==> r.bus.value < |k.buses| && c in k.buses[r.bus.value])
  }

  // A bus: every member knows it, nobody is on it twice, all are of one level.
  ghost predicate BusOk(k: Links, b: nat)
    requires b < |k.buses|
  {
    && (forall i :: 0 <= i < |k.buses[b]| ==> k.buses[b][i] < |k.records| && k.records[k.buses[b][i]].bus == Some(b))
    && (forall i, j :: 0 <= i < j < |k.buses[b]| ==> k.buses[b][i] != k.buses[b][j])
    && (forall i, j :: 0 <= i < j < |k.buses[b]| ==> k.records[k.buses[b][i]].owner == k.records[k.buses[b][j]].owner)
  }

  ghost predicate LinksOk(k: Links, lineSize: nat, placed: seq<nat>) {
    && (forall c :: 0 <= c < |k.records| ==> RecordOk(k, lineSize, placed, c))
    && (forall b :: 0 <= b < |k.buses| ==> BusOk(k, b))
  }

  // All caches of a level, data caches first.
  function Members(l: Level): seq<nat> {
    l.data + l.instruction
  }

  // A level: its caches are its own and distinct, and on its bus, and alone on it, or on none.
  ghost predicate LevelOk(k: Links, l: Level, own: nat)
    requires LevelKnown(k, l)
  {
    var m := Members(l);
    && (forall i, j :: 0 <= i < j < |m| ==> m[i] != m[j])
    && (forall i :: 0 <= i < |m| ==> k.records[m[i]].owner == own && k.records[m[i]].bus == l.bus)
    && (l.bus.Some? ==> |k.buses[l.bus.value]| == |m|)
  }

  // ----- single operations

  // Setting one link keeps the links in order, when the lower cache had none yet.
  lemma AddLowerKeeps(k: Links, lineSize: nat, placed: seq<nat>, h: nat, l: nat)
    requires LinksOk(k, lineSize, placed) && h < |k.records| && l < |k.records|
    requires k.records[l].higher.None? && IsNext(placed, k.records[l].owner, k.records[h].owner)
    ensures LinksOk(AddLower(k, h, l), lineSize, placed)
  {
    var k' := AddLower(k, h, l);
    assert h != l;
    forall c | 0 <= c < |k'.records| ensures RecordOk(k', lineSize, placed, c) {
      assert RecordOk(k, lineSize, placed, c) && RecordOk(k, lineSize, placed, h);
      var r := k'.records[c];
      forall i | 0 <= i < |r.lower| ensures r.lower[i] < |k'.records| && k'.records[r.lower[i]].higher == Some(c) {
        if c == h && i == |r.lower| - 1 {
          assert r.lower[i] == l;
        } else {
          assert r.lower[i] == k.records[c].lower[i];
        }
      }
      if c == h {
        assert forall i :: 0 <= i < |k.records[h].lower| ==> k.records[h].lower[i] != l;
      }
      if r.higher.Some? {
        if c == l {
          assert k'.records[h].lower[|k'.records[h].lower| - 1] == l;
        } else if r.higher.value == h {
          assert c in k.records[h].lower;
        }
      }
    }
    forall b | 0 <= b < |k'.buses| ensures BusOk(k', b) {
      assert BusOk(k, b);
    }
  }

  lemma AddToBusKeeps(k: Links, lineSize: nat, placed: seq<nat>, b: nat, c: nat)
    requires LinksOk(k, lineSize, placed) && b < |k.buses| && c < |k.records| && k.records[c].bus.None?
    requires forall i :: 0 <= i < |k.buses[b]| ==>
      k.buses[b][i] < |k.records| && k.records[k.buses[b][i]].owner == k.records[c].owner
    ensures LinksOk(AddToBus(k, b, c), lineSize, placed)
  {
    var k' := AddToBus(k, b, c);
    forall d | 0 <= d < |k'.records| ensures RecordOk(k', lineSize, placed, d) {
      assert RecordOk(k, lineSize, placed, d);
      if d == c {
        assert k'.buses[b][|k'.buses[b]| - 1] == c;
      }
    }
    forall e | 0 <= e < |k'.buses| ensures BusOk(k', e) {
      assert BusOk(k, e);
      assert forall i :: 0 <= i < |k.buses[e]| ==> k.buses[e][i] != c;
    }
  }

  lemma NewRecordsKeep(k: Links, lineSize: nat, placed: seq<nat>, added: seq<Record>)
    requires LinksOk(k, lineSize, placed)
    requires forall i :: 0 <= i < |added| ==>
      (added[i] == Unlinked(added[i].geometry, added[i].reports, added[i].owner) && Usable(lineSize, added[i].geometry))
    ensures LinksOk(k.(records := k.records + added), lineSize, placed)
  {
    var k' := k.(records := k.records + added);
    forall c | 0 <= c < |k'.records| ensures RecordOk(k', lineSize, placed, c) {
      if c < |k.records| {
        assert RecordOk(k, lineSize, placed, c);
      } else {
        assert k'.records[c] == added[c - |k.records|];
      }
    }
    forall b | 0 <= b < |k'.buses| ensures BusOk(k', b) {
      assert BusOk(k, b);
    }
  }

  lemma NewBusKeeps(k: Links, lineSize: nat, placed: seq<nat>)
    requires LinksOk(k, lineSize, placed)
    ensures LinksOk(k.(buses := k.buses + [[]]), lineSize, placed)
  {
    var k' := k.(buses := k.buses + [[]]);
    forall c | 0 <= c < |k'.records| ensures RecordOk(k', lineSize, placed, c) {
      assert RecordOk(k, lineSize, placed, c);
    }
    forall b | 0 <= b < |k'.buses| ensures BusOk(k', b) {
      if b < |k.buses| {
        assert BusOk(k, b);
      }
    }
  }

  // ----- adding caches to a level

  // What joining a bus changes: the bus of the pair, and the members of the bus.
  ghost predicate Joined(k: Links, k': Links, b: nat, d: nat, i: Option<nat>)
    requires b < |k.buses|
  {
    && k'.buses == k.buses[b := k.buses[b] + [d] + if i.Some? then [i.value] else []]
    && |k'.records| == |k.records|
    && forall c :: 0 <= c < |k.records| ==>
         k'.records[c] == if c == d || i == Some(c) then k.records[c].(bus := Some(b)) else k.records[c]
  }

  lemma PairToBusKeeps(k: Links, lineSize: nat, placed: seq<nat>, b: nat, d: nat, i: Option<nat>)
    requires LinksOk(k, lineSize, placed) && b < |k.buses| && d < |k.records| && k.records[d].bus.None?
    requires i.Some? ==> i.value < |k.records| && i.value != d
    requires i.Some? ==> k.records[i.value].bus.None? && k.records[i.value].owner == k.records[d].owner
    requires forall j :: 0 <= j < |k.buses[b]| ==>
      k.buses[b][j] < |k.records| && k.records[k.buses[b][j]].owner == k.records[d].owner
    ensures LinksOk(AddPairToBus(k, b, d, i), lineSize, placed) && Joined(k, AddPairToBus(k, b, d, i), b, d, i)
  {
    AddToBusKeeps(k, lineSize, placed, b, d);
    var k1 := AddToBus(k, b, d);
    if i.Some? {
      AddToBusKeeps(k1, lineSize, placed, b, i.value);
      assert k1.buses[b] == k.buses[b] + [d];
    } else {
      assert k.buses[b] + [d] + [] == k.buses[b] + [d];
    }
  }

  // New caches n (and n + 1) of the current level, not yet linked to anything.
  ghost predicate Newcomers(k: Links, l: Level, own: nat, d: nat, i: Option<nat>) {
    && d < |k.records| && k.records[d].owner == own && k.records[d].bus.None? && d !in Members(l)
    && (i.Some? ==> i.value < |k.records| && i.value != d && k.records[i.value].owner == own
                    && k.records[i.value].bus.None? && i.value !in Members(l))
  }

  // Records that are neither new nor (when the bus is brought in) the first pair keep everything.
  ghost predicate OnlyBusesChanged(k: Links, k': Links) {
    && |k'.records| == |k.records|
    && (forall c :: 0 <= c < |k.records| ==> k'.records[c] == k.records[c].(bus := k'.records[c].bus))
  }

  // What adding caches to level l must leave: the links in order, and the level in order at its own.
  ghost predicate Added(k: Links, l: Level, k': Links, l': Level, lineSize: nat, placed: seq<nat>, own: nat, d: nat,
                        i: Option<nat>) {
    && LinksOk(k', lineSize, placed) && LevelKnown(k', l') && LevelOk(k', l', own) && OnlyBusesChanged(k, k')
    && (forall c :: 0 <= c < |k.records| && c != d && i != Some(c) && c !in Members(l) ==>
      k'.records[c] == k.records[c])
    && (forall b :: 0 <= b < |k.buses| && l.bus != Some(b) ==> b < |k'.buses| && k'.buses[b] == k.buses[b])
  }

  lemma AddFirstKeeps(k: Links, lineSize: nat, placed: seq<nat>, l: Level, own: nat, d: nat, i: Option<nat>)
    requires LinksOk(k, lineSize, placed) && LevelKnown(k, l) && LevelOk(k, l, own) && RefuseCaches(l, i) == 0
    requires Newcomers(k, l, own, d, i) && |l.data| == 0
    ensures var (k', l') := AddCaches(k, l, d, i); Added(k, l, k', l', lineSize, placed, own, d, i)
  {
    MembersGrow(l, d, i);
  }

  // The second pair of a level: both pairs end up on a new bus, in the order of arrival.
  lemma SecondJoins(k: Links, lineSize: nat, placed: seq<nat>, l: Level, own: nat, d: nat, i: Option<nat>)
    requires LinksOk(k, lineSize, placed) && LevelKnown(k, l) && LevelOk(k, l, own) && RefuseCaches(l, i) == 0
    requires Newcomers(k, l, own, d, i) && |l.data| == 1
    ensures var (k', l') := AddCaches(k, l, d, i);
      LinksOk(k', lineSize, placed) && BothJoined(k, k', l.data[0], InstructionAt(l, 0), d, i)
  {
    var m := Members(l);
    var b, first, i0 := |k.buses|, l.data[0], InstructionAt(l, 0);
    var k0 := k.(buses := k.buses + [[]]);
    NewBusKeeps(k, lineSize, placed);
    assert m[0] == first && (i0.Some? ==> m[1] == i0.value);
    PairToBusKeeps(k0, lineSize, placed, b, first, i0);
    var k1 := AddPairToBus(k0, b, first, i0);
    PairToBusKeeps(k1, lineSize, placed, b, d, i);
    var bus1, bus2 := [first] + (if i0.Some? then [i0.value] else []), [d] + if i.Some? then [i.value] else [];
    assert k1.buses[b] == bus1;
    var k' := AddPairToBus(k1, b, d, i);
    assert k'.buses[b] == bus1 + bus2;
    assert k'.buses == k.buses + [bus1 + bus2];
    assert (AddCaches(k, l, d, i)).0 == k';
  }

  ghost predicate BothJoined(k: Links, k': Links, d0: nat, i0: Option<nat>, d: nat, i: Option<nat>) {
    && k'.buses == k.buses + [([d0] + (if i0.Some? then [i0.value] else []))
                              + ([d] + if i.Some? then [i.value] else [])]
    && |k'.records| == |k.records|
    && forall c :: 0 <= c < |k.records| ==>
         k'.records[c] ==
           if c in {d0, d} || Some(c) in {i0, i} then k.records[c].(bus := Some(|k.buses|)) else k.records[c]
  }

  // The same, said of the level.
  lemma SecondInOrder(k: Links, k': Links, l: Level, l': Level, own: nat, d: nat, i: Option<nat>)
    requires LevelKnown(k, l) && LevelOk(k, l, own) && RefuseCaches(l, i) == 0
    requires Newcomers(k, l, own, d, i) && |l.data| == 1 && BothJoined(k, k', l.data[0], InstructionAt(l, 0), d, i)
    requires l'.bus == Some(|k.buses|) && l'.data == [l.data[0], d] && l'.hasInstruction == l.hasInstruction
    requires l'.instruction == if l.hasInstruction then [l.instruction[0], i.value] else []
    ensures LevelKnown(k', l') && LevelOk(k', l', own) && OnlyBusesChanged(k, k')
    ensures forall c :: 0 <= c < |k.records| && c != d && i != Some(c) && c !in Members(l) ==>
      k'.records[c] == k.records[c]
    ensures forall b :: 0 <= b < |k.buses| ==> b < |k'.buses| && k'.buses[b] == k.buses[b]
  {
    var m, m' := Members(l), Members(l');
    assert m[0] == l.data[0];
    if l.hasInstruction {
      assert m[1] == l.instruction[0];
      assert m' == [l.data[0], d, l.instruction[0], i.value];
    } else {
      assert m' == [l.data[0], d];
    }
    assert Distinct(m');
    assert |k'.buses[|k.buses|]| == |m'|;
  }

  lemma AddSecondKeeps(k: Links, lineSize: nat, placed: seq<nat>, l: Level, own: nat, d: nat, i: Option<nat>)
    requires LinksOk(k, lineSize, placed) && LevelKnown(k, l) && LevelOk(k, l, own) && RefuseCaches(l, i) == 0
    requires Newcomers(k, l, own, d, i) && |l.data| == 1
    ensures var (k', l') := AddCaches(k, l, d, i); Added(k, l, k', l', lineSize, placed, own, d, i)
  {
    SecondJoins(k, lineSize, placed, l, own, d, i);
    var (k', l') := AddCaches(k, l, d, i);
    assert l'.data == [l.data[0], d];
    SecondInOrder(k, k', l, l', own, d, i);
  }

  lemma AddMoreKeeps(k: Links, lineSize: nat, placed: seq<nat>, l: Level, own: nat, d: nat, i: Option<nat>)
    requires LinksOk(k, lineSize, placed) && LevelKnown(k, l) && LevelOk(k, l, own) && RefuseCaches(l, i) == 0
    requires Newcomers(k, l, own, d, i) && |l.data| > 1
    ensures var (k', l') := AddCaches(k, l, d, i); Added(k, l, k', l', lineSize, placed, own, d, i)
  {
    hide RecordOk, BusOk;
    MembersGrow(l, d, i);
    BusOfLevel(k, lineSize, placed, l, own);
    PairToBusKeeps(k, lineSize, placed, l.bus.value, d, i);
    var (k', l') := AddCaches(k, l, d, i);
    var m, m' := Members(l), Members(l');
    forall j | 0 <= j < |m'| ensures m'[j] == d || i == Some(m'[j]) || m'[j] in m {
      if m'[j] != d && i != Some(m'[j]) {
        assert m'[j] == if j < |l.data| then m[j] else m[j - 1];
      }
    }
    forall j, h | 0 <= j < h < |m'| ensures m'[j] != m'[h] {
      DistinctMembers(l, d, i, j, h);
    }
  }

  lemma DistinctMembers(l: Level, d: nat, i: Option<nat>, j: nat, h: nat)
    requires |l.instruction| == (if l.hasInstruction then |l.data| else 0) && (i.Some? <==> l.hasInstruction)
    requires forall x, y :: 0 <= x < y < |Members(l)| ==> Members(l)[x] != Members(l)[y]
    requires d !in Members(l) && (i.Some? ==> i.value !in Members(l) && i.value != d)
    requires var m' := Members(l.(data := l.data + [d],
                                 instruction := if l.hasInstruction then l.instruction + [i.value] else []));
      j < h < |m'|
    ensures var m' := Members(l.(data := l.data + [d],
                                 instruction := if l.hasInstruction then l.instruction + [i.value] else []));
      m'[j] != m'[h]
  {
    MembersGrow(l, d, i);
    var m := Members(l);
    assert j < |l.data| ==> m[j] == l.data[j];
    assert h < |l.data| ==> m[h] == l.data[h];
    assert l.hasInstruction && |l.data| < j < |m| + 1 ==> m[j - 1] == l.instruction[j - |l.data| - 1];
    assert l.hasInstruction && |l.data| < h < |m| + 1 ==> m[h - 1] == l.instruction[h - |l.data| - 1];
  }

  lemma AddCachesKeeps(k: Links, lineSize: nat, placed: seq<nat>, l: Level, own: nat, d: nat, i: Option<nat>)
    requires LinksOk(k, lineSize, placed) && LevelKnown(k, l) && LevelOk(k, l, own) && RefuseCaches(l, i) == 0
    requires Newcomers(k, l, own, d, i)
    ensures var (k', l') := AddCaches(k, l, d, i); Added(k, l, k', l', lineSize, placed, own, d, i)
  {
    if |l.data| == 0 {
      AddFirstKeeps(k, lineSize, placed, l, own, d, i);
    } else if |l.data| == 1 {
      AddSecondKeeps(k, lineSize, placed, l, own, d, i);
    } else {
      AddMoreKeeps(k, lineSize, placed, l, own, d, i);
    }
  }

  lemma MembersGrow(l: Level, d: nat, i: Option<nat>)
    requires |l.instruction| == (if l.hasInstruction then |l.data| else 0) && (i.Some? <==> l.hasInstruction)
    ensures var m' := Members(l.(data := l.data + [d],
                                 instruction := if l.hasInstruction then l.instruction + [i.value] else []));
      |m'| == |Members(l)| + (if i.Some? then 2 else 1)
      && forall j :: 0 <= j < |m'| ==> m'[j] == (if j < |l.data| then l.data[j] else if j == |l.data| then d
                                                 else if j < |m'| - 1 then l.instruction[j - |l.data| - 1] else i.value)
  {
  }

  // The bus of a level holds caches of that level only.
  lemma BusOfLevel(k: Links, lineSize: nat, placed: seq<nat>, l: Level, own: nat)
    requires LinksOk(k, lineSize, placed) && LevelKnown(k, l) && LevelOk(k, l, own) && l.bus.Some?
    ensures forall j :: 0 <= j < |k.buses[l.bus.value]| ==>
      k.buses[l.bus.value][j] < |k.records| && k.records[k.buses[l.bus.value][j]].owner == own
  {
    var b, first := l.bus.value, l.data[0];
    assert Members(l)[0] == first;
    assert BusOk(k, b) && RecordOk(k, lineSize, placed, first);
    var i :| 0 <= i < |k.buses[b]| && k.buses[b][i] == first;
    forall j | 0 <= j < |k.buses[b]| ensures k.records[k.buses[b][j]].owner == own {
      if j < i {
        assert k.records[k.buses[b][j]].owner == k.records[k.buses[b][i]].owner;
      }
    }
  }

  // ----- putting a level on top

  // What linking leaves alone: everything but the links upwards and downwards.
  ghost predicate OnlyLinksChanged(k: Links, k': Links) {
    && |k'.records| == |k.records| && k'.buses == k.buses
    && (forall c :: 0 <= c < |k.records| ==>
          k'.records[c] == k.records[c].(higher := k'.records[c].higher, lower := k'.records[c].lower))
  }

  // The counterpart of cache i of the level below.
  function UpData(l: Level, i: nat): nat
    requires |l.data| == 1 || i < |l.data|
  {
    l.data[if |l.data| == 1 then 0 else i]
  }

  function UpInstruction(l: Level, i: nat): nat
    requires |l.data| == 1 || i < |l.data|
    requires |l.instruction| == (if l.hasInstruction then |l.data| else 0)
  {
    var j := if |l.data| == 1 then 0 else i;
    if l.hasInstruction then l.instruction[j] else l.data[j]
  }

  // The first n caches (and instruction caches) of the last level are linked, the others not yet.
  ghost predicate Linking(k: Links, last: Level, l: Level, n: nat)
    requires LevelKnown(k, last) && LevelKnown(k, l) && Fits(last, l) && n <= |last.data|
  {
    LinkingData(k, last, l, n) && LinkingInstruction(k, last, l, n)
  }

  ghost predicate LinkingData(k: Links, last: Level, l: Level, n: nat)
    requires LevelKnown(k, last) && LevelKnown(k, l) && Fits(last, l)
  {
    forall i :: 0 <= i < |last.data| ==> k.records[last.data[i]].higher == if i < n then Some(UpData(l, i)) else None
  }

  ghost predicate LinkingInstruction(k: Links, last: Level, l: Level, n: nat)
    requires LevelKnown(k, last) && LevelKnown(k, l) && Fits(last, l)
  {
    forall i :: 0 <= i < |last.instruction| ==>
      k.records[last.instruction[i]].higher == if i < n then Some(UpInstruction(l, i)) else None
  }

  lemma LinkOneKeeps(k: Links, lineSize: nat, placed: seq<nat>, h: nat, c: nat)
    requires LinksOk(k, lineSize, placed) && h < |k.records| && c < |k.records|
    requires k.records[c].higher.None? && IsNext(placed, k.records[c].owner, k.records[h].owner)
    ensures var k' := AddLower(k, h, c);
      LinksOk(k', lineSize, placed) && OnlyLinksChanged(k, k')
      && (forall d :: 0 <= d < |k.records| ==> k'.records[d].higher == if d == c then Some(h) else k.records[d].higher)
  {
    AddLowerKeeps(k, lineSize, placed, h, c);
  }

  ghost predicate Distinct(s: seq<nat>) {
    forall i, j :: 0 <= i < j < |s| ==> s[i] != s[j]
  }

  lemma MembersAt(l: Level)
    requires |l.instruction| == (if l.hasInstruction then |l.data| else 0) && Distinct(Members(l))
    ensures Distinct(l.data) && Distinct(l.instruction)
    ensures forall i, j :: 0 <= i < |l.data| && 0 <= j < |l.instruction| ==> l.data[i] != l.instruction[j]
  {
    var m := Members(l);
    assert forall i :: 0 <= i < |l.data| ==> m[i] == l.data[i];
    assert forall j :: 0 <= j < |l.instruction| ==> m[|l.data| + j] == l.instruction[j];
  }

  lemma LevelOfMembers(k: Links, l: Level, own: nat)
    requires LevelKnown(k, l) && LevelOk(k, l, own)
    ensures Distinct(Members(l))
    ensures forall i :: 0 <= i < |l.data| ==> k.records[l.data[i]].owner == own
    ensures forall i :: 0 <= i < |l.instruction| ==> k.records[l.instruction[i]].owner == own
  {
    var m := Members(l);
    assert forall i :: 0 <= i < |l.data| ==> m[i] == l.data[i];
    assert forall j :: 0 <= j < |l.instruction| ==> m[|l.data| + j] == l.instruction[j];
  }

  // Levels of the caches to be linked, in a form that linking does not change.
  ghost predicate Ready(k: Links, last: Level, l: Level, low: nat, high: nat) {
    && LevelKnown(k, last) && LevelKnown(k, l) && Fits(last, l) && Distinct(Members(last))
    && (forall i :: 0 <= i < |last.data| ==> k.records[last.data[i]].owner == low)
    && (forall i :: 0 <= i < |last.instruction| ==> k.records[last.instruction[i]].owner == low)
    && (forall i :: 0 <= i < |l.data| ==> k.records[l.data[i]].owner == high)
    && (forall i :: 0 <= i < |l.instruction| ==> k.records[l.instruction[i]].owner == high)
  }

  lemma LinkDataKeeps(k: Links, lineSize: nat, placed: seq<nat>, low: nat, high: nat, last: Level, l: Level, n: nat)
    requires IsNext(placed, low, high)
    requires LinksOk(k, lineSize, placed) && Ready(k, last, l, low, high) && n < |last.data|
    requires LinkingData(k, last, l, n) && LinkingInstruction(k, last, l, n)
    ensures var k' := AddLower(k, UpData(l, n), last.data[n]);
      LinksOk(k', lineSize, placed) && OnlyLinksChanged(k, k') && OnlyLevelLinked(k, k', low)
      && LevelKnown(k', last) && LevelKnown(k', l) && LinkingData(k', last, l, n + 1)
      && LinkingInstruction(k', last, l, n)
  {
    MembersAt(last);
    LinkOneKeeps(k, lineSize, placed, UpData(l, n), last.data[n]);
  }

  lemma LinkInstructionKeeps(k: Links, lineSize: nat, placed: seq<nat>, low: nat, high: nat, last: Level, l: Level,
                             n: nat)
    requires IsNext(placed, low, high)
    requires LinksOk(k, lineSize, placed) && Ready(k, last, l, low, high) && n < |last.data| && last.hasInstruction
    requires LinkingData(k, last, l, n + 1) && LinkingInstruction(k, last, l, n)
    ensures var k' := AddLower(k, UpInstruction(l, n), last.instruction[n]);
      LinksOk(k', lineSize, placed) && OnlyLinksChanged(k, k') && OnlyLevelLinked(k, k', low)
      && LevelKnown(k', last) && LevelKnown(k', l) && LinkingData(k', last, l, n + 1)
      && LinkingInstruction(k', last, l, n + 1)
  {
    MembersAt(last);
    LinkOneKeeps(k, lineSize, placed, UpInstruction(l, n), last.instruction[n]);
  }

  lemma LinkCacheKeeps(k: Links, lineSize: nat, placed: seq<nat>, low: nat, high: nat, last: Level, l: Level, n: nat)
    requires IsNext(placed, low, high)
    requires LinksOk(k, lineSize, placed) && Ready(k, last, l, low, high) && n < |last.data|
    requires Linking(k, last, l, n)
    ensures var k' := LinkCache(k, last, l, n);
      LinksOk(k', lineSize, placed) && OnlyLinksChanged(k, k') && OnlyLevelLinked(k, k', low)
      && LevelKnown(k', last) && LevelKnown(k', l) && Linking(k', last, l, n + 1)
  {
    LinkDataKeeps(k, lineSize, placed, low, high, last, l, n);
    var k1 := AddLower(k, UpData(l, n), last.data[n]);
    if last.hasInstruction {
      ReadyKept(k, k1, last, l, low, high);
      LinkInstructionKeeps(k1, lineSize, placed, low, high, last, l, n);
      LinksChangedTwice(k, k1, AddLower(k1, UpInstruction(l, n), last.instruction[n]));
    }
  }

  lemma ReadyKept(k: Links, k': Links, last: Level, l: Level, low: nat, high: nat)
    requires Ready(k, last, l, low, high) && OnlyLinksChanged(k, k')
    ensures Ready(k', last, l, low, high)
  {
  }

  lemma LinksChangedTwice(k: Links, k1: Links, k2: Links)
    requires OnlyLinksChanged(k, k1) && OnlyLinksChanged(k1, k2)
    ensures OnlyLinksChanged(k, k2)
  {
    assert forall c :: 0 <= c < |k.records| ==>
      k1.records[c] == k.records[c].(higher := k1.records[c].higher, lower := k1.records[c].lower);
  }

  // From k on, the first n caches of the last level have been linked, and nothing else has changed.
  ghost predicate LinkedUpTo(k: Links, k': Links, lineSize: nat, placed: seq<nat>, low: nat, high: nat, last: Level,
                             l: Level, n: nat) {
    && LinksOk(k', lineSize, placed) && OnlyLinksChanged(k, k')
    && LevelKnown(k', last) && LevelKnown(k', l) && Fits(last, l) && n <= |last.data| && Linking(k', last, l, n)
    && OnlyLevelLinked(k, k', low)
  }

  ghost predicate OnlyLevelLinked(k: Links, k': Links, low: nat) {
    && |k'.records| == |k.records|
    && (forall c :: 0 <= c < |k.records| && k.records[c].owner != low ==>
      k'.records[c].higher == k.records[c].higher)
  }

  lemma LinkNextKeeps(k: Links, k1: Links, lineSize: nat, placed: seq<nat>, low: nat, high: nat, last: Level, l: Level,
                      n: nat)
    requires IsNext(placed, low, high)
    requires Ready(k, last, l, low, high) && n < |last.data|
    requires LinkedUpTo(k, k1, lineSize, placed, low, high, last, l, n)
    ensures LinkedUpTo(k, LinkCache(k1, last, l, n), lineSize, placed, low, high, last, l, n + 1)
  {
    ReadyKept(k, k1, last, l, low, high);
    LinkCacheKeeps(k1, lineSize, placed, low, high, last, l, n);
    LinksChangedTwice(k, k1, LinkCache(k1, last, l, n));
  }

  lemma {:induction false} LinkLevelsKeeps(k: Links, lineSize: nat, placed: seq<nat>, low: nat, high: nat, last: Level,
                                           l: Level, n: nat)
    requires IsNext(placed, low, high)
    requires Ready(k, last, l, low, high) && n <= |last.data|
    requires LinkedUpTo(k, k, lineSize, placed, low, high, last, l, 0)
    ensures LinkedUpTo(k, LinkLevels(k, last, l, n), lineSize, placed, low, high, last, l, n)
  {
    hide LinkedUpTo, LinkCache;
    if n > 0 {
      LinkLevelsKeeps(k, lineSize, placed, low, high, last, l, n - 1);
      LinkNextKeeps(k, LinkLevels(k, last, l, n - 1), lineSize, placed, low, high, last, l, n - 1);
    }
  }
}
