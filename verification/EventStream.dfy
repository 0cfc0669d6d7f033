/** Whole events and streams of them: which payload follows which number, and what is read back from a trace. */
module EventStream {
  import opened Options
  import opened Arith
  import opened MemorySpec
  import opened Numbers
  import opened EventCodec

  /** The numbers of the events of a trace, as its mapping file gives them. */
  datatype Mapping = Mapping(updateCr: nat, load: nat, store: nat, invlpg: nat, startTb: nat)

  datatype Kind = Load | Store | UpdateCr | Invlpg | StartTb | Unknown

  // What the readers take a number for; the order of the tests matters where two numbers are the same.
  function KindOf(m: Mapping, id: nat): Kind {
    if id == m.load || id == m.store then if id == m.store then Store else Load
    else if id == m.updateCr then UpdateCr
    else if id == m.invlpg then Invlpg
    else if id == m.startTb then StartTb
    else Unknown
  }

  datatype Payload =
    | Access(cpu: byte, address: nat, write: bool, size: nat, data: Option<nat>)
    | CrChange(cpu: byte, register: byte, value: nat)
    | Page(address: nat, cpu: byte)
    | Block(cpu: byte, pc: nat, size: nat)

  // The size of an access, one shifted left, in a field of eight bits.
  function SizeOf(info: nat): nat {
    var shift := info % 16;
    if shift < 8 then [1, 2, 4, 8, 16, 32, 64, 128][shift] else 0
  }

  lemma SizeIsPower(info: nat)
    ensures SizeOf(info) == TwoTo(info % 16) % 256
  {
    SmallPowers();
    HighPowers(info % 16);
  }

  lemma {:induction false} HighPowers(n: nat)
    ensures n >= 8 ==> TwoTo(n) % 256 == 0
  {
    if n == 8 {
      SmallPowers();
    } else if n > 8 {
      HighPowers(n - 1);
    }
  }

  datatype Event = Event(head: Head, payload: Payload)

  function PayloadSize(k: Kind): nat {
    match k
    case Load => 10
    case Store => 18
    case UpdateCr => 10
    case Invlpg => 9
    case StartTb => 11
    case Unknown => 0
  }

  function Parse(k: Kind, b: seq<byte>): Payload
    requires k != Unknown && |b| == PayloadSize(k)
  {
    match k
    case Load => Access(b[0], Little(b[1..9]), b[9] / 64 % 2 == 1, SizeOf(b[9]), None)
    case Store => Access(b[0], Little(b[1..9]), b[9] / 64 % 2 == 1, SizeOf(b[9]), Some(Little(b[10..18])))
    case UpdateCr => CrChange(b[0], b[1], Little(b[2..10]))
    case Invlpg => Page(Little(b[0..8]), b[8])
    case StartTb => Block(b[0], Little(b[1..9]), Little(b[9..11]))
  }

  /** The first event of a stream and its length, if the stream holds all of it. */
  function DecodeEvent(m: Mapping, s: seq<byte>): (r: Option<(Event, nat)>)
    ensures r.Some? ==> 0 < r.value.1 <= |s|
  {
    match DecodeHead(s)
    case None => None
    case Some((head, n)) =>
      var k := KindOf(m, head.id);
      if k == Unknown || |s| < n + PayloadSize(k) then None
      else Some((Event(head, Parse(k, s[n..n + PayloadSize(k)])), n + PayloadSize(k)))
  }

  /** All events up to the first that is unknown or incomplete. */
  function DecodeAll(m: Mapping, s: seq<byte>): seq<Event>
    decreases |s|
  {
    match DecodeEvent(m, s)
    case None => []
    case Some((e, n)) => [e] + DecodeAll(m, s[n..])
  }

  // ----- writing

  /** The bits of an access that the readers do not look at: it is sign-extended, it is big-endian, and bit 7. */
  datatype Marks = Marks(signExtended: bool, bigEndian: bool, top: bool)

  // The byte that describes an access of one shifted left so many times.
  function InfoByte(shift: nat, write: bool, marks: Marks): byte
    requires shift < 16
  {
    shift + (if marks.signExtended then 16 else 0) + (if marks.bigEndian then 32 else 0)
      + (if write then 64 else 0) + if marks.top then 128 else 0
  }

  lemma InfoIs(shift: nat, write: bool, marks: Marks)
    requires shift < 16
    ensures var info := InfoByte(shift, write, marks); info % 16 == shift && (info / 64 % 2 == 1 <==> write)
  {
  }

  // The bytes of a payload; shift and marks matter to accesses only.
  function PayloadBytes(p: Payload, shift: nat, marks: Marks): seq<byte>
    requires shift < 16
  {
    match p
    case Access(cpu, address, write, size, data) =>
      [cpu] + LittleBytes(address, 8) + [InfoByte(shift, write, marks)]
      + if data.Some? then LittleBytes(data.value, 8) else []
    case CrChange(cpu, register, value) => [cpu, register] + LittleBytes(value, 8)
    case Page(address, cpu) => LittleBytes(address, 8) + [cpu]
    case Block(cpu, pc, size) => [cpu] + LittleBytes(pc, 8) + LittleBytes(size, 2)
  }

  // All numbers are in range, and the size of an access is a power of two, cut to eight bits.
  predicate InRange(p: Payload, shift: nat) {
    match p
    case Access(_, address, _, size, data) =>
      address < WORD && size == TwoTo(shift) % 256 && (data.Some? ==> data.value < WORD)
    case CrChange(_, _, value) => value < WORD
    case Page(address, _) => address < WORD
    case Block(_, pc, size) => pc < WORD && size < 0x1_0000
  }

  // The kind of event that carries a payload.
  function KindFor(p: Payload): (k: Kind)
    ensures k != Unknown
  {
    match p
    case Access(_, _, _, _, data) => if data.Some? then Store else Load
    case CrChange(_, _, _) => UpdateCr
    case Page(_, _) => Invlpg
    case Block(_, _, _) => StartTb
  }

  /** A payload is read back from its bytes, whatever the marks of an access. */
  lemma PayloadRoundTrip(p: Payload, shift: nat, marks: Marks)
    requires shift < 16 && InRange(p, shift)
    ensures var b := PayloadBytes(p, shift, marks); |b| == PayloadSize(KindFor(p)) && Parse(KindFor(p), b) == p
  {
    hide Little, LittleBytes, Power, InfoByte, SizeOf, TwoTo;
    Powers();
    var b := PayloadBytes(p, shift, marks);
    match p
    case Access(_, address, write, _, data) =>
      LittleRoundTrip(address, 8);
      assert b[1..9] == LittleBytes(address, 8);
      InfoIs(shift, write, marks);
      SizeIsPower(InfoByte(shift, write, marks));
      if data.Some? {
        LittleRoundTrip(data.value, 8);
        assert b[10..18] == LittleBytes(data.value, 8);
      }
    case CrChange(_, _, value) =>
      LittleRoundTrip(value, 8);
      assert b[2..10] == LittleBytes(value, 8);
    case Page(address, _) =>
      LittleRoundTrip(address, 8);
      assert b[0..8] == LittleBytes(address, 8);
    case Block(_, pc, size) =>
      LittleRoundTrip(pc, 8);
      LittleRoundTrip(size, 2);
      assert b[1..9] == LittleBytes(pc, 8) && b[9..11] == LittleBytes(size, 2);
  }

  // What is read has the form that its kind calls for.
  lemma ParsedFor(k: Kind, b: seq<byte>)
    requires k != Unknown && |b| == PayloadSize(k)
    ensures KindFor(Parse(k, b)) == k
  {
    hide Little, SizeOf;
  }

  // An event, the form its difference is written in, and the two details of an access.
  datatype Written = Written(event: Event, long: bool, shift: nat, marks: Marks)

  // The number that a writer puts before a payload: its own for loads, stores, control registers, pages and blocks.
  function NumberFor(m: Mapping, p: Payload): nat {
    match p
    case Access(_, _, _, _, data) => if data.Some? then m.store else m.load
    case CrChange(_, _, _) => m.updateCr
    case Page(_, _) => m.invlpg
    case Block(_, _, _) => m.startTb
  }

  /** An event that can be written: with its own number, and everything in range. */
  predicate Writable(m: Mapping, w: Written) {
    var h := w.event.head;
    && h.id == NumberFor(m, w.event.payload) && h.id < 128
    && h.delta < (if w.long then LONG else 0x8000)
    && w.shift < 16 && InRange(w.event.payload, w.shift)
  }

  // The number of a payload is that of another kind, too, which the readers prefer.
  predicate Taken(m: Mapping, p: Payload) {
    match p
    case Access(_, _, _, _, data) => data.None? && m.load == m.store
    case CrChange(_, _, _) => m.updateCr in {m.load, m.store}
    case Page(_, _) => m.invlpg in {m.load, m.store, m.updateCr}
    case Block(_, _, _) => m.startTb in {m.load, m.store, m.updateCr, m.invlpg}
  }

  // The difference fits its form, and the number says what the payload is.
  predicate Survives(m: Mapping, w: Written) {
    !(w.long && HasDroppedBit(w.event.head.delta)) && !Taken(m, w.event.payload)
  }

  // The numbers are five different ones.
  predicate Different(m: Mapping) {
    && m.store !in {m.load, m.updateCr, m.invlpg, m.startTb}
    && m.load !in {m.updateCr, m.invlpg, m.startTb}
    && m.updateCr !in {m.invlpg, m.startTb} && m.invlpg != m.startTb
  }

  // Then no payload is taken for another.
  lemma DifferentNumbers(m: Mapping, p: Payload)
    requires Different(m)
    ensures !Taken(m, p)
  {
  }

  function Encode(m: Mapping, w: Written): seq<byte>
    requires Writable(m, w)
  {
    EncodeHead(w.event.head, w.long) + PayloadBytes(w.event.payload, w.shift, w.marks)
  }

  function EncodeAll(m: Mapping, ws: seq<Written>): seq<byte>
    requires forall w :: w in ws ==> Writable(m, w)
  {
    if ws == [] then [] else Encode(m, ws[0]) + EncodeAll(m, ws[1..])
  }

  // The number before a payload is understood as it was meant, unless it is taken.
  lemma NumberIsUnderstoodIff(m: Mapping, p: Payload)
    ensures KindOf(m, NumberFor(m, p)) == KindFor(p) <==> !Taken(m, p)
  {
  }

  // What a long form makes of its head.
  lemma HeadIsLost(h: Head, rest: seq<byte>)
    requires h.id < 128 && h.delta < LONG && HasDroppedBit(h.delta)
    ensures var r := DecodeHead(EncodeHead(h, true) + rest); r.None? || r.value.0 != h
  {
    LongDecodes(h.delta, Flag(h), rest);
  }

  /** A written event is read back as it is, and exactly its bytes are consumed, exactly if it survives. */
  lemma EventRoundTripIff(m: Mapping, w: Written, rest: seq<byte>)
    requires Writable(m, w)
    ensures var r := DecodeEvent(m, Encode(m, w) + rest);
      && (Survives(m, w) ==> r == Some((w.event, |Encode(m, w)|)))
      && (!Survives(m, w) ==> r.None? || r.value.0 != w.event)
  {
    hide DecodeHead, EncodeHead, PayloadBytes, HasDroppedBit, Parse, KindOf, Taken, NumberFor, InRange, PayloadSize;
    var p := w.event.payload;
    var head, payload := EncodeHead(w.event.head, w.long), PayloadBytes(p, w.shift, w.marks);
    var s := Encode(m, w) + rest;
    assert s == head + (payload + rest);
    HeadRoundTripIff(w.event.head, w.long, payload + rest);
    PayloadRoundTrip(p, w.shift, w.marks);
    assert s[|head|..|head| + |payload|] == payload;
    NumberIsUnderstoodIff(m, p);
    if w.long && HasDroppedBit(w.event.head.delta) {
      HeadIsLost(w.event.head, payload + rest);
    } else if Taken(m, p) && DecodeEvent(m, s).Some? {
      var k := KindOf(m, w.event.head.id);
      ParsedFor(k, s[|head|..|head| + PayloadSize(k)]);
    }
  }

  /** A number that is none of the five ends the trace, whatever follows it. */
  lemma OtherNumbersEnd(m: Mapping, h: Head, long: bool, rest: seq<byte>)
    requires h.id < 128 && h.delta < if long then LONG else 0x8000
    requires h.id !in {m.load, m.store, m.updateCr, m.invlpg, m.startTb}
    ensures DecodeAll(m, EncodeHead(h, long) + rest) == []
  {
    hide DecodeHead, EncodeHead, Parse, PayloadSize;
    NumberDecoded(h, long, rest);
  }

  // The number of a head is always read back.
  lemma NumberDecoded(h: Head, long: bool, rest: seq<byte>)
    requires h.id < 128 && h.delta < if long then LONG else 0x8000
    ensures var r := DecodeHead(EncodeHead(h, long) + rest); r.Some? && r.value.0.id == h.id
  {
    hide DecodeHead, BigBytes;
    if long {
      LongDecodes(h.delta, Flag(h), rest);
    } else {
      ShortDecodes(h.delta, Flag(h), rest);
    }
  }

  lemma NoEvents(m: Mapping)
    ensures DecodeAll(m, []) == []
  {
  }

  function EventsOf(ws: seq<Written>): (events: seq<Event>)
    ensures |events| == |ws| && forall i :: 0 <= i < |ws| ==> events[i] == ws[i].event
  {
    seq(|ws|, i requires 0 <= i < |ws| => ws[i].event)
  }

  ghost predicate AllSurvive(m: Mapping, ws: seq<Written>) {
    forall w :: w in ws ==> Survives(m, w)
  }

  /** A written stream is read back as its events exactly if each of them survives. */
  lemma {:induction false} StreamRoundTripIff(m: Mapping, ws: seq<Written>)
    requires forall w :: w in ws ==> Writable(m, w)
    ensures DecodeAll(m, EncodeAll(m, ws)) == EventsOf(ws) <==> AllSurvive(m, ws)
  {
    hide Encode, DecodeEvent, Writable, Survives;
    if ws == [] {
      NoEvents(m);
    } else {
      var first, rest := Encode(m, ws[0]), EncodeAll(m, ws[1..]);
      var read := DecodeAll(m, EncodeAll(m, ws));
      EventRoundTripIff(m, ws[0], rest);
      assert EventsOf(ws) == [ws[0].event] + EventsOf(ws[1..]);
      if Survives(m, ws[0]) {
        assert (first + rest)[|first|..] == rest;
        StreamRoundTripIff(m, ws[1..]);
        assert read == [ws[0].event] + DecodeAll(m, rest);
        assert read[1..] == DecodeAll(m, rest) && EventsOf(ws)[1..] == EventsOf(ws[1..]);
        assert ws == [ws[0]] + ws[1..];
      } else {
        assert read == [] || read[0] != ws[0].event;
      }
    }
  }

  lemma StreamRoundTrip(m: Mapping, ws: seq<Written>)
    requires (forall w :: w in ws ==> Writable(m, w)) && AllSurvive(m, ws)
    ensures DecodeAll(m, EncodeAll(m, ws)) == EventsOf(ws)
  {
    StreamRoundTripIff(m, ws);
  }
}
