/** The readers of events: from a file (filereader/filereader.c) and from messages (filereader/mpireader.c:95-145). */
module EventReaders {
  import opened Options
  import opened MemorySpec
  import opened Sequences
  import opened Numbers
  import opened EventCodec
  import opened EventStream
  import opened MpiReader
  import SharedMem

  // Bit 7 of a byte, and the rest of it.
  function Sign(b: byte): bool { b / 128 % 2 == 1 }
  function Number(b: byte): nat { b % 128 }

  // The head, as both readers put it together from two bytes, six more if they are there, and one.
  function Assemble(two: seq<byte>, six: seq<byte>, stale: nat, flag: byte): Head
    requires |two| == 2
  {
    var lsb := Little(two);
    Head(if lsb / 128 % 2 == 1 then LongDelta(lsb, Little(six), stale) else ShortDelta(lsb), Sign(flag), Number(flag))
  }

  // Which of the two forms the first bytes announce.
  predicate IsLong(two: seq<byte>) {
    Little(two) / 128 % 2 == 1
  }

  lemma AssembledIsDecoded(s: seq<byte>, stale: nat)
    requires |s| >= 2
    ensures DecodeHead(s).Some? <==> |s| >= if IsLong(s[..2]) then 9 else 3
    ensures IsLong(s[..2]) && |s| >= 9 ==> DecodeHead(s) == Some((Assemble(s[..2], s[2..8], stale, s[8]), 9))
    ensures !IsLong(s[..2]) && |s| >= 3 ==> DecodeHead(s) == Some((Assemble(s[..2], [], stale, s[2]), 3))
  {
    hide Big, Little, ShortDelta, LongDelta;
    assert s[..2] == [s[0], s[1]];
    ShortForm(s[0], s[1]);
    if |s| >= 9 {
      LongForm(s[0], s[1], s[2..8], stale);
    }
  }

  // The same for the bytes of a longer sequence from a place on.
  lemma AssembledAt(b: seq<byte>, at: nat, stale: nat)
    requires at <= |b|
    ensures DecodeHead(b[at..]).Some? ==> at + 3 <= |b|
    ensures at + 2 <= |b| ==>
      var two := b[at..at + 2];
      if IsLong(two) then
        if at + 9 <= |b| then DecodeHead(b[at..]) == Some((Assemble(two, b[at + 2..at + 8], stale, b[at + 8]), 9))
        else DecodeHead(b[at..]).None?
      else
        if at + 3 <= |b| then DecodeHead(b[at..]) == Some((Assemble(two, [], stale, b[at + 2]), 3))
        else DecodeHead(b[at..]).None?
  {
    var s := b[at..];
    if |s| >= 2 {
      assert s[..2] == b[at..at + 2];
      AssembledIsDecoded(s, stale);
      if |s| >= 9 {
        assert s[2..8] == b[at + 2..at + 8];
      }
    }
  }

  // ----- from a file

  class TraceFile {
    const bytes: seq<byte>
    var at: nat

    ghost predicate Valid()
      reads this
    {
      at <= |bytes|
    }

    constructor (bytes: seq<byte>)
      ensures Valid() && this.bytes == bytes && at == 0
    {
      this.bytes, at := bytes, 0;
    }

    // One item of n bytes, or nothing; what is left of the file is gone then.
    method Fread(n: nat) returns (item: Option<seq<byte>>)
      requires Valid()
      modifies this
      ensures Valid() && old(at) <= at
      ensures item.Some? <==> old(at) + n <= |bytes|
      ensures item.Some? ==> at == old(at) + n && item.value == bytes[old(at)..at]
    {
      if at + n <= |bytes| {
        item := Some(bytes[at..at + n]);
        at := at + n;
      } else {
        item := None;
        at := |bytes|;
      }
    }

    /** The next head, or nothing where the file ends before it does; stale is what delta held before. */
    method NextEventId(stale: nat) returns (head: Option<Head>)
      requires Valid()
      modifies this
      ensures Valid() && old(at) <= at
      ensures head.Some? <==> DecodeHead(bytes[old(at)..]).Some?
      ensures head.Some? ==> DecodeHead(bytes[old(at)..]) == Some((head.value, at - old(at)))
    {
      hide DecodeHead, Assemble, IsLong;
      AssembledAt(bytes, at, stale);
      var two := Fread(2);
      if two.None? {
        return None;
      }
      var six: seq<byte> := [];
      if IsLong(two.value) {
        var more := Fread(6);
        if more.None? {
          return None;
        }
        six := more.value;
      }
      var flag := Fread(1);
      if flag.None? {
        return None;
      }
      head := Some(Assemble(two.value, six, stale, flag.value[0]));
    }

    // A payload of a fixed part and, for a store, eight bytes more.
    method GetPayload(k: Kind) returns (p: Option<Payload>)
      requires Valid() && k != Unknown
      modifies this
      ensures Valid() && old(at) <= at
      ensures p.Some? <==> old(at) + PayloadSize(k) <= |bytes|
      ensures p.Some? ==> at == old(at) + PayloadSize(k) && p.value == Parse(k, bytes[old(at)..at])
    {
      var fixed := Fread(if k == Store then 10 else PayloadSize(k));
      if fixed.None? {
        return None;
      }
      var all := fixed.value;
      if k == Store {
        var data := Fread(8);
        if data.None? {
          return None;
        }
        all := all + data.value;
        assert all == bytes[old(at)..at];
      }
      p := Some(Parse(k, all));
    }

    /** The next event, or nothing where it is unknown or the file ends before it does. */
    method NextEvent(m: Mapping, stale: nat) returns (e: Option<Event>)
      requires Valid()
      modifies this
      ensures Valid() && old(at) <= at
      ensures e.Some? <==> EventAt(m, bytes, old(at)).Some?
      ensures e.Some? ==> EventAt(m, bytes, old(at)) == Some((e.value, at))
    {
      hide DecodeHead, PayloadSize, Parse, EventAt;
      EventParts(m, bytes, at);
      var head := NextEventId(stale);
      if head.None? {
        return None;
      }
      var k := KindOf(m, head.value.id);
      if k == Unknown {
        return None;
      }
      var payload := GetPayload(k);
      if payload.None? {
        return None;
      }
      e := Some(Event(head.value, payload.value));
    }

    /**
     * Events are read until there is no next one, or more than the limit (200000000) have been read: the trace,
     * decoded.
     */
    method ReadTrace(m: Mapping, limit: nat) returns (events: seq<Event>)
      requires Valid()
      modifies this
      ensures events == FirstEvents(m, bytes[old(at)..], limit + 1)
    {
      hide FirstEvents, EventAt;
      events := [];
      var delta := 0;
      ghost var whole := FirstEvents(m, bytes[at..], limit + 1);
      while true
        invariant Valid() && |events| <= limit
        invariant events + FirstEvents(m, bytes[at..], limit + 1 - |events|) == whole
        decreases |bytes| - at
      {
        FirstOfEvents(m, bytes, at, limit - |events|);
        var e := NextEvent(m, delta);
        if e.None? {
          return;
        }
        delta := e.value.head.delta;
        events := events + [e.value];
        if |events| > limit {
          return;
        }
      }
    }
  }

  // The event at a place, and the place after it.
  function EventAt(m: Mapping, b: seq<byte>, at: nat): Option<(Event, nat)>
    requires at <= |b|
  {
    match DecodeEvent(m, b[at..])
    case None => None
    case Some((e, n)) => Some((e, at + n))
  }

  lemma OneMoreEvent(m: Mapping, b: seq<byte>, at: nat)
    requires at <= |b|
    ensures EventAt(m, b, at).None? ==> DecodeAll(m, b[at..]) == []
    ensures EventAt(m, b, at).Some? ==>
      var (e, to) := EventAt(m, b, at).value;
      at < to <= |b| && DecodeAll(m, b[at..]) == [e] + DecodeAll(m, b[to..])
  {
    hide DecodeEvent;
    var r := DecodeEvent(m, b[at..]);
    if r.Some? {
      SliceOfRest(b, at, 0, r.value.1);
    }
  }

  lemma EventParts(m: Mapping, b: seq<byte>, at: nat)
    requires at <= |b|
    ensures DecodeHead(b[at..]).None? ==> EventAt(m, b, at).None?
    ensures DecodeHead(b[at..]).Some? ==>
      var (head, n) := DecodeHead(b[at..]).value;
      var k := KindOf(m, head.id);
      var to := at + n + PayloadSize(k);
      && at + n <= |b|
      && EventAt(m, b, at) ==
        if k == Unknown || to > |b| then None else Some((Event(head, Parse(k, b[at + n..to])), to))
  {
    hide Parse, PayloadSize;
    var s := b[at..];
    if DecodeHead(s).Some? {
      var (head, n) := DecodeHead(s).value;
      var size := PayloadSize(KindOf(m, head.id));
      if n + size <= |s| {
        SliceOfRest(b, at, n, n + size);
      }
    }
  }

  // ----- from messages

  // All bytes that will ever arrive; as many as have been read are behind the reader.
  ghost function Stream(buf: MpiBuffer): seq<byte> {
    Flatten(buf.messages)
  }

  // There is a message, and buffers hold any field.
  ghost predicate Ready(buf: MpiBuffer)
    reads buf, buf.buf0, buf.buf1
  {
    buf.Valid() && buf.size >= 8 && |buf.messages| > 0
  }

  method Receive(buf: MpiBuffer, n: nat) returns (r: seq<byte>)
    requires Ready(buf) && n <= 8 && |buf.got| + n <= |Stream(buf)|
    modifies buf, buf.buf0, buf.buf1
    ensures Ready(buf) && |buf.got| == old(|buf.got|) + n <= |Stream(buf)|
    ensures |r| == n && r == Stream(buf)[old(|buf.got|)..|buf.got|]
  {
    ghost var before := buf.got;
    r := buf.ReadFromBuffer(n);
    buf.ReadsAreAPrefix();
    assert Stream(buf)[..|buf.got|] == before + r;
  }

  /** The next head, assembled from pieces that may lie in different messages. */
  method ReceiveEventId(buf: MpiBuffer, stale: nat) returns (head: Head)
    requires Ready(buf) && |buf.got| <= |Stream(buf)| && DecodeHead(Stream(buf)[|buf.got|..]).Some?
    modifies buf, buf.buf0, buf.buf1
    ensures Ready(buf) && old(|buf.got|) <= |buf.got| <= |Stream(buf)|
    ensures DecodeHead(Stream(buf)[old(|buf.got|)..]) == Some((head, |buf.got| - old(|buf.got|)))
  {
    hide *;
    AssembledAt(Stream(buf), |buf.got|, stale);
    var two := Receive(buf, 2);
    var six: seq<byte> := [];
    if IsLong(two) {
      six := Receive(buf, 6);
    }
    var flag := Receive(buf, 1);
    head := Assemble(two, six, stale, flag[0]);
  }

  method ReceiveAccess(buf: MpiBuffer, k: Kind) returns (p: Payload)
    requires Ready(buf) && (k == Load || k == Store) && |buf.got| + PayloadSize(k) <= |Stream(buf)|
    modifies buf, buf.buf0, buf.buf1
    ensures Ready(buf) && |buf.got| == old(|buf.got|) + PayloadSize(k) <= |Stream(buf)|
    ensures p == Parse(k, Stream(buf)[old(|buf.got|)..|buf.got|])
  {
    hide Ready, Stream, Little;
    ghost var s, at := Stream(buf), |buf.got|;
    var cpu := Receive(buf, 1);
    var address := Receive(buf, 8);
    var info := Receive(buf, 1);
    SliceOfSlice(s, at, PayloadSize(k), 1, 9);
    var data: Option<nat> := None;
    if k == Store {
      var bytes := Receive(buf, 8);
      SliceOfSlice(s, at, 18, 10, 18);
      data := Some(Little(bytes));
    }
    p := Access(cpu[0], Little(address), info[0] / 64 % 2 == 1, SizeOf(info[0]), data);
  }

  /** A payload, field by field. */
  method ReceivePayload(buf: MpiBuffer, k: Kind) returns (p: Payload)
    requires k != Unknown && Ready(buf) && |buf.got| + PayloadSize(k) <= |Stream(buf)|
    modifies buf, buf.buf0, buf.buf1
    ensures Ready(buf) && |buf.got| == old(|buf.got|) + PayloadSize(k) <= |Stream(buf)|
    ensures p == Parse(k, Stream(buf)[old(|buf.got|)..|buf.got|])
  {
    hide Ready, Stream, Little;
    ghost var s, at := Stream(buf), |buf.got|;
    match k
    case Load => p := ReceiveAccess(buf, k);
    case Store => p := ReceiveAccess(buf, k);
    case UpdateCr =>
      var cpu := Receive(buf, 1);
      var register := Receive(buf, 1);
      var value := Receive(buf, 8);
      SliceOfSlice(s, at, 10, 2, 10);
      p := CrChange(cpu[0], register[0], Little(value));
    case Invlpg =>
      var address := Receive(buf, 8);
      var cpu := Receive(buf, 1);
      SliceOfSlice(s, at, 9, 0, 8);
      p := Page(Little(address), cpu[0]);
    case StartTb =>
      var cpu := Receive(buf, 1);
      var pc := Receive(buf, 8);
      var size := Receive(buf, 2);
      SliceOfSlice(s, at, 11, 1, 9);
      SliceOfSlice(s, at, 11, 9, 11);
      p := Block(cpu[0], Little(pc), Little(size));
  }

  /** The next event of the messages is the next event of their bytes, as for a file. */
  method ReceiveEvent(buf: MpiBuffer, m: Mapping, stale: nat) returns (e: Event)
    requires Ready(buf) && |buf.got| <= |Stream(buf)| && EventAt(m, Stream(buf), |buf.got|).Some?
    modifies buf, buf.buf0, buf.buf1
    ensures Ready(buf) && |buf.got| <= |Stream(buf)|
    ensures EventAt(m, Stream(buf), old(|buf.got|)) == Some((e, |buf.got|))
  {
    hide Ready, Stream, DecodeHead, EventAt, PayloadSize, Parse;
    EventParts(m, Stream(buf), |buf.got|);
    var head := ReceiveEventId(buf, stale);
    var k := KindOf(m, head.id);
    var payload := ReceivePayload(buf, k);
    e := Event(head, payload);
  }

  // From a place on there is enough to stop: an event of unknown number comes, or the limit is reached.
  ghost predicate Stops(m: Mapping, b: seq<byte>, at: nat, limit: nat)
    requires at <= |b|
    decreases limit
  {
    var r := DecodeHead(b[at..]);
    r.Some? && (limit > 1 && KindOf(m, r.value.0.id) != Unknown ==>
      EventAt(m, b, at).Some? && EventAt(m, b, at).value.1 <= |b| && Stops(m, b, EventAt(m, b, at).value.1, limit - 1))
  }

  // The first of the events that the bytes stand for.
  function FirstEvents(m: Mapping, s: seq<byte>, n: nat): seq<Event> {
    var all := DecodeAll(m, s);
    if n <= |all| then all[..n] else all
  }

  lemma NoEventLeft(m: Mapping, b: seq<byte>, at: nat, n: nat)
    requires at <= |b|
    requires n == 0 || (DecodeHead(b[at..]).Some? && KindOf(m, DecodeHead(b[at..]).value.0.id) == Unknown)
    ensures FirstEvents(m, b[at..], n) == []
  {
    EventParts(m, b, at);
    OneMoreEvent(m, b, at);
  }

  // The first of n + 1 events, if there is one.
  lemma FirstOfEvents(m: Mapping, b: seq<byte>, at: nat, n: nat)
    requires at <= |b|
    ensures EventAt(m, b, at).None? ==> FirstEvents(m, b[at..], n + 1) == []
    ensures EventAt(m, b, at).Some? ==>
      var (e, to) := EventAt(m, b, at).value;
      at < to <= |b| && FirstEvents(m, b[at..], n + 1) == [e] + FirstEvents(m, b[to..], n)
    ensures forall s :: FirstEvents(m, s, 0) == []
  {
    OneMoreEvent(m, b, at);
  }

  lemma EventThenRest(m: Mapping, b: seq<byte>, at: nat, n: nat)
    requires at <= |b| && EventAt(m, b, at).Some?
    ensures var (e, to) := EventAt(m, b, at).value;
      to <= |b| && FirstEvents(m, b[at..], n + 1) == [e] + FirstEvents(m, b[to..], n)
  {
    OneMoreEvent(m, b, at);
  }

  lemma StopsMeans(m: Mapping, b: seq<byte>, at: nat, limit: nat)
    requires at <= |b| && Stops(m, b, at, limit)
    ensures DecodeHead(b[at..]).Some?
    ensures var (head, n) := DecodeHead(b[at..]).value;
      at + n <= |b| && (limit > 1 && KindOf(m, head.id) != Unknown ==>
        var k := KindOf(m, head.id);
        var to := at + n + PayloadSize(k);
        && to <= |b| && EventAt(m, b, at) == Some((Event(head, Parse(k, b[at + n..to])), to))
        && Stops(m, b, to, limit - 1))
  {
    hide Parse, PayloadSize;
    EventParts(m, b, at);
  }

  /**
   * The loop over the events of the messages: it ends at the first event of unknown number, or when it has read the
   * head of event number limit (200000000). The events are those that the bytes stand for.
   */
  method ReceiveTrace(buf: MpiBuffer, m: Mapping, limit: nat) returns (events: seq<Event>)
    requires limit > 0 && Ready(buf) && |buf.got| <= |Stream(buf)| && Stops(m, Stream(buf), |buf.got|, limit)
    modifies buf, buf.buf0, buf.buf1
    ensures Ready(buf) && events == FirstEvents(m, Stream(buf)[old(|buf.got|)..], limit - 1)
  {
    hide Ready, Stream, Stops, FirstEvents, DecodeHead, EventAt, PayloadSize, Parse;
    ghost var b := Stream(buf);
    ghost var whole := FirstEvents(m, b[|buf.got|..], limit - 1);
    events := [];
    var total, delta := 0, 0;
    while true
      invariant total < limit && Ready(buf) && |buf.got| <= |b| && Stops(m, b, |buf.got|, limit - total)
      invariant events + FirstEvents(m, b[|buf.got|..], limit - total - 1) == whole
      decreases limit - total
    {
      StopsMeans(m, b, |buf.got|, limit - total);
      ghost var at := |buf.got|;
      total := total + 1;
      var head := ReceiveEventId(buf, delta);
      delta := head.delta;
      var k := KindOf(m, head.id);
      if total == limit || k == Unknown {
        NoEventLeft(m, b, at, limit - total);
        return;
      }
      EventThenRest(m, b, at, limit - total - 1);
      var payload := ReceivePayload(buf, k);
      events := events + [Event(head, payload)];
    }
  }

  // ----- from shared memory

  lemma HeadOfPrefix(s: seq<byte>, t: seq<byte>)
    requires s <= t && DecodeHead(s).Some?
    ensures DecodeHead(t) == DecodeHead(s)
  {
    AssembledIsDecoded(s, 0);
    AssembledIsDecoded(t, 0);
    hide Assemble, DecodeHead, IsLong;
    assert s[..2] == t[..2];
    if |s| >= 9 {
      assert s[2..8] == t[2..8];
    }
  }

  /** More bytes only add events. */
  lemma {:induction false} DecodedPrefix(m: Mapping, s: seq<byte>, t: seq<byte>)
    requires s <= t
    ensures DecodeAll(m, s) <= DecodeAll(m, t)
    decreases |s|
  {
    hide DecodeHead, Parse, PayloadSize;
    if DecodeEvent(m, s).Some? {
      var (e, n) := DecodeEvent(m, s).value;
      HeadOfPrefix(s, t);
      var (head, h) := DecodeHead(s).value;
      assert s[h..n] == t[h..n];
      assert DecodeEvent(m, t) == Some((e, n));
      DecodedPrefix(m, s[n..], t[n..]);
    }
  }

  /**
   * In every reachable state of the shared buffers, the bytes read so far stand for the first of the events that the
   * producer has written.
   */
  lemma SharedEvents(m: Mapping, bufs: seq<seq<byte>>, size: nat, actions: seq<SharedMem.Action>, ws: seq<Written>)
    requires size > 0 && |bufs| == 2 && |bufs[0]| == |bufs[1]| == size
    requires SharedMem.Run(SharedMem.Initial(bufs, size), actions).Some?
    requires (forall w :: w in ws ==> Writable(m, w)) && AllSurvive(m, ws)
    requires Flatten(SharedMem.Run(SharedMem.Initial(bufs, size), actions).value.chunks) <= EncodeAll(m, ws)
    ensures var s := SharedMem.Run(SharedMem.Initial(bufs, size), actions).value;
      DecodeAll(m, s.got) <= EventsOf(ws)
  {
    SharedMem.ReadsAreAPrefix(bufs, size, actions);
    DecodedPrefix(m, SharedMem.Run(SharedMem.Initial(bufs, size), actions).value.got, EncodeAll(m, ws));
    StreamRoundTrip(m, ws);
  }
}
