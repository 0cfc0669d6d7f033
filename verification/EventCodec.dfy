/**
 * The trace format (filereader/filereader.c:49-102): an event is a time difference of two or eight bytes, highest
 * byte first, a byte with its sign and the event's number, and the payload that the number calls for.
 */
module EventCodec {
  import opened Options
  import opened Arith
  import opened MemorySpec
  import opened Numbers

  const LONG: nat := 0x8000_0000_0000_0000        // 2^63
  const DROPPED: nat := 0x80_0000_0000_0000       // 2^55
  const WORD: nat := 0x1_0000_0000_0000_0000      // 2^64

  datatype Head = Head(delta: nat, negative: bool, id: nat)

  // ----- the head of an event

  // What the program makes of the first two bytes and six more, whatever was in the variable before.
  function LongDelta(lsb: nat, six: nat, stale: nat): nat {
    var shifted := (stale / 0x1_0000_0000_0000 * 0x1_0000_0000_0000 + six) * 0x1_0000 % WORD;
    Big(LittleBytes(lsb % 0x8000 + shifted, 8)) % LONG
  }

  function ShortDelta(lsb: nat): nat {
    Big(LittleBytes(lsb, 2)) % 0x8000
  }

  // The meaning: the bytes with the highest weight first, without the flag; of the second byte of the long
  // form the highest bit is dropped as well.
  function DecodeHead(s: seq<byte>): Option<(Head, nat)> {
    if |s| < 3 then None
    else if s[0] < 128 then Some((Head(Big(s[..2]), s[2] >= 128, s[2] % 128), 3))
    else if |s| < 9 then None
    else Some((Head(Big([s[0] % 128, s[1] % 128] + s[2..8]), s[8] >= 128, s[8] % 128), 9))
  }

  // Bit 7 of the low byte.
  lemma FlagOf(b0: nat, b1: nat)
    requires b0 < 256
    ensures (b0 + 256 * b1) / 128 % 2 == b0 / 128
  {
    DivideUnique(b0 + 256 * b1, 128, b0 / 128 + 2 * b1, b0 % 128);
  }

  lemma SwappedShort(b0: byte, b1: byte)
    ensures LittleBytes(Little([b0, b1]), 2) == [b0, b1]
  {
    BytesRoundTrip([b0, b1]);
  }

  lemma ShortForm(b0: byte, b1: byte)
    ensures Little([b0, b1]) / 128 % 2 == 1 <==> b0 >= 128
    ensures b0 < 128 ==> ShortDelta(Little([b0, b1])) == Big([b0, b1])
  {
    Two(b0, b1);
    SwappedShort(b0, b1);
    FlagOf(b0, b1);
    hide Little, LittleBytes, Big;
  }

  lemma Shifted(six: nat, stale: nat)
    requires six < 0x1_0000_0000_0000
    ensures (stale / 0x1_0000_0000_0000 * 0x1_0000_0000_0000 + six) * 0x1_0000 % WORD == six * 0x1_0000
  {
    var q := stale / 0x1_0000_0000_0000;
    assert (q * 0x1_0000_0000_0000 + six) * 0x1_0000 == q * WORD + six * 0x1_0000;
  }

  lemma Masked(b0: byte, b1: byte)
    ensures Little([b0, b1]) % 0x8000 == Little([b0, b1 % 128])
  {
    Two(b0, b1);
    Two(b0, b1 % 128);
  }

  // The shifts and swaps turn the bytes round; the first mask has dropped a bit, the second drops the flag.
  lemma Swapped(b0: byte, b1: byte, six: seq<byte>, stale: nat)
    requires |six| == 6
    ensures LongDelta(Little([b0, b1]), Little(six), stale) == Big([b0, b1 % 128] + six) % LONG
  {
    hide Little, Big, LittleBytes, Power;
    var two := [b0, b1 % 128];
    Powers();
    BytesRoundTrip(six);
    Shifted(Little(six), stale);
    Masked(b0, b1);
    LittleAppend(two, six);
    BytesRoundTrip(two + six);
  }

  lemma TopBit(b0: byte, rest: nat)
    requires rest < 0x100_0000_0000_0000
    ensures (b0 * 0x100_0000_0000_0000 + rest) % LONG == b0 % 128 * 0x100_0000_0000_0000 + rest
  {
  }

  lemma Unflagged(b0: byte, seven: seq<byte>)
    requires |seven| == 7
    ensures Big([b0] + seven) % LONG == Big([b0 % 128] + seven)
  {
    hide Little, LittleBytes, Power;
    Powers();
    BigBound(seven);
    BigAppend([b0], seven);
    BigAppend([b0 % 128], seven);
    assert Big([b0]) == b0 && Big([b0 % 128]) == b0 % 128;
    TopBit(b0, Big(seven));
  }

  /** The program's shifts, swaps and masks compute the meaning of the long form; stale upper bits do not matter. */
  lemma LongForm(b0: byte, b1: byte, six: seq<byte>, stale: nat)
    requires |six| == 6
    ensures LongDelta(Little([b0, b1]), Little(six), stale) == Big([b0 % 128, b1 % 128] + six)
  {
    hide *;
    Swapped(b0, b1, six, stale);
    var seven := [b1 % 128] + six;
    Unflagged(b0, seven);
    assert [b0] + seven == [b0, b1 % 128] + six;
    assert [b0 % 128] + seven == [b0 % 128, b1 % 128] + six;
  }

  // ----- writing the head

  function Flag(h: Head): byte
    requires h.id < 128
  {
    if h.negative then 128 + h.id else h.id
  }

  // The format: the long form has its first bit set, the short form must not.
  function EncodeHead(h: Head, long: bool): seq<byte>
    requires h.id < 128 && h.delta < if long then LONG else 0x8000
  {
    (if long then BigBytes(LONG + h.delta, 8) else BigBytes(h.delta, 2)) + [Flag(h)]
  }

  predicate HasDroppedBit(delta: nat) {
    delta / DROPPED % 2 == 1
  }

  lemma Parts(b0: byte, b1: byte, six: seq<byte>)
    requires |six| == 6
    ensures Big([b0, b1] + six) == b0 * 0x100_0000_0000_0000 + b1 * 0x1_0000_0000_0000 + Big(six)
    ensures Big(six) < 0x1_0000_0000_0000
  {
    hide Big, Power;
    Powers();
    BigBound(six);
    BigAppend([b0, b1], six);
    Two(b0, b1);
  }

  lemma DroppedBit(b0: byte, b1: byte, rest: nat, delta: nat)
    requires rest < 0x1_0000_0000_0000 && delta < LONG
    requires b0 * 0x100_0000_0000_0000 + b1 * 0x1_0000_0000_0000 + rest == LONG + delta
    ensures b0 >= 128
    ensures HasDroppedBit(delta) <==> b1 >= 128
    ensures b0 % 128 * 0x100_0000_0000_0000 + b1 % 128 * 0x1_0000_0000_0000 + rest
      == delta - if b1 >= 128 then DROPPED else 0
  {
    var low := b1 % 128 * 0x1_0000_0000_0000 + rest;
    assert low < DROPPED;
    assert delta == (b0 - 128) * 0x100_0000_0000_0000 + (if b1 >= 128 then DROPPED else 0) + low;
    assert delta == ((b0 - 128) * 2 + if b1 >= 128 then 1 else 0) * DROPPED + low;
  }

  // Decoding the long form gives the difference back without bit 55.
  lemma LongDecodes(delta: nat, flag: byte, rest: seq<byte>)
    requires delta < LONG
    ensures DecodeHead(BigBytes(LONG + delta, 8) + [flag] + rest)
      == Some((Head(delta - if HasDroppedBit(delta) then DROPPED else 0, flag >= 128, flag % 128), 9))
  {
    var w := BigBytes(LONG + delta, 8);
    var s := w + [flag] + rest;
    Powers();
    BigRoundTrip(LONG + delta, 8);
    hide Big, BigBytes, Power, HasDroppedBit;
    var six := w[2..];
    assert w == [w[0], w[1]] + six && s[2..8] == six;
    Parts(w[0], w[1], six);
    Parts(w[0] % 128, w[1] % 128, six);
    DroppedBit(w[0], w[1], Big(six), delta);
  }

  lemma ShortDecodes(delta: nat, flag: byte, rest: seq<byte>)
    requires delta < 0x8000
    ensures DecodeHead(BigBytes(delta, 2) + [flag] + rest) == Some((Head(delta, flag >= 128, flag % 128), 3))
  {
    var w := BigBytes(delta, 2);
    var s := w + [flag] + rest;
    Powers();
    BigRoundTrip(delta, 2);
    assert s[..2] == w == [w[0], w[1]];
    Two(w[0], w[1]);
  }

  /**
   * What was written is read back, with nothing more or less consumed, exactly if it was short or bit 55 of the
   * difference is clear; so it always is below 2^55.
   */
  lemma HeadRoundTripIff(h: Head, long: bool, rest: seq<byte>)
    requires h.id < 128 && h.delta < if long then LONG else 0x8000
    ensures DecodeHead(EncodeHead(h, long) + rest) == Some((h, |EncodeHead(h, long)|)) <==>
      !(long && HasDroppedBit(h.delta))
    ensures h.delta < DROPPED ==> !HasDroppedBit(h.delta)
  {
    if long {
      LongDecodes(h.delta, Flag(h), rest);
    } else {
      ShortDecodes(h.delta, Flag(h), rest);
    }
  }
}
