/** Numbers as bytes, lowest first as the machine keeps them, and highest first as traces do. */
module Numbers {
  import opened MemorySpec

  function Power(n: nat): (p: nat)
    ensures p > 0
  {
    if n == 0 then 1 else 256 * Power(n - 1)
  }

  function Little(b: seq<byte>): nat {
    if b == [] then 0 else b[0] + 256 * Little(b[1..])
  }

  function LittleBytes(x: nat, n: nat): (b: seq<byte>)
    ensures |b| == n
  {
    if n == 0 then [] else [x % 256] + LittleBytes(x / 256, n - 1)
  }

  function Big(b: seq<byte>): nat {
    if b == [] then 0 else 256 * Big(b[..|b| - 1]) + b[|b| - 1]
  }

  function BigBytes(x: nat, n: nat): (b: seq<byte>)
    ensures |b| == n
  {
    if n == 0 then [] else BigBytes(x / 256, n - 1) + [x % 256]
  }

  lemma {:induction false} LittleRoundTrip(x: nat, n: nat)
    requires x < Power(n)
    ensures Little(LittleBytes(x, n)) == x
  {
    if n > 0 {
      LittleRoundTrip(x / 256, n - 1);
      assert LittleBytes(x, n)[1..] == LittleBytes(x / 256, n - 1);
    }
  }

  lemma {:induction false} BigRoundTrip(x: nat, n: nat)
    requires x < Power(n)
    ensures Big(BigBytes(x, n)) == x
  {
    if n > 0 {
      BigRoundTrip(x / 256, n - 1);
      assert BigBytes(x, n)[..n - 1] == BigBytes(x / 256, n - 1);
    }
  }

  lemma {:induction false} BytesRoundTrip(b: seq<byte>)
    ensures LittleBytes(Little(b), |b|) == b
    ensures Little(b) < Power(|b|)
  {
    if b != [] {
      BytesRoundTrip(b[1..]);
    }
  }

  lemma {:induction false} BigBound(b: seq<byte>)
    ensures Big(b) < Power(|b|)
  {
    if b != [] {
      BigBound(b[..|b| - 1]);
    }
  }

  // Leading bytes weigh most.
  lemma {:induction false} BigAppend(a: seq<byte>, b: seq<byte>)
    ensures Big(a + b) == Big(a) * Power(|b|) + Big(b)
  {
    if b == [] {
      assert a + b == a;
    } else {
      var b' := b[..|b| - 1];
      BigAppend(a, b');
      assert (a + b)[..|a + b| - 1] == a + b';
      assert Big(a) * Power(|b|) == 256 * (Big(a) * Power(|b'|));
    }
  }

  lemma {:induction false} LittleAppend(a: seq<byte>, b: seq<byte>)
    ensures Little(a + b) == Little(a) + Power(|a|) * Little(b)
  {
    if a == [] {
      assert a + b == b;
    } else {
      LittleAppend(a[1..], b);
      assert (a + b)[1..] == a[1..] + b;
      assert Power(|a|) * Little(b) == 256 * (Power(|a[1..]|) * Little(b));
    }
  }

  lemma Powers()
    ensures Power(1) == 0x100 && Power(2) == 0x1_0000 && Power(6) == 0x1_0000_0000_0000
    ensures Power(7) == 0x100_0000_0000_0000 && Power(8) == 0x1_0000_0000_0000_0000
  {
    assert Power(3) == 0x100_0000;
    assert Power(4) == 0x1_0000_0000;
    assert Power(5) == 0x100_0000_0000;
  }

  lemma Two(b0: byte, b1: byte)
    ensures Little([b0, b1]) == (b0 as int) + 256 * b1
    ensures Big([b0, b1]) == 256 * (b0 as int) + b1
  {
    assert [b0, b1][1..] == [b1] && [b1][1..] == [] && Little([b1]) == b1;
    assert [b0, b1][..1] == [b0] && [b0][..0] == [] && Big([b0]) == b0;
  }
}
