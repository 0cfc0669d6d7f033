/**
 * The stream through two receive buffers (filereader/mpireader.c:14-92): one receive is always open, into the
 * buffer that is not being read. MPI may write into the buffer of an open receive at any time; once the receive
 * is over, the buffer holds the next message. Messages from one sender arrive in order (section 3.5 of MPI 3.1).
 */
module MpiReader {
  import opened MemorySpec
  import opened Sequences

  class MpiBuffer {
    const size: nat
    const messages: seq<seq<byte>>       // all that the sender will ever send
    const buf0: array<byte>
    const buf1: array<byte>
    var currentReadIdx: nat
    var currentBufIdx: int               // -1 before the first read
    var openRequest: int                 // the buffer of the open receive, -1 if there is none
    var received: nat                    // messages that have arrived
    ghost var got: seq<byte>             // what the reads have returned

    function Buffer(i: int): array<byte> {
      if i == 0 then buf0 else buf1
    }

    ghost predicate Sized() {
      && size > 0 && buf0.Length == buf1.Length == size && buf0 != buf1
      && forall k :: 0 <= k < |messages| ==> |messages[k]| == size
    }

    // What has been read when message k is the current one and has been read up to a place.
    ghost function Before(k: nat, at: nat): seq<byte>
      requires k < |messages|
    {
      Flatten(messages[..k]) + if at <= |messages[k]| then messages[k][..at] else messages[k]
    }

    // Before the first read a receive into the first buffer is open. Later on the open receive is into the
    // buffer not being read, and what has been read are all messages but the last, and part of that one.
    ghost predicate Valid()
      reads this, buf0, buf1
    {
      && Sized()
      && if currentBufIdx < 0 then
           openRequest == 0 && received == 0 && currentReadIdx == 0 && got == []
         else
           && currentBufIdx < 2 && openRequest == 1 - currentBufIdx
           && 0 < received <= |messages| && currentReadIdx <= size
           && Buffer(currentBufIdx)[..] == messages[received - 1]
           && got == Before(received - 1, currentReadIdx)
    }

    constructor (size: nat, messages: seq<seq<byte>>)
      requires size > 0 && forall k :: 0 <= k < |messages| ==> |messages[k]| == size
      ensures Valid() && fresh(buf0) && fresh(buf1)
      ensures this.size == size && this.messages == messages && currentBufIdx < 0
    {
      this.size, this.messages := size, messages;
      buf0, buf1 := new byte[size], new byte[size];
      currentReadIdx, currentBufIdx, received, got := 0, -1, 0, [];
      openRequest := 0;
    }

    // MPI at work: anything may happen to the buffer of the open receive, and to nothing else.
    method Background()
      requires Sized()
      modifies buf0, buf1
      ensures openRequest != 0 ==> buf0[..] == old(buf0[..])
      ensures openRequest != 1 ==> buf1[..] == old(buf1[..])
    {
      if openRequest == 0 || openRequest == 1 {
        var target := Buffer(openRequest);
        forall k | 0 <= k < target.Length {
          target[k] := *;
        }
      }
    }

    // The open receive is waited for: its buffer holds the next message.
    method Wait()
      requires Sized() && 0 <= openRequest < 2 && received < |messages|
      modifies this`openRequest, this`received, buf0, buf1
      ensures openRequest == -1 && received == old(received) + 1
      ensures Buffer(old(openRequest))[..] == messages[old(received)]
      ensures Buffer(1 - old(openRequest))[..] == old(Buffer(1 - openRequest)[..])
    {
      Background();
      var target := Buffer(openRequest);
      forall k | 0 <= k < size {
        target[k] := messages[received][k];
      }
      openRequest, received := -1, received + 1;
    }

    // A receive is opened; there is never more than one.
    method Irecv(i: int)
      requires openRequest == -1 && 0 <= i < 2
      modifies this`openRequest
      ensures openRequest == i
    {
      openRequest := i;
    }

    // Enough has been sent for a read of n bytes to come to an end.
    ghost predicate Enough(n: nat)
      reads this
    {
      |messages| > 0 && |got| + n <= |Flatten(messages)|
    }

    lemma NothingBefore()
      requires |messages| > 0
      ensures Before(0, 0) == []
    {
    }

    lemma Onwards(k: nat, at: nat, n: nat)
      requires Sized() && k < |messages| && at <= size
      ensures at + n <= size ==> Before(k, at) + messages[k][at..at + n] == Before(k, at + n)
      ensures at + n > size && |Before(k, at)| + n <= |Flatten(messages)| ==> k + 1 < |messages|
      ensures k + 1 < |messages| && at + n > size && n <= size ==>
        Before(k, at) + (messages[k][at..] + messages[k + 1][..n - (size - at)]) == Before(k + 1, n - (size - at))
      ensures Before(k, at) <= Flatten(messages)
    {
      FlattenPart(messages, k, at);
      FlattenNext(messages, k);
      var before, b := Flatten(messages[..k]), messages[k];
      assert before + b == (before + b[..at]) + b[at..];
      assert messages[..|messages|] == messages;
      if at + n <= size {
        assert b[..at] + b[at..at + n] == b[..at + n];
      }
    }

    // The first message is waited for, and the second buffer opened for the next one.
    method TakeFirst()
      requires Valid() && currentBufIdx < 0 && |messages| > 0
      modifies this, buf0, buf1
      ensures Valid() && currentBufIdx == 0 && got == old(got)
    {
      hide Before, Flatten;
      Wait();
      Irecv(1);
      currentBufIdx := 0;
      NothingBefore();
    }

    /** A read returns the next bytes of the stream, whatever MPI does in the meantime. */
    method ReadFromBuffer(n: nat) returns (result: seq<byte>)
      requires Valid() && n <= size && Enough(n)
      modifies this, buf0, buf1
      ensures Valid() && currentBufIdx >= 0 && openRequest == 1 - currentBufIdx
      ensures got == old(got) + result && |result| == n
    {
      hide Before, Flatten;
      if currentBufIdx < 0 {
        TakeFirst();
      }
      Background();
      ghost var k, at := received - 1, currentReadIdx;
      assert got == Before(k, at);
      Onwards(k, at, n);
      if currentReadIdx + n <= size {
        result := Buffer(currentBufIdx)[currentReadIdx..currentReadIdx + n];
        currentReadIdx := currentReadIdx + n;
        assert got + result == Before(k, at + n);
      } else {
        var bytesFirst := size - currentReadIdx;
        var bytesSecond := n - bytesFirst;
        result := Buffer(currentBufIdx)[currentReadIdx..];
        var bufferToUse := currentBufIdx;
        Wait();
        Irecv(bufferToUse);
        currentBufIdx := 1 - currentBufIdx;
        currentReadIdx := bytesSecond;
        Background();
        result := result + Buffer(currentBufIdx)[..bytesSecond];
        assert result == messages[k][at..] + messages[k + 1][..bytesSecond];
        assert got + result == Before(k + 1, bytesSecond);
      }
      got := got + result;
    }

    /** So what all reads have returned, in order, is a prefix of what was sent. */
    lemma ReadsAreAPrefix()
      requires Valid()
      ensures got <= Flatten(messages)
    {
      if currentBufIdx >= 0 {
        Onwards(received - 1, currentReadIdx, 0);
      }
    }
  }
}
