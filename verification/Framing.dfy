/** The parser as it is written: a fixed buffer of 16384 bytes and the number of bytes in use,
    moved by byte copies. */
module Framing {
  import opened Bytes
  import opened FramingSpec
  import R = FramingRuns

  /** `memcpy` between two buffers. */
  method CopyIn(dst: array<Byte>, at: nat, src: seq<Byte>)
    requires at + |src| <= dst.Length
    modifies dst
    ensures dst[..] == old(dst[..at]) + src + old(dst[at + |src|..])
  {
    for i := 0 to |src|
      invariant dst[..at] == old(dst[..at])
      invariant dst[at..at + i] == src[..i]
      invariant dst[at + i..] == old(dst[at + i..])
    {
      dst[at + i] := src[i];
    }
    assert dst[..] == dst[..at] + dst[at..at + |src|] + dst[at + |src|..];
  }

  /** A little-endian number in a buffer. */
  method ReadLittle(a: array<Byte>, at: nat, k: nat) returns (n: nat)
    requires at + k <= a.Length
    ensures n == Little(a[at..at + k])
  {
    n := 0;
    for i := k downto 0
      invariant n == Little(a[at + i..at + k])
    {
      assert a[at + i..at + k] == [a[at + i]] + a[at + i + 1..at + k];
      n := a[at + i] + 256 * n;
    }
  }

  /** The loop has taken `packets` off `all` and stands before `b`. */
  ghost predicate Parsed(all: seq<Byte>, packets: seq<seq<Byte>>, b: seq<Byte>) {
    Drain(all) == Drained(packets + Drain(b).packets, Drain(b).rest, Drain(b).status)
  }

  lemma StartedDrain(all: seq<Byte>)
    ensures Parsed(all, [], all)
  {
  }

  lemma ParsedOneMore(all: seq<Byte>, packets: seq<seq<Byte>>, b: seq<Byte>)
    requires Parsed(all, packets, b) && Ready(b)
    ensures Parsed(all, packets + [b[..SizeField(b)]], b[SizeField(b)..])
  {
  }

  lemma StoppedDrain(all: seq<Byte>, packets: seq<seq<Byte>>, b: seq<Byte>)
    requires Parsed(all, packets, b) && !Ready(b)
    ensures Drain(all) == Drained(packets, b, HeadStatus(b))
  {
  }

  class BufferParse {
    const recvBuffer: array<Byte>
    var recvSize: nat

    ghost predicate Valid()
      reads this
    {
      recvBuffer.Length == CAPACITY && recvSize <= CAPACITY
    }

    /** The bytes kept for the next call. */
    ghost function Contents(): seq<Byte>
      requires Valid()
      reads this, recvBuffer
    {
      recvBuffer[..recvSize]
    }

    constructor ()
      ensures Valid() && fresh(recvBuffer) && Contents() == []
    {
      recvBuffer := new Byte[CAPACITY];
      recvSize := 0;
    }

    /** Moves what follows the first `n` bytes to the front, in ascending order. */
    method Shift(n: nat)
      requires Valid() && n <= recvSize
      modifies `recvSize, recvBuffer
      ensures Valid() && Contents() == old(Contents())[n..]
    {
      recvSize := recvSize - n;
      for i := 0 to recvSize
        invariant recvSize == old(recvSize) - n
        invariant recvBuffer[..i] == old(recvBuffer[n..n + i])
        invariant forall j | i <= j < CAPACITY :: recvBuffer[j] == old(recvBuffer[j])
      {
        recvBuffer[i] := recvBuffer[n + i];
      }
      assert old(Contents())[n..] == old(recvBuffer[n..recvSize]);
    }

    /** Takes the packet in front off the buffer; its data is copied out before the move. */
    method Take(packageSize: nat) returns (message: Message)
      requires Valid() && Ready(Contents()) && packageSize == SizeField(Contents())
      modifies `recvSize, recvBuffer
      ensures Valid() && Contents() == old(Contents())[packageSize..]
      ensures message == Unpacked(old(Contents())[..packageSize])
    {
      var package := recvBuffer[..packageSize];
      assert package == Contents()[..packageSize];
      assert package[16..18] == recvBuffer[16..18] && package[18..20] == recvBuffer[18..20];
      var mainId := ReadLittle(recvBuffer, 16, 2);
      var subId := ReadLittle(recvBuffer, 18, 2);
      message := Message(mainId, subId, package[HEAD..]);
      Shift(packageSize);
    }

    /** The loop of `buffer_commit_unpack`. */
    method Unpack() returns (received: seq<Message>, error: Error)
      requires Valid()
      modifies `recvSize, recvBuffer
      ensures Valid()
      ensures var d := Drain(old(Contents()));
        && received == R.Unpack(d.packets) && Contents() == d.rest
        && error == if d.status == Waiting then NoError else BadPacket
    {
      ghost var all := Contents();
      ghost var packets: seq<seq<Byte>> := [];
      received := [];
      StartedDrain(all);
      while recvSize >= HEAD
        invariant Valid() && received == R.Unpack(packets) && Parsed(all, packets, Contents())
        decreases recvSize
      {
        var packageSize := ReadLittle(recvBuffer, 8, 8);
        ghost var b := Contents();
        assert b[8..16] == recvBuffer[8..16];
        if packageSize < HEAD || packageSize > CAPACITY {
          StoppedDrain(all, packets, b);
          return received, BadPacket;
        }
        if recvSize < packageSize {
          break;
        }
        var message := Take(packageSize);
        R.UnpackSnoc(packets, b[..packageSize]);
        ParsedOneMore(all, packets, b);
        received := received + [message];
        packets := packets + [b[..packageSize]];
      }
      StoppedDrain(all, packets, Contents());
      error := NoError;
    }

    /** `received` are the messages the callback was called with, in order. */
    method BufferCommitUnpack(chunk: seq<Byte>) returns (received: seq<Message>, error: Error)
      requires Valid()
      modifies `recvSize, recvBuffer
      ensures Valid()
      ensures var f := Feed(old(Contents()), chunk);
        received == R.Unpack(f.packets) && Contents() == f.rest && error == f.error
      ensures error == Overflow <==> |old(Contents())| + |chunk| > 16384
      ensures error == Overflow ==> received == [] && Contents() == old(Contents())
    {
      if |chunk| > Minus(CAPACITY, recvSize) {
        return [], Overflow;
      }
      CopyIn(recvBuffer, recvSize, chunk);
      recvSize := recvSize + |chunk|;
      assert Contents() == old(Contents()) + chunk;
      received, error := Unpack();
    }

    /** `padding` stands for the bytes of the head that are never set; no object in memory is
        so large that the sum of the sizes wraps. */
    method BufferPack(mainId: nat, subId: nat, data: seq<Byte>, padding: Padding)
      returns (packed: seq<Byte>, tooLarge: bool)
      requires mainId < 0x1_0000 && subId < 0x1_0000 && padding.Valid() && |data| < SIZE_T / 2
      ensures tooLarge <==> |data| > 16360
      ensures tooLarge <==> !Message(mainId, subId, data).Valid()
      ensures !tooLarge ==> packed == Packet(Message(mainId, subId, data), padding)
    {
      if Plus(HEAD, |data|) > CAPACITY {
        return [], true;
      }
      var sendBuffer := new Byte[CAPACITY];
      var head := [0, 0] + padding.first + Digits(HEAD + |data|, 8)
        + Digits(mainId, 2) + Digits(subId, 2) + padding.last;
      CopyIn(sendBuffer, 0, head);
      CopyIn(sendBuffer, HEAD, data);
      packed, tooLarge := sendBuffer[..HEAD + |data|], false;
    }
  }
}
