/** The receive side of RFExplorer.readLoop (rfx/protocol.go:762-997): an 8192-byte
    buffer filled by serial reads, the decode loop that takes packets off its front, and
    the in-place compaction that moves the undecoded rest to the start. The bytes of one
    pass are judged by Decoding.DecodeStep; this class keeps the buffer and the offset
    and is proved to agree with Decoding.DecodeAll on everything it has received. */
module StreamDecoder {
  import opened Wire
  import opened Packets
  import opened Decoding

  /** The packets of the whole input are those already taken followed by those still to
      come from what is left, and both leave the same rest. */
  ghost predicate Accounts(whole: Decoded, taken: seq<Packet>, left: Decoded)
  {
    whole.packets == taken + left.packets && whole.rest == left.rest
  }

  /** Where the loop decodes nothing more from `b`, the packets taken so far are all
      of the input's and `b` is its rest. */
  lemma LoopStops(whole: Decoded, taken: seq<Packet>, b: seq<byte>, last: Decoded)
    requires Accounts(whole, taken, last) && last == Decoded([], b)
    ensures taken == whole.packets && b == whole.rest
  {
    assert taken + [] == taken;
  }

  /** A pass that emits moves its packet from what is still to be decoded to what has
      been taken, and leaves the input's rest as it was. */
  lemma LoopAdvances(input: seq<byte>, taken: seq<Packet>, b: seq<byte>, p: Packet,
                     after: seq<byte>)
    requires Accounts(DecodeAll(input), taken, DecodeAll(b))
    requires DecodeStep(b).Emit? && p == DecodeStep(b).packet
    requires after == b[DecodeStep(b).consumed..]
    ensures Accounts(DecodeAll(input), taken + [p], DecodeAll(after))
    ensures |after| < |b|
  {
    DecodeAllEmitAfter(taken, b);
  }

  class Decoder {
    /** `buf := make([]byte, 8192)` */
    const buf: array<byte>
    /** Number of buffered bytes: `buf[:off]` is what the decode loop looks at. */
    var off: int

    /** The buffer has its fixed size, the offset lies within it, and the buffered bytes
        are ones the decode loop has already stopped on. */
    predicate Valid()
      reads this, buf
    {
      buf.Length == BufferSize && 0 <= off <= BufferSize && DecodeStep(buf[..off]).Wait?
    }

    /** The bytes received and not yet decoded. */
    function Pending(): (p: seq<byte>)
      reads this, buf
      requires Valid()
      ensures |p| <= BufferSize
    {
      buf[..off]
    }

    constructor ()
      ensures Valid() && Pending() == []
      ensures fresh(buf)
    {
      buf := new byte[BufferSize](_ => 0);
      off := 0;
    }

    /** Before each read the loop starts over on a buffer with fewer than two free bytes,
        dropping what it holds (rfx/protocol.go:766-769). The result is the room the next
        read may fill. */
    method Reserve() returns (room: int)
      requires Valid()
      modifies this
      ensures Valid()
      ensures Pending() == if old(off) >= BufferSize - 1 then [] else old(Pending())
      ensures room == BufferSize - off && room >= 2
    {
      if off >= buf.Length - 1 {
        off := 0;
      }
      room := buf.Length - off;
    }

    /** `copy(buf, buf[k:]); off -= k`: the bytes after the first k move to the front. */
    method Compact(k: int)
      requires buf.Length == BufferSize && 1 <= k <= off <= BufferSize
      modifies this, buf
      ensures off == old(off) - k
      ensures buf[..off] == old(buf[k..off])
      ensures buf[..BufferSize - k] == old(buf[k..])
    {
      var j := 0;
      while j < buf.Length - k
        invariant 0 <= j <= buf.Length - k && off == old(off)
        invariant forall t :: 0 <= t < j ==> buf[t] == old(buf[t + k])
        invariant forall t :: j <= t < buf.Length ==> buf[t] == old(buf[t])
      {
        buf[j] := buf[j + k];
        j := j + 1;
      }
      assert buf[..BufferSize - k] == old(buf[k..]);
      off := off - k;
      assert buf[..off] == buf[..BufferSize - k][..off];
    }

    /** Copy the bytes of one serial read in behind the buffered ones (rfx/protocol.go:775,
        784: the read fills `buf[off:]`, then `off += n`). */
    method Append(chunk: seq<byte>)
      requires buf.Length == BufferSize && 0 <= off && off + |chunk| <= BufferSize
      modifies this, buf
      ensures off == old(off) + |chunk|
      ensures buf[..off] == old(buf[..off]) + chunk
    {
      var i := 0;
      while i < |chunk|
        invariant 0 <= i <= |chunk| && off == old(off)
        invariant buf[..off + i] == old(buf[..off]) + chunk[..i]
      {
        buf[off + i] := chunk[i];
        i := i + 1;
      }
      off := off + |chunk|;
    }

    /** One pass of the decode loop (rfx/protocol.go:787-994) on `buf[:off]`: when the
        pass emits a packet, its bytes leave the front of the buffer; when it waits,
        nothing changes. */
    method Pass() returns (emitted: bool, packet: Packet)
      requires buf.Length == BufferSize && 0 <= off <= BufferSize
      modifies this, buf
      ensures 0 <= off <= BufferSize
      ensures var step := DecodeStep(old(buf[..off]));
        emitted == step.Emit? &&
        (emitted ==> packet == step.packet && buf[..off] == old(buf[..off])[step.consumed..]) &&
        (!emitted ==> off == old(off) && buf[..off] == old(buf[..off]))
      ensures !emitted ==> DecodeStep(buf[..off]).Wait?
      ensures emitted ==> off < old(off)
    {
      var step := DecodeStep(buf[..off]);
      if step.Wait? {
        return false, Unhandled([]);
      }
      ghost var before := buf[..off];
      Compact(step.consumed);
      assert buf[..off] == before[step.consumed..];
      return true, step.packet;
    }

    /** The decode loop (rfx/protocol.go:786-995): while more than two bytes are buffered
        and the pass at the front emits, hand its packet on and compact the buffer. The
        packets are those of decoding the buffered bytes to completion, and what is left
        is exactly their undecoded rest. */
    method Drain() returns (packets: seq<Packet>)
      requires buf.Length == BufferSize && 0 <= off <= BufferSize
      modifies this, buf
      ensures Valid()
      ensures packets == DecodeAll(old(buf[..off])).packets
      ensures buf[..off] == DecodeAll(old(buf[..off])).rest
    {
      ghost var input := buf[..off];
      packets := [];
      while off > 2
        invariant buf.Length == BufferSize && 0 <= off <= BufferSize
        invariant Accounts(DecodeAll(input), packets, DecodeAll(buf[..off]))
        decreases off
      {
        ghost var before := buf[..off];
        var emitted, packet := Pass();
        if !emitted {
          DecodeAllWait(before);
          LoopStops(DecodeAll(input), packets, before, DecodeAll(before));
          return;
        }
        LoopAdvances(input, packets, before, packet, buf[..off]);
        packets := packets + [packet];
      }
      DecodeAllWait(buf[..off]);
      LoopStops(DecodeAll(input), packets, buf[..off], DecodeAll(buf[..off]));
    }

    /** One serial read handed to the decoder: append its bytes and run the decode loop.
        The packets are those of decoding everything pending followed by the new bytes,
        and what stays buffered is exactly the undecoded rest; a read of zero bytes
        (rfx/protocol.go:781-783) changes nothing. */
    method Feed(chunk: seq<byte>) returns (packets: seq<Packet>)
      requires Valid() && |chunk| <= BufferSize - off
      modifies this, buf
      ensures Valid()
      ensures packets == DecodeAll(old(Pending()) + chunk).packets
      ensures Pending() == DecodeAll(old(Pending()) + chunk).rest
    {
      if |chunk| == 0 {
        assert buf[..off] + chunk == buf[..off];
        DecodeAllWait(buf[..off]);
        return [];
      }
      Append(chunk);
      packets := Drain();
    }
  }
}
