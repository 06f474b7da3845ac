/** The session's bounded transmit ring: whole frames in, bytes out. */
module VoxLinkSession {
  import opened Crc16
  import opened VoxLinkCodec
  import opened VoxLinkTransmit
  import RingIndices

  class Session {
    const tx: array<byte>
    var txHead: nat
    var txTail: nat
    var telemetryHighWater: nat
    var counters: TxCounters

    ghost predicate Valid()
      reads `txHead, `txTail
    {
      tx.Length == TX_CAPACITY && txHead < TX_CAPACITY && txTail < TX_CAPACITY
    }

    /** The bytes waiting to be transmitted. */
    ghost function Pending(): (s: seq<byte>)
      requires Valid()
      reads `txHead, `txTail, tx
      ensures |s| < TX_CAPACITY
    {
      RingIndices.Contents(tx[..], txHead, txTail)
    }

    ghost predicate Is(s: Tx): (b: bool)
      reads `txHead, `txTail, `counters, tx
      ensures b ==> |s.pending| < TX_CAPACITY
    {
      Valid() && Pending() == s.pending && counters == s.counters
    }

    /** A configured mark of zero selects the default. */
    constructor (highWater: nat)
      ensures Is(START.tx) && fresh(tx)
      ensures telemetryHighWater == if highWater != 0 then highWater else DEFAULT_HIGH_WATER
    {
      tx := new byte[TX_CAPACITY];
      txHead, txTail := 0, 0;
      counters := ZERO_TX;
      telemetryHighWater := if highWater != 0 then highWater else (TX_CAPACITY / 4) * 3;
    }

    function TxUsed(): (n: nat)
      requires Valid()
      reads `txHead, `txTail, tx
      ensures n == |Pending()|
    {
      RingIndices.UsedSlots(tx[..], txHead, txTail);
      (txHead + TX_CAPACITY - txTail) % TX_CAPACITY
    }

    /** Moves up to max of the oldest pending bytes to the caller's buffer. */
    method TakeTx(dst: array<byte>, max: nat) returns (n: nat)
      requires Valid() && dst != tx && max <= dst.Length
      modifies `txTail, dst
      ensures Valid() && n == Min(|old(Pending())|, max)
      ensures dst[..n] == old(Pending())[..n] && dst[n..] == old(dst[n..])
      ensures Pending() == old(Pending())[n..]
    {
      hide Pending;
      var used := TxUsed();
      n := if used < max then used else max;
      for i := 0 to n
        invariant Valid()
        invariant Pending() == old(Pending())[i..]
        invariant dst[..i] == old(Pending())[..i]
        invariant forall k :: i <= k < dst.Length ==> dst[k] == old(dst[k])
      {
        var b := TakeByte();
        dst[i] := b;
      }
    }

    /** Writes a frame into the ring, byte by byte, if the limit of its kind allows. */
    method Enqueue(m: Message, ghost s: Tx) returns (ok: bool)
      requires Is(s)
      modifies `txHead, `counters, tx
      ensures Is(Send(s, m, telemetryHighWater))
      ensures ok == Accepted(s, m, telemetryHighWater)
    {
      hide FrameBytes;
      if |m.payload| > MAX_PAYLOAD {
        return false;
      }
      SendableIsWellFormed(m);
      var scratch := new byte[HEADER_SIZE + MAX_PAYLOAD + CRC_SIZE];
      var n := EncodeFrame(m.msgType, m.flags, m.seqNo, m.payload, scratch);
      var limit := if m.critical then TX_CAPACITY - 1 else telemetryHighWater;
      var used := TxUsed();
      if used + n > limit {
        if m.critical {
          counters := counters.(responseDropped := counters.responseDropped + 1);
        } else {
          counters := counters.(telemetryDropped := counters.telemetryDropped + 1);
        }
        counters := counters.(txBytesDropped := counters.txBytesDropped + 1);
        return false;
      }
      PutAll(scratch[..n]);
      counters := counters.(framesTx := counters.framesTx + 1);
      ok := true;
    }

    method PutAll(bytes: seq<byte>)
      requires Valid() && |bytes| < TX_CAPACITY
      modifies `txHead, tx
      ensures Valid() && Pending() == Written(old(Pending()), bytes)
    {
      hide Pending;
      for i := 0 to |bytes|
        invariant Valid()
        invariant Pending() == Written(old(Pending()), bytes[..i])
      {
        WrittenSnoc(old(Pending()), bytes[..i], bytes[i]);
        PutByte(bytes[i]);
        assert bytes[..i + 1] == bytes[..i] + [bytes[i]];
      }
      assert bytes[..|bytes|] == bytes;
    }

    method PutByte(b: byte)
      requires Valid()
      modifies `txHead, tx
      ensures Valid()
      ensures Pending() == if |old(Pending())| < TX_CAPACITY - 1 then old(Pending()) + [b] else []
    {
      if |Pending()| < TX_CAPACITY - 1 {
        RingIndices.Put(tx[..], txHead, txTail, b);
      } else {
        RingIndices.Overrun(tx[..], txHead, txTail, b);
      }
      tx[txHead] := b;
      txHead := RingIndices.Next(txHead, TX_CAPACITY);
    }

    method TakeByte() returns (b: byte)
      requires Valid() && Pending() != []
      modifies `txTail
      ensures Valid() && old(Pending()) == [b] + Pending()
    {
      RingIndices.Take(tx[..], txHead, txTail);
      b := tx[txTail];
      txTail := RingIndices.Next(txTail, TX_CAPACITY);
    }
  }

  /** One more byte written. */
  lemma WrittenSnoc(pending: seq<byte>, bytes: seq<byte>, b: byte)
    requires |pending| < TX_CAPACITY && |bytes| + 1 < TX_CAPACITY
    ensures var before := Written(pending, bytes);
            Written(pending, bytes + [b])
            == if |before| < TX_CAPACITY - 1 then before + [b] else []
  {
  }
}
