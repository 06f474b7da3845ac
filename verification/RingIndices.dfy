/** A fixed buffer with a write index and a read index, one slot always free. */
module RingIndices {
  import Arithmetic

  /** What lies between the read index and the write index, in order. */
  function Contents<T>(buf: seq<T>, head: nat, tail: nat): (s: seq<T>)
    requires head < |buf| && tail < |buf|
    ensures |s| == if tail <= head then head - tail else head + |buf| - tail
    ensures |s| < |buf|
  {
    if tail <= head then buf[tail..head] else buf[tail..] + buf[..head]
  }

  function Next(i: nat, capacity: nat): (j: nat)
    requires i < capacity
    ensures j < capacity && j == if i + 1 < capacity then i + 1 else 0
  {
    (i + 1) % capacity
  }

  /** The length by index arithmetic. */
  lemma UsedSlots<T>(buf: seq<T>, head: nat, tail: nat)
    requires head < |buf| && tail < |buf|
    ensures (head + |buf| - tail) % |buf| == |Contents(buf, head, tail)|
  {
    var n := |Contents(buf, head, tail)|;
    Arithmetic.DivModUnique(head + |buf| - tail, |buf|, if tail <= head then 1 else 0, n);
  }

  /** Writing at the head while a slot is free appends; */
  lemma Put<T>(buf: seq<T>, head: nat, tail: nat, x: T)
    requires head < |buf| && tail < |buf| && |Contents(buf, head, tail)| < |buf| - 1
    ensures Contents(buf[head := x], Next(head, |buf|), tail) == Contents(buf, head, tail) + [x]
  {
    var buf', head' := buf[head := x], Next(head, |buf|);
    if tail <= head {
      if head' == 0 {
        assert buf'[tail..] == buf[tail..head] + [x];
        assert buf'[..0] == [];
      } else {
        assert buf'[tail..head'] == buf[tail..head] + [x];
      }
    } else {
      assert buf'[tail..] == buf[tail..];
      assert buf'[..head'] == buf[..head] + [x];
    }
  }

  /** and reading at the tail removes the oldest. */
  lemma Take<T>(buf: seq<T>, head: nat, tail: nat)
    requires head < |buf| && tail < |buf| && head != tail
    ensures Contents(buf, head, tail) == [buf[tail]] + Contents(buf, head, Next(tail, |buf|))
  {
    if tail < head {
      assert buf[tail..head] == [buf[tail]] + buf[tail + 1..head];
    } else if tail + 1 < |buf| {
      assert buf[tail..] == [buf[tail]] + buf[tail + 1..];
    } else {
      assert buf[tail..] == [buf[tail]];
    }
  }

  /** Writing over a full ring, the overtaken read index makes it look empty. */
  lemma Overrun<T>(buf: seq<T>, head: nat, tail: nat, x: T)
    requires head < |buf| && tail < |buf| && |Contents(buf, head, tail)| == |buf| - 1
    ensures Next(head, |buf|) == tail
    ensures Contents(buf[head := x], Next(head, |buf|), tail) == []
  {
  }
}
