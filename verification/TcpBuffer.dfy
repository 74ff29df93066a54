/** The growing, self-compacting byte buffer (rocket/net/tcp/tcp_buffer.cpp). */
module TcpBuffers {
  import opened Bytes

  /** The fields of a buffer as a value: the storage and the two indices. */
  datatype Buf = Buf(store: seq<byte>, r: nat, w: nat) {

    ghost predicate Valid() { r <= w <= |store| }

    /** The unread bytes. */
    ghost function Contents(): (s: seq<byte>)
      requires Valid()
    {
      store[r..w]
    }

    ghost function Slack(): int { |store| - w }

    /** No byte was left behind the write index. */
    ghost predicate ZeroTail()
      requires Valid()
    {
      store[w..] == Zeros(|store| - w)
    }
  }

  // ---------------------------------------------------------------- what each operation does

  ghost function Resize(b: Buf, newSize: nat): Buf
    requires b.Valid()
  {
    var count := if newSize < b.w - b.r then newSize else b.w - b.r;
    Buf(b.Contents()[..count] + Zeros(newSize - count), 0, count)
  }

  ghost function Adjust(b: Buf): Buf
    requires b.Valid()
  {
    if b.r < |b.store| / 3 then b
    else Buf(b.Contents() + Zeros(|b.store| - (b.w - b.r)), 0, b.w - b.r)
  }

  ghost function Write(b: Buf, bytes: seq<byte>): Buf
    requires b.Valid()
  {
    var b1 := if |bytes| > |b.store| - b.w then Resize(b, 3 * (b.w + |bytes|) / 2) else b;
    Fill(b1, bytes).(w := b1.w + |bytes|)
  }

  /** Raw bytes stored at the write index, as the read system call does it. */
  ghost function Fill(b: Buf, bytes: seq<byte>): Buf
    requires b.Valid() && |bytes| <= |b.store| - b.w
  {
    b.(store := b.store[..b.w] + bytes + b.store[b.w + |bytes|..])
  }

  ghost function ReadCount(b: Buf, size: nat): nat
    requires b.Valid()
  {
    if b.w - b.r > size then size else b.w - b.r
  }

  ghost function Read(b: Buf, size: nat): Buf
    requires b.Valid()
  {
    if b.w == b.r then b else Adjust(b.(r := b.r + ReadCount(b, size)))
  }

  ghost predicate MoveAccepted(index: nat, size: int, capacity: nat) { 0 <= index + size < capacity }

  ghost function MoveRead(b: Buf, size: int): Buf
    requires b.Valid() && size <= b.w - b.r
  {
    if MoveAccepted(b.r, size, |b.store|) then Adjust(b.(r := b.r + size)) else b
  }

  ghost function MoveWrite(b: Buf, size: int): Buf
    requires b.Valid()
  {
    if MoveAccepted(b.w, size, |b.store|) then b.(w := b.w + size) else b
  }

  // ---------------------------------------------------------------- a byte queue

  lemma ResizeContents(b: Buf, newSize: nat)
    requires b.Valid()
    ensures var b' := Resize(b, newSize);
            && b'.Valid() && b'.ZeroTail() && |b'.store| == newSize
            && b'.Contents() == b.Contents()[..b'.w]
            && (newSize >= b.w - b.r ==> b'.Contents() == b.Contents())
  {
  }

  lemma ResizeSize(b: Buf, newSize: nat)
    requires b.Valid()
    ensures |Resize(b, newSize).store| == newSize && Resize(b, newSize).w <= b.w
  {
  }

  /** Compaction changes neither the unread bytes nor the capacity, and happens from a third on. */
  lemma AdjustContents(b: Buf)
    requires b.Valid()
    ensures var b' := Adjust(b);
            && b'.Valid() && |b'.store| == |b.store|
            && b'.Contents() == b.Contents()
            && (b.ZeroTail() ==> b'.ZeroTail())
            && b'.Slack() >= b.Slack()
            && (b'.r == 0 || b'.r < |b'.store| / 3)
            && (b.r < |b.store| / 3 ==> b' == b)
  {
  }

  /** A write appends, whether or not it has to grow the storage first. */
  lemma WriteContents(b: Buf, bytes: seq<byte>)
    requires b.Valid()
    ensures var b' := Write(b, bytes);
            && b'.Valid()
            && b'.Contents() == b.Contents() + bytes
            && (b.ZeroTail() ==> b'.ZeroTail())
  {
    if |bytes| > |b.store| - b.w {
      ResizeContents(b, 3 * (b.w + |bytes|) / 2);
      FillContents(Resize(b, 3 * (b.w + |bytes|) / 2), bytes);
    } else {
      FillContents(b, bytes);
    }
  }

  /** A write that has to grow the storage makes it half as large again as the bytes then in front of the
      write index, which leaves a cell free unless that is a single byte. */
  lemma GrowthLeavesRoom(b: Buf, bytes: seq<byte>)
    requires b.Valid()
    ensures var b' := Write(b, bytes);
            if |bytes| <= b.Slack() then |b'.store| == |b.store| && b'.Slack() == b.Slack() - |bytes|
            else
              && |b'.store| == 3 * (b.w + |bytes|) / 2
              && b'.Slack() >= (b.w + |bytes|) / 2
              && (b'.Slack() > 0 <==> b.w + |bytes| > 1)
  {
    if |bytes| > b.Slack() {
      ResizeContents(b, 3 * (b.w + |bytes|) / 2);
    }
  }

  lemma FillContents(b: Buf, bytes: seq<byte>)
    requires b.Valid() && |bytes| <= |b.store| - b.w
    ensures var b' := Fill(b, bytes).(w := b.w + |bytes|);
            && b'.Valid() && |b'.store| == |b.store|
            && b'.Contents() == b.Contents() + bytes
            && (b.ZeroTail() ==> b'.ZeroTail())
  {
    var b' := Fill(b, bytes).(w := b.w + |bytes|);
    assert b'.Contents() == b.Contents() + bytes;
    assert b'.store[b'.w..] == b.store[b.w..][|bytes|..];
  }

  /** A move drops exactly the front, unless it would end on or behind the last storage cell, in which
      case nothing changes. */
  lemma MoveReadContents(b: Buf, size: nat)
    requires b.Valid() && size <= b.w - b.r
    ensures var b' := MoveRead(b, size);
            && b'.Valid() && |b'.store| == |b.store|
            && (b.r + size < |b.store| ==>
                  && b'.Contents() == b.Contents()[size..]
                  && (b.ZeroTail() ==> b'.ZeroTail())
                  && b'.Slack() >= b.Slack())
            && (b.r + size >= |b.store| ==> b' == b)
  {
    if b.r + size < |b.store| {
      var b1 := b.(r := b.r + size);
      assert b1.Contents() == b.Contents()[size..];
      AdjustContents(b1);
    }
  }

  /** A read takes `size` bytes off the front, or all there are. */
  lemma ReadContents(b: Buf, size: nat)
    requires b.Valid()
    ensures var b' := Read(b, size);
            && b'.Valid() && |b'.store| == |b.store|
            && b'.Contents() == b.Contents()[ReadCount(b, size)..]
            && ReadCount(b, size) == (if size < |b.Contents()| then size else |b.Contents()|)
  {
    if b.w != b.r {
      var b1 := b.(r := b.r + ReadCount(b, size));
      assert b1.Contents() == b.Contents()[ReadCount(b, size)..];
      AdjustContents(b1);
    }
  }

  // ---------------------------------------------------------------- whole runs

  datatype Op = WriteOp(bytes: seq<byte>) | ReadOp(size: nat) | MoveOp(count: nat)

  ghost predicate Allowed(b: Buf, op: Op)
    requires b.Valid()
  {
    op.MoveOp? ==> op.count <= b.w - b.r
  }

  ghost function Apply(b: Buf, op: Op): (b': Buf)
    requires b.Valid() && Allowed(b, op)
    ensures b'.Valid()
  {
    match op
    case WriteOp(bytes) => WriteContents(b, bytes); Write(b, bytes)
    case ReadOp(size) => ReadContents(b, size); Read(b, size)
    case MoveOp(count) => MoveReadContents(b, count); MoveRead(b, count)
  }

  /** The bytes an operation takes away from the front. */
  ghost function Taken(b: Buf, op: Op): seq<byte>
    requires b.Valid() && Allowed(b, op)
  {
    match op
    case WriteOp(bytes) => []
    case ReadOp(size) => b.Contents()[..ReadCount(b, size)]
    case MoveOp(count) => if b.r + count < |b.store| then b.Contents()[..count] else []
  }

  ghost predicate RunAllowed(b: Buf, ops: seq<Op>)
    requires b.Valid()
    decreases |ops|
  {
    ops == [] || (Allowed(b, ops[0]) && RunAllowed(Apply(b, ops[0]), ops[1..]))
  }

  ghost function Run(b: Buf, ops: seq<Op>): (b': Buf)
    requires b.Valid() && RunAllowed(b, ops)
    ensures b'.Valid()
    decreases |ops|
  {
    if ops == [] then b else Run(Apply(b, ops[0]), ops[1..])
  }

  ghost function AllTaken(b: Buf, ops: seq<Op>): seq<byte>
    requires b.Valid() && RunAllowed(b, ops)
    decreases |ops|
  {
    if ops == [] then [] else Taken(b, ops[0]) + AllTaken(Apply(b, ops[0]), ops[1..])
  }

  ghost function Put(op: Op): seq<byte> { if op.WriteOp? then op.bytes else [] }

  ghost function AllWritten(ops: seq<Op>): seq<byte> {
    if ops == [] then [] else Put(ops[0]) + AllWritten(ops[1..])
  }

  /** First in, first out, over every run: what was there and what was written is what was taken,
      followed by what is still unread. */
  lemma {:induction false} RunIsFifo(b: Buf, ops: seq<Op>)
    requires b.Valid() && RunAllowed(b, ops)
    ensures b.Contents() + AllWritten(ops) == AllTaken(b, ops) + Run(b, ops).Contents()
    decreases |ops|
  {
    if ops != [] {
      var b', rest := Apply(b, ops[0]), ops[1..];
      RunIsFifo(b', rest);
      ApplyConserves(b, ops[0]);
      Regroup(b.Contents(), Put(ops[0]), AllWritten(rest), Taken(b, ops[0]), b'.Contents(),
              AllTaken(b', rest), Run(b', rest).Contents());
    }
  }

  lemma Regroup(a: seq<byte>, b: seq<byte>, c: seq<byte>, x: seq<byte>, y: seq<byte>, z: seq<byte>, v: seq<byte>)
    requires a + b == x + y && y + c == z + v
    ensures a + (b + c) == (x + z) + v
  {
    calc {
      a + (b + c);
      (a + b) + c;
      x + (y + c);
      (x + z) + v;
    }
  }

  /** An operation takes off the front what it is asked for, as far as it is there, and appends what is
      written. */
  lemma ApplyConserves(b: Buf, op: Op)
    requires b.Valid() && Allowed(b, op)
    ensures b.Contents() + Put(op) == Taken(b, op) + Apply(b, op).Contents()
    ensures op.WriteOp? ==> Taken(b, op) == []
    ensures op.ReadOp? ==> |Taken(b, op)| == (if op.size < |b.Contents()| then op.size else |b.Contents()|)
    ensures op.MoveOp? ==> |Taken(b, op)| == (if b.r + op.count < |b.store| then op.count else 0)
  {
    var c := b.Contents();
    match op {
      case WriteOp(bytes) =>
        WriteContents(b, bytes);
        assert c + bytes == [] + (c + bytes);
      case ReadOp(size) =>
        ReadContents(b, size);
        SplitAt(c, ReadCount(b, size));
      case MoveOp(count) =>
        MoveReadContents(b, count);
        SplitAt(c, if b.r + count < |b.store| then count else 0);
    }
  }

  lemma SplitAt(c: seq<byte>, n: nat)
    requires n <= |c|
    ensures c + [] == c[..n] + c[n..]
  {
  }

  /** The largest number of unread and incoming bytes together that any write of the run meets. */
  ghost function PeakDemand(b: Buf, ops: seq<Op>): nat
    requires b.Valid() && RunAllowed(b, ops)
    decreases |ops|
  {
    if ops == [] then 0
    else
      var here := if ops[0].WriteOp? then b.w - b.r + |ops[0].bytes| else 0;
      var later := PeakDemand(Apply(b, ops[0]), ops[1..]);
      if here > later then here else later
  }

  /** The read index never settles beyond a third of the storage. */
  ghost predicate Settled(b: Buf) { b.r == 0 || b.r < |b.store| / 3 }

  /** The storage stays within 9/4 of the peak demand, or at what it was: dead bytes in front of the
      read index can never drive growth on their own. */
  lemma {:induction false} CapacityBound(b: Buf, ops: seq<Op>)
    requires b.Valid() && Settled(b) && RunAllowed(b, ops)
    ensures Settled(Run(b, ops))
    ensures |Run(b, ops).store| == |b.store| || 4 * |Run(b, ops).store| <= 9 * PeakDemand(b, ops)
    decreases |ops|
  {
    hide Write, ReadCount;
    if ops != [] {
      var op, b' := ops[0], Apply(b, ops[0]);
      match op {
        case WriteOp(bytes) => WriteCapacity(b, bytes);
        case ReadOp(size) => if b.w != b.r { AdjustContents(b.(r := b.r + ReadCount(b, size))); }
        case MoveOp(count) =>
          if b.r + count < |b.store| { AdjustContents(b.(r := b.r + count)); }
      }
      CapacityBound(b', ops[1..]);
    }
  }

  lemma WriteCapacity(b: Buf, bytes: seq<byte>)
    requires b.Valid() && Settled(b)
    ensures var b' := Write(b, bytes);
            && Settled(b')
            && (|b'.store| == |b.store| || 4 * |b'.store| <= 9 * (b.w - b.r + |bytes|))
  {
    if |bytes| > |b.store| - b.w {
      var demand := b.w - b.r + |bytes|;
      assert 2 * b.r <= demand;
      ResizeContents(b, 3 * (b.w + |bytes|) / 2);
    }
  }

  // ---------------------------------------------------------------- the class

  class TcpBuffer {
    var buffer: array<byte>
    var readIndex: nat
    var writeIndex: nat

    ghost predicate Valid()
      reads this
    {
      readIndex <= writeIndex <= buffer.Length
    }

    ghost function State(): Buf
      reads this, buffer
    {
      Buf(buffer[..], readIndex, writeIndex)
    }

    constructor (size: nat)
      ensures Valid() && fresh(buffer)
      ensures State() == Buf(Zeros(size), 0, 0)
    {
      buffer := new byte[size](_ => 0);
      readIndex, writeIndex := 0, 0;
      new;
      assert buffer[..] == Zeros(size);
    }

    method ReadAble() returns (n: nat)
      requires Valid()
      ensures n == |State().Contents()|
    {
      n := writeIndex - readIndex;
    }

    method WriteAble() returns (n: nat)
      requires Valid()
      ensures n == State().Slack()
    {
      n := buffer.Length - writeIndex;
    }

    method ResizeBuffer(newSize: nat)
      requires Valid()
      modifies this
      ensures Valid() && fresh(buffer)
      ensures State() == Resize(old(State()), newSize)
    {
      var count := if newSize < writeIndex - readIndex then newSize else writeIndex - readIndex;
      var temp := new byte[newSize](_ => 0);
      forall i | 0 <= i < count { temp[i] := buffer[readIndex + i]; }
      buffer := temp;
      readIndex := 0;
      writeIndex := readIndex + count;
      assert buffer[..] == old(buffer[readIndex..writeIndex])[..count] + Zeros(newSize - count);
    }

    method AdjustBuffer()
      requires Valid()
      modifies this
      ensures Valid() && (buffer == old(buffer) || fresh(buffer))
      ensures State() == Adjust(old(State()))
    {
      if readIndex < buffer.Length / 3 {
        return;
      }
      var temp := new byte[buffer.Length](_ => 0);
      var count := writeIndex - readIndex;
      forall i | 0 <= i < count { temp[i] := buffer[readIndex + i]; }
      buffer := temp;
      readIndex := 0;
      writeIndex := readIndex + count;
      assert buffer[..] == old(buffer[readIndex..writeIndex]) + Zeros(buffer.Length - count);
    }

    method WriteToBuffer(buf: seq<byte>)
      requires Valid()
      modifies this, buffer
      ensures Valid() && (buffer == old(buffer) || fresh(buffer))
      ensures State() == Write(old(State()), buf)
    {
      hide Resize, Fill;
      ghost var b := State();
      if |buf| > buffer.Length - writeIndex {
        var newSize := 3 * (writeIndex + |buf|) / 2;
        ResizeBuffer(newSize);
        ResizeSize(b, newSize);
      }
      StoreBytes(buf);
      writeIndex := writeIndex + |buf|;
    }

    /** The memcpy of WriteToBuffer, and what the read system call does to the storage. */
    method StoreBytes(buf: seq<byte>)
      requires Valid() && |buf| <= buffer.Length - writeIndex
      modifies buffer
      ensures State() == Fill(old(State()), buf)
    {
      forall i | 0 <= i < |buf| { buffer[writeIndex + i] := buf[i]; }
      assert buffer[..] == old(buffer[..writeIndex]) + buf + old(buffer[writeIndex + |buf|..]);
    }

    /** `re` is the vector the caller passes in: it is left alone when there is nothing to read. */
    method ReadFromBuffer(re: seq<byte>, size: nat) returns (re': seq<byte>)
      requires Valid()
      modifies this
      ensures Valid() && (buffer == old(buffer) || fresh(buffer))
      ensures State() == Read(old(State()), size)
      ensures re' == if old(State()).Contents() == [] then re
                     else old(State()).Contents()[..ReadCount(old(State()), size)]
    {
      assert |State().Contents()| == writeIndex - readIndex;
      if writeIndex - readIndex == 0 {
        return re;
      }
      var readSize := if writeIndex - readIndex > size then size else writeIndex - readIndex;
      re' := buffer[readIndex..readIndex + readSize];
      assert re' == State().Contents()[..readSize];
      readIndex := readIndex + readSize;
      AdjustBuffer();
    }

    method MoveReadIndex(size: int)
      requires Valid() && size <= writeIndex - readIndex
      modifies this
      ensures Valid() && (buffer == old(buffer) || fresh(buffer))
      ensures State() == MoveRead(old(State()), size)
    {
      var j := readIndex + size;
      if j < 0 || j >= buffer.Length {
        return;
      }
      readIndex := j;
      AdjustBuffer();
    }

    method MoveWriteIndex(size: int)
      requires Valid() && -size <= writeIndex - readIndex
      modifies this
      ensures Valid() && buffer == old(buffer)
      ensures State() == MoveWrite(old(State()), size)
    {
      var j := writeIndex + size;
      if j < 0 || j >= buffer.Length {
        return;
      }
      writeIndex := j;
    }
  }
}
