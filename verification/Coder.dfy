/** The frame coder over the buffer: TinyPBCoder::encode and TinyPBCoder::decode. */
module Coders {
  import opened Bytes
  import opened TcpBuffers
  import opened TinyPBs

  // ---------------------------------------------------------------- encode

  /** Messages whose frames can be written. */
  ghost predicate AllFit(ms: seq<TinyPB>) {
    forall i :: 0 <= i < |ms| ==> Fits(WithId(ms[i]))
  }

  /** The frames of a list of messages, one behind the other. */
  ghost function Frames(ms: seq<TinyPB>): seq<byte>
    requires AllFit(ms)
  {
    if ms == [] then [] else Frame(WithId(ms[0])) + Frames(ms[1..])
  }

  lemma {:induction false} FramesConcat(a: seq<TinyPB>, b: seq<TinyPB>)
    requires AllFit(a) && AllFit(b)
    ensures AllFit(a + b) && Frames(a + b) == Frames(a) + Frames(b)
  {
    hide Frame;
    if a == [] {
      assert a + b == b;
    } else {
      FramesConcat(a[1..], b);
      assert (a + b)[1..] == a[1..] + b;
      assert Frames(a + b) == Frame(WithId(a[0])) + (Frames(a[1..]) + Frames(b));
    }
  }

  ghost function EncodeAll(b: Buf, ms: seq<TinyPB>): (b': Buf)
    requires b.Valid() && AllFit(ms)
    ensures b'.Valid()
    decreases |ms|
  {
    if ms == [] then b
    else
      var before := EncodeAll(b, ms[..|ms| - 1]);
      var f := Frame(WithId(ms[|ms| - 1]));
      WriteContents(before, f);
      Write(before, f)
  }

  lemma {:induction false} EncodeContents(b: Buf, ms: seq<TinyPB>)
    requires b.Valid() && AllFit(ms)
    ensures EncodeAll(b, ms).Contents() == b.Contents() + Frames(ms)
    ensures b.ZeroTail() ==> EncodeAll(b, ms).ZeroTail()
    decreases |ms|
  {
    hide Frame, Write, Fill, Resize;
    if ms != [] {
      var init, last := ms[..|ms| - 1], ms[|ms| - 1];
      EncodeContents(b, init);
      WriteContents(EncodeAll(b, init), Frame(WithId(last)));
      FramesConcat(init, [last]);
      assert ms == init + [last];
      assert Frames([last]) == Frame(WithId(last)) + [];
    }
  }

  method Encode(messages: seq<TinyPB>, outBuffer: TcpBuffer) returns (messages': seq<TinyPB>)
    requires outBuffer.Valid() && AllFit(messages)
    modifies outBuffer, outBuffer.buffer
    ensures outBuffer.Valid() && (outBuffer.buffer == old(outBuffer.buffer) || fresh(outBuffer.buffer))
    ensures outBuffer.State() == EncodeAll(old(outBuffer.State()), messages)
    ensures |messages'| == |messages|
    ensures forall i :: 0 <= i < |messages| ==>
              messages'[i] == Received(WithId(messages[i])).(checkSum := messages[i].checkSum)
    ensures forall i :: 0 <= i < |messages| ==> AsSent(messages[i], messages'[i])
  {
    hide Frame, Write, AsSent;
    messages' := messages;
    for i := 0 to |messages|
      invariant outBuffer.Valid() && (outBuffer.buffer == old(outBuffer.buffer) || fresh(outBuffer.buffer))
      invariant outBuffer.State() == EncodeAll(old(outBuffer.State()), messages[..i])
      invariant |messages'| == |messages| && messages'[i..] == messages[i..]
      invariant forall k :: 0 <= k < i ==>
                  messages'[k] == Received(WithId(messages[k])).(checkSum := messages[k].checkSum)
                  && AsSent(messages[k], messages'[k])
    {
      var buf, len, m := EncodeTinyPB(messages[i]);
      messages' := messages'[i := m];
      if len != 0 {
        outBuffer.WriteToBuffer(buf[..]);
      }
      assert messages[..i + 1][..i] == messages[..i];
    }
    assert messages[..|messages|] == messages;
  }

  // ---------------------------------------------------------------- decode

  /** Outside: the source reads outside the storage, or its int index overflows. */
  datatype ScanResult = NoFrame | Found(start: nat, end: nat, pkLen: int32) | Outside

  /** The scan for a start byte whose announced length ends on an end byte. The four length bytes are
      read as soon as one byte follows the start byte, so they may come from behind the write index. */
  function Scan(s: seq<byte>, i: nat, w: nat): (r: ScanResult)
    requires w <= |s|
    ensures r.Found? ==> i <= r.start < w && r.end == r.start + r.pkLen - 1 && r.end < w
    ensures r.Found? ==> s[r.start] == PB_START && s[r.end] == PB_END
    decreases w - i
  {
    if i >= w then NoFrame
    else if s[i] == PB_START && i + 1 < w then
      if i + 4 >= |s| then Outside
      else
        var pkLen := Int32At(s, i + 1);
        var j := i + pkLen - 1;
        if i + pkLen > INT32_MAX then Outside
        else if j >= w then Scan(s, i + 1, w)
        else if j < 0 then Outside
        else if s[j] == PB_END then Found(i, j, pkLen)
        else Scan(s, i + 1, w)
    else Scan(s, i + 1, w)
  }

  /** How a call of decode ends. Drained: it returns. NoProgress: it found a frame, but the move of the
      read index changed nothing, and the source keeps going round. Rewound: the frame has no positive
      length, and the move put the read index back; the source goes on from there. Undefined: the source
      left the storage or one of its local arrays, or overflowed an int. */
  datatype Status = Drained | NoProgress | Rewound | Undefined

  datatype Decoding = Decoding(status: Status, messages: seq<TinyPB>, buf: Buf)

  ghost function Decode(b: Buf): (d: Decoding)
    requires b.Valid()
    ensures d.buf.Valid() && d.buf.w - d.buf.r <= b.w - b.r
    decreases b.w - b.r
  {
    match Scan(b.store, b.r, b.w)
    case NoFrame => Decoding(Drained, [], b)
    case Outside => Decoding(Status.Undefined, [], b)
    case Found(start, end, pkLen) =>
      if pkLen <= 0 || !MoveAccepted(b.r, pkLen, |b.store|) then Decoding(Stuck(b, pkLen), [], b)
      else
        MoveReadContents(b, pkLen);
        var b1 := MoveRead(b, pkLen);
        match ParseFields(b.store, start, end, pkLen)
        case Undefined => Decoding(Status.Undefined, [], b1)
        case Dropped => Decode(b1)
        case Parsed(m) => After([m], Decode(b1))
  }

  /** How a round ends that does not get past its frame. */
  function Stuck(b: Buf, pkLen: int): Status {
    if 0 <= b.r + pkLen < |b.store| && (pkLen < 0 || b.r >= |b.store| / 3) then Rewound else NoProgress
  }

  /** A round leaves the buffer to the next one as it found it exactly if that is NoProgress; so then the
      next round is the same again. */
  lemma NoProgressIffUnchanged(b: Buf, start: nat, end: nat, pkLen: int32)
    requires b.Valid() && Scan(b.store, b.r, b.w) == Found(start, end, pkLen)
    requires pkLen <= 0 || b.r + pkLen >= |b.store|
    ensures pkLen <= b.w - b.r && Decode(b).status == Stuck(b, pkLen)
    ensures Decode(b).status == NoProgress <==> MoveRead(b, pkLen) == b
  {
    hide ParseFields, Scan;
    ScanReads(b.store, b.r, b.w);
  }

  /** A scan that finds a frame has read its length from inside the storage. */
  lemma {:induction false} ScanReads(s: seq<byte>, i: nat, w: nat)
    requires w <= |s|
    ensures Scan(s, i, w).Found? ==> |s| > 4
    decreases w - i
  {
    hide Int32At;
    if i < w { ScanReads(s, i + 1, w); }
  }

  /** How many rounds the loop of decode makes. */
  ghost function Rounds(b: Buf): (n: nat)
    requires b.Valid()
    decreases b.w - b.r
  {
    match Scan(b.store, b.r, b.w)
    case Found(start, end, pkLen) =>
      if pkLen <= 0 || !MoveAccepted(b.r, pkLen, |b.store|) then 1
      else if ParseFields(b.store, start, end, pkLen) == Parse.Undefined then 1
      else
        MoveReadContents(b, pkLen);
        1 + Rounds(MoveRead(b, pkLen))
    case _ => 1
  }

  /** The decoding that had already delivered `ms` before it went on with `d`. */
  ghost function After(ms: seq<TinyPB>, d: Decoding): Decoding { d.(messages := ms + d.messages) }

  lemma AfterEnd(ms: seq<TinyPB>, status: Status, b: Buf)
    ensures After(ms, Decoding(status, [], b)) == Decoding(status, ms, b)
  {
    assert ms + [] == ms;
  }

  lemma AfterAfter(ms: seq<TinyPB>, ms': seq<TinyPB>, d: Decoding)
    ensures After(ms, After(ms', d)) == After(ms + ms', d)
    ensures After([], d) == d
  {
    assert ms + (ms' + d.messages) == (ms + ms') + d.messages;
    assert [] + d.messages == d.messages;
  }

  /** The inner loop of decode, over the snapshot it takes of the storage. */
  method FindFrame(temp: seq<byte>, readIndex: nat, writeIndex: nat) returns (result: ScanResult)
    requires readIndex <= writeIndex <= |temp|
    ensures result == Scan(temp, readIndex, writeIndex)
  {
    var i := readIndex;
    while i < writeIndex
      invariant readIndex <= i <= writeIndex
      invariant Scan(temp, readIndex, writeIndex) == Scan(temp, i, writeIndex)
    {
      if temp[i] == PB_START && i + 1 < writeIndex {
        if i + 4 >= |temp| {
          return Outside;
        }
        var pkLen := Int32At(temp, i + 1);
        if i + pkLen > INT32_MAX {
          return Outside;
        }
        var j := i + pkLen - 1;
        if j < writeIndex {
          if j < 0 {
            return Outside;
          }
          if temp[j] == PB_END {
            return Found(i, j, pkLen);
          }
        }
      }
      i := i + 1;
    }
    return NoFrame;
  }

  /** What a round that gets past its frame does. */
  lemma DecodeRound(b: Buf, start: nat, end: nat, pkLen: int32)
    requires b.Valid() && Scan(b.store, b.r, b.w) == Found(start, end, pkLen)
    requires 0 < pkLen && b.r + pkLen < |b.store|
    ensures var b1 := MoveRead(b, pkLen);
            && b1.Valid() && b1.w - b1.r < b.w - b.r
            && Decode(b) == match ParseFields(b.store, start, end, pkLen)
                            case Undefined => Decoding(Status.Undefined, [], b1)
                            case Dropped => Decode(b1)
                            case Parsed(m) => After([m], Decode(b1))
    ensures Rounds(b) == if ParseFields(b.store, start, end, pkLen) == Parse.Undefined then 1
                         else 1 + Rounds(MoveRead(b, pkLen))
  {
    hide ParseFields, MoveRead, After, Scan;
    MoveReadContents(b, pkLen);
    assert |MoveRead(b, pkLen).Contents()| == |b.Contents()| - pkLen;
  }

  lemma DecodeLastRound(b: Buf)
    requires b.Valid()
    ensures var found := Scan(b.store, b.r, b.w);
            && (found.NoFrame? ==> Decode(b) == Decoding(Drained, [], b) && Rounds(b) == 1)
            && (found.Outside? ==> Decode(b) == Decoding(Status.Undefined, [], b) && Rounds(b) == 1)
            && (found.Found? && (found.pkLen <= 0 || b.r + found.pkLen >= |b.store|) ==>
                  Decode(b) == Decoding(Stuck(b, found.pkLen), [], b) && Rounds(b) == 1)
  {
  }

  /** Rounds of: find a frame, move past it, take its fields apart. Where the source goes on in the
      cases other than Drained, the method stops there and says which it was. */
  method DecodeBuffer(buffer: TcpBuffer) returns (status: Status, outMessages: seq<TinyPB>, ghost rounds: nat)
    requires buffer.Valid()
    modifies buffer
    ensures buffer.Valid() && (buffer.buffer == old(buffer.buffer) || fresh(buffer.buffer))
    ensures Decoding(status, outMessages, buffer.State()) == Decode(old(buffer.State()))
    ensures rounds == Rounds(old(buffer.State()))
  {
    hide ParseFields, MoveRead, Scan, After, Decode, Rounds;
    outMessages, rounds := [], 0;
    ghost var all := Decode(buffer.State());
    AfterAfter([], [], all);
    while true
      invariant buffer.Valid() && (buffer.buffer == old(buffer.buffer) || fresh(buffer.buffer))
      invariant all == After(outMessages, Decode(buffer.State()))
      invariant rounds + Rounds(buffer.State()) == Rounds(old(buffer.State()))
      decreases buffer.writeIndex - buffer.readIndex
    {
      ghost var b := buffer.State();
      rounds := rounds + 1;
      DecodeLastRound(b);
      var temp := buffer.buffer[..];
      var found := FindFrame(temp, buffer.readIndex, buffer.writeIndex);
      if found.Outside? {
        AfterEnd(outMessages, Status.Undefined, b);
        return Status.Undefined, outMessages, rounds;
      }
      if found.NoFrame? {
        AfterEnd(outMessages, Drained, b);
        return Drained, outMessages, rounds;
      }
      var size := found.end - found.start + 1;
      if size <= 0 || buffer.readIndex + size >= buffer.buffer.Length {
        AfterEnd(outMessages, Stuck(b, found.pkLen), b);
        var moves := 0 <= buffer.readIndex + size < buffer.buffer.Length;
        if moves && (size < 0 || buffer.readIndex >= buffer.buffer.Length / 3) {
          return Rewound, outMessages, rounds;
        }
        return NoProgress, outMessages, rounds;
      }
      DecodeRound(b, found.start, found.end, found.pkLen);
      buffer.MoveReadIndex(size);
      match ParseFields(temp, found.start, found.end, found.pkLen) {
        case Undefined =>
          AfterEnd(outMessages, Status.Undefined, buffer.State());
          return Status.Undefined, outMessages, rounds;
        case Dropped =>
        case Parsed(message) =>
          AfterAfter(outMessages, [message], Decode(buffer.State()));
          outMessages := outMessages + [message];
      }
    }
  }
}
