/** What decode makes of a stream of encoded frames, however the stream was cut. */
module Streams {
  import opened Bytes
  import opened TcpBuffers
  import opened TinyPBs
  import opened Coders

  /** A message that survives the trip: its frame can be announced and its texts fit the receiver. */
  ghost predicate Sendable(m: TinyPB) { Fits(WithId(m)) && TextsFit(m) }

  ghost predicate AllSendable(ms: seq<TinyPB>) {
    forall i :: 0 <= i < |ms| ==> Sendable(ms[i])
  }

  /** What the receiver should get. */
  ghost function Delivered(ms: seq<TinyPB>): (ds: seq<TinyPB>)
    requires AllSendable(ms)
    ensures |ds| == |ms|
    ensures forall i :: 0 <= i < |ms| ==> ds[i] == Received(WithId(ms[i]))
  {
    if ms == [] then [] else [Received(WithId(ms[0]))] + Delivered(ms[1..])
  }

  /** Message by message and field by field what was sent. */
  ghost predicate AllAsSent(ms: seq<TinyPB>, ds: seq<TinyPB>) {
    |ds| == |ms| && forall i :: 0 <= i < |ms| ==> AsSent(ms[i], ds[i])
  }

  lemma DeliveredAsSent(ms: seq<TinyPB>)
    requires AllSendable(ms)
    ensures AllAsSent(ms, Delivered(ms))
  {
    hide AsSent, Received, WithId, Fits, TextsFit;
    forall i | 0 <= i < |ms| ensures AsSent(ms[i], Delivered(ms)[i]) {
      assert Sendable(ms[i]);
      ReceivedAsSent(ms[i]);
    }
  }

  /** A receive buffer as the connection keeps it: room behind the unread bytes, and nothing in it. The
      source indexes the storage with an int. */
  ghost predicate Ready(b: Buf) { b.Valid() && b.ZeroTail() && b.Slack() > 0 && |b.store| <= INT32_MAX }

  // ---------------------------------------------------------------- an incomplete tail

  /** Position `i` of the storage does not look like the start of a frame that has already arrived. The
      announced length is read from the next four cells, whatever is in them. */
  predicate QuietAt(b: Buf, i: nat)
    requires i < b.w <= |b.store|
  {
    b.store[i] == PB_START && i + 1 < b.w ==>
      && i + 4 < |b.store|
      && var pkLen := Int32At(b.store, i + 1);
         && i + pkLen <= INT32_MAX
         && (i + pkLen - 1 >= b.w || (0 <= i + pkLen - 1 && b.store[i + pkLen - 1] != PB_END))
  }

  ghost predicate Quiet(b: Buf)
    requires b.Valid()
  {
    forall i :: b.r <= i < b.w ==> QuietAt(b, i)
  }

  lemma {:induction false} ScanQuiet(b: Buf, i: nat)
    requires b.Valid() && b.r <= i <= b.w
    ensures Scan(b.store, i, b.w) == NoFrame <==> forall k :: i <= k < b.w ==> QuietAt(b, k)
    decreases b.w - i
  {
    hide Int32At;
    if i < b.w {
      ScanQuiet(b, i + 1);
      assert Scan(b.store, i, b.w) == NoFrame <==> QuietAt(b, i) && Scan(b.store, i + 1, b.w) == NoFrame;
    }
  }

  /** Exactly when decode leaves a buffer alone and returns, whatever is in the storage: when no unread
      position looks like a frame. */
  lemma {:induction false} UntouchedIffQuiet(b: Buf)
    requires b.Valid()
    ensures Decode(b) == Decoding(Drained, [], b) <==> Quiet(b)
    ensures Quiet(b) ==> Rounds(b) == 1
  {
    hide QuietAt, ParseFields, MoveRead;
    ScanQuiet(b, b.r);
    match Scan(b.store, b.r, b.w)
    case NoFrame =>
    case Outside =>
    case Found(start, end, pkLen) =>
      if 0 < pkLen && MoveAccepted(b.r, pkLen, |b.store|) {
        MoveReadContents(b, pkLen);
        assert |MoveRead(b, pkLen).Contents()| < |b.Contents()|;
      }
  }

  // ---------------------------------------------------------------- complete frames

  /** The read index stands at the front of the storage or behind an end byte. */
  ghost predicate BehindEnd(b: Buf)
    requires b.Valid()
  {
    b.r == 0 || b.store[b.r - 1] == PB_END
  }

  /** One round on a buffer that starts with a complete frame. */
  lemma DecodeFrame(b: Buf, m: TinyPB, rest: seq<byte>)
    requires b.Valid() && (b.Slack() > 0 || rest != []) && |b.store| <= INT32_MAX && Fits(m) && TextsFit(m)
    requires b.Contents() == Frame(m) + rest
    ensures var b1 := MoveRead(b, FrameLen(m));
            && b1.Valid() && b1.Contents() == rest && |b1.store| == |b.store|
            && b1.Slack() >= b.Slack() && (b.ZeroTail() ==> b1.ZeroTail())
            && Decode(b) == After([Received(m)], Decode(b1))
            && Rounds(b) == 1 + Rounds(b1)
  {
    hide Frame, ParseFields, Received, Int32At, MoveRead, After, At, TextsFit, Decode, Rounds;
    FrameAtFront(b, m, rest);
    FrameLayout(b.store, b.r, m);
    FieldsRoundTrip(b.store, b.r, m);
    assert Scan(b.store, b.r, b.w) == Found(b.r, b.r + FrameLen(m) - 1, FrameLen(m));
    DecodeRound(b, b.r, b.r + FrameLen(m) - 1, FrameLen(m));
    MoveReadContents(b, FrameLen(m));
    assert rest == b.Contents()[FrameLen(m)..];
  }

  lemma FrameAtFront(b: Buf, m: TinyPB, rest: seq<byte>)
    requires b.Valid() && Fits(m) && b.Contents() == Frame(m) + rest
    ensures At(b.store, b.r, Frame(m))
  {
    hide Frame;
    assert At(b.store, b.r, b.Contents());
    AtSplit(b.store, b.r, Frame(m), rest);
  }

  /** Taking a frame leaves the read index behind its end byte, or at the front. */
  lemma FrameLeavesEnd(b: Buf, m: TinyPB, rest: seq<byte>)
    requires b.Valid() && b.Slack() > 0 && Fits(m) && b.Contents() == Frame(m) + rest
    ensures MoveRead(b, FrameLen(m)).Valid() && BehindEnd(MoveRead(b, FrameLen(m)))
  {
    hide Frame, At, Int32At;
    FrameAtFront(b, m, rest);
    FrameLayout(b.store, b.r, m);
    MoveReadContents(b, FrameLen(m));
  }

  ghost function TotalLen(ms: seq<TinyPB>): nat {
    if ms == [] then 0 else FrameLen(WithId(ms[0])) + TotalLen(ms[1..])
  }

  /** The buffer when the frames of these messages have been taken off its front. */
  ghost function TakeFrames(b: Buf, ms: seq<TinyPB>): (b': Buf)
    requires b.Valid() && b.Slack() > 0 && TotalLen(ms) <= b.w - b.r
    ensures b'.Valid() && b'.w - b'.r == b.w - b.r - TotalLen(ms)
    decreases |ms|
  {
    if ms == [] then b
    else
      MoveReadCount(b, FrameLen(WithId(ms[0])));
      TakeFrames(MoveRead(b, FrameLen(WithId(ms[0]))), ms[1..])
  }

  lemma MoveReadCount(b: Buf, size: nat)
    requires b.Valid() && b.Slack() > 0 && size <= b.w - b.r
    ensures var b' := MoveRead(b, size); b'.Valid() && b'.Slack() > 0 && b'.w - b'.r == b.w - b.r - size
  {
    MoveReadContents(b, size);
    assert |MoveRead(b, size).Contents()| == |b.Contents()| - size;
  }

  lemma {:induction false} FramesLen(ms: seq<TinyPB>)
    requires AllSendable(ms)
    ensures |Frames(ms)| == TotalLen(ms) >= 26 * |ms|
  {
    hide Frame;
    if ms != [] { FramesLen(ms[1..]); }
  }

  /** Complete frames at the front, whatever follows: decode delivers their messages, in order, one round
      for each, and goes on with what is behind them. */
  lemma {:induction false} DecodeFrames(b: Buf, ms: seq<TinyPB>, tail: seq<byte>)
    requires Ready(b) && AllSendable(ms) && b.Contents() == Frames(ms) + tail
    ensures TotalLen(ms) <= b.w - b.r
    ensures var b' := TakeFrames(b, ms);
            && Ready(b') && b'.Contents() == tail && |b'.store| == |b.store| && b'.Slack() >= b.Slack()
            && Decode(b) == After(Delivered(ms), Decode(b')) && Rounds(b) == |ms| + Rounds(b')
            && (ms != [] || BehindEnd(b) ==> BehindEnd(b'))
    decreases |ms|
  {
    hide Frame, Decode, Received, MoveRead, Rounds, After, WithId, Fits, TextsFit;
    FramesLen(ms);
    if ms == [] {
      assert b.Contents() == tail;
      AfterAfter([], [], Decode(b));
    } else {
      assert Sendable(ms[0]);
      DefaultIdFits(ms[0]);
      var m, rest := WithId(ms[0]), Frames(ms[1..]) + tail;
      assert b.Contents() == Frame(m) + rest;
      DecodeFrame(b, m, rest);
      FrameLeavesEnd(b, m, rest);
      var b1 := MoveRead(b, FrameLen(m));
      DecodeFrames(b1, ms[1..], tail);
      AfterAfter([Received(m)], Delivered(ms[1..]), Decode(TakeFrames(b1, ms[1..])));
    }
  }

  /** So decode returns, having delivered exactly these messages and left exactly the tail, if and only if
      the tail is quiet where the frames before it leave it. */
  lemma DecodeStream(b: Buf, ms: seq<TinyPB>, tail: seq<byte>)
    requires Ready(b) && AllSendable(ms) && b.Contents() == Frames(ms) + tail
    ensures TotalLen(ms) <= b.w - b.r
    ensures var b' := TakeFrames(b, ms);
            && Ready(b') && b'.Contents() == tail && |b'.store| == |b.store|
            && (Decode(b) == Decoding(Drained, Delivered(ms), b') <==> Quiet(b'))
  {
    hide Frame, Frames, Decode, Rounds, Delivered, Quiet, BehindEnd, TotalLen, TakeFrames;
    DecodeFrames(b, ms, tail);
    var b' := TakeFrames(b, ms);
    UntouchedIffQuiet(b');
    AfterCancels(Delivered(ms), Decode(b'), Drained, b');
  }

  lemma AfterCancels(ms: seq<TinyPB>, d: Decoding, status: Status, b: Buf)
    ensures After(ms, d) == Decoding(status, ms, b) <==> d == Decoding(status, [], b)
  {
    if After(ms, d) == Decoding(status, ms, b) {
      assert |ms + d.messages| == |ms| + |d.messages|;
    }
    AfterEnd(ms, status, b);
  }

  /** The loop makes one round for each complete frame, which takes that frame's bytes off the unread
      ones, and one more in which it finds nothing. */
  lemma OneRoundPerFrame(b: Buf, ms: seq<TinyPB>, tail: seq<byte>)
    requires Ready(b) && AllSendable(ms) && b.Contents() == Frames(ms) + tail
    requires TotalLen(ms) <= b.w - b.r && Quiet(TakeFrames(b, ms))
    ensures Rounds(b) == |ms| + 1
    ensures |b.Contents()| == TotalLen(ms) + |Decode(b).buf.Contents()|
    ensures TotalLen(ms) >= 26 * |ms|
  {
    hide Frame, Frames, Decode, Rounds, Delivered, Quiet, BehindEnd, TotalLen, TakeFrames, After;
    FramesLen(ms);
    DecodeFrames(b, ms, tail);
    DecodeStream(b, ms, tail);
    UntouchedIffQuiet(TakeFrames(b, ms));
  }

  lemma NothingIsQuiet(b: Buf)
    requires b.Valid() && b.Contents() == []
    ensures Quiet(b)
  {
    assert |b.Contents()| == b.w - b.r;
  }

  /** The storage has a cell behind the unread bytes, or will have one when the last frame's turn comes,
      because taking the frames before it makes the buffer compact itself. */
  ghost predicate LastFrameFits(b: Buf, ms: seq<TinyPB>)
    requires AllSendable(ms)
  {
    b.Slack() > 0 || ms == [] || (|ms| > 1 && b.r + TotalLen(ms[..|ms| - 1]) >= |b.store| / 3)
  }

  /** What decode makes of complete frames and nothing else. */
  ghost predicate DecodesIffLastFits(b: Buf, ms: seq<TinyPB>)
    requires b.Valid() && AllSendable(ms)
  {
    var d := Decode(b);
    && (LastFrameFits(b, ms) <==> d.status == Drained)
    && (LastFrameFits(b, ms) ==> d.messages == Delivered(ms) && d.buf.Contents() == [])
    && (!LastFrameFits(b, ms) ==> d.status == NoProgress && d.messages == Delivered(ms[..|ms| - 1])
                                  && d.buf.Contents() == Frames(ms[|ms| - 1..]))
  }

  /** Exactly if the last frame fits, decode delivers every message and returns. Otherwise it delivers all
      but the last: that frame fills the storage to its end, the index move that would land there is
      refused, and decode goes round for ever. */
  lemma {:induction false} FramesDecodeIffLastFits(b: Buf, ms: seq<TinyPB>)
    requires b.Valid() && b.ZeroTail() && |b.store| <= INT32_MAX && AllSendable(ms) && b.Contents() == Frames(ms)
    ensures DecodesIffLastFits(b, ms)
    decreases |ms|
  {
    hide Frame, Decode, Received, MoveRead, QuietAt, Quiet, Rounds, WithId, Fits, TextsFit, TakeFrames, BehindEnd;
    assert Frames(ms) == Frames(ms) + [];
    if b.Slack() > 0 {
      DecodeStream(b, ms, []);
      NothingIsQuiet(TakeFrames(b, ms));
    } else if ms == [] {
      NothingIsQuiet(b);
      UntouchedIffQuiet(b);
    } else if |ms| == 1 {
      FullStorageIsStuck(b, ms[0]);
    } else {
      FirstOfFull(b, ms);
      FramesDecodeIffLastFits(MoveRead(b, FrameLen(WithId(ms[0]))), ms[1..]);
      TakeFirst(b, ms);
    }
  }

  /** The first of several frames that fill the storage. */
  lemma FirstOfFull(b: Buf, ms: seq<TinyPB>)
    requires b.Valid() && b.ZeroTail() && |b.store| <= INT32_MAX && AllSendable(ms) && b.Contents() == Frames(ms)
    requires b.Slack() == 0 && |ms| > 1
    ensures FrameLen(WithId(ms[0])) <= b.w - b.r
    ensures var b1 := MoveRead(b, FrameLen(WithId(ms[0])));
            && b1.Valid() && b1.ZeroTail() && |b1.store| == |b.store| && b1.Contents() == Frames(ms[1..])
            && Decode(b) == After([Received(WithId(ms[0]))], Decode(b1))
            && (if b.r + FrameLen(WithId(ms[0])) >= |b.store| / 3 then b1.Slack() > 0
                else b1.Slack() == 0 && b1.r == b.r + FrameLen(WithId(ms[0])))
  {
    hide Frame, Decode, Received, After, WithId, Fits, TextsFit, Rounds;
    assert Sendable(ms[0]) && Sendable(ms[1]);
    var m, rest := WithId(ms[0]), Frames(ms[1..]);
    DefaultIdFits(ms[0]);
    DecodeFrame(b, m, rest);
  }

  lemma TakeFirst(b: Buf, ms: seq<TinyPB>)
    requires b.Valid() && AllSendable(ms) && b.Slack() == 0 && |ms| > 1 && FrameLen(WithId(ms[0])) <= b.w - b.r
    requires var b1 := MoveRead(b, FrameLen(WithId(ms[0])));
             && b1.Valid() && |b1.store| == |b.store| && DecodesIffLastFits(b1, ms[1..])
             && Decode(b) == After([Received(WithId(ms[0]))], Decode(b1))
             && (if b.r + FrameLen(WithId(ms[0])) >= |b.store| / 3 then b1.Slack() > 0
                 else b1.Slack() == 0 && b1.r == b.r + FrameLen(WithId(ms[0])))
    ensures DecodesIffLastFits(b, ms)
  {
    hide Frame, Decode, Received, MoveRead, WithId, Fits, TextsFit, FrameLen, Frames;
    var rest := ms[1..];
    var n := |ms| - 1;
    assert ms[..n][0] == ms[0] && ms[..n][1..] == rest[..n - 1];
    assert ms[n..] == rest[n - 1..];
    assert TotalLen(ms[..n]) == FrameLen(WithId(ms[0])) + TotalLen(rest[..n - 1]);
    assert Delivered(ms) == [Received(WithId(ms[0]))] + Delivered(rest);
    assert Delivered(ms[..n]) == [Received(WithId(ms[0]))] + Delivered(rest[..n - 1]);
    assert TotalLen(rest[..0]) == 0;
    hide TotalLen, Delivered;
  }

  lemma FullStorageIsStuck(b: Buf, m: TinyPB)
    requires b.Valid() && b.ZeroTail() && |b.store| <= INT32_MAX && Sendable(m) && b.Slack() == 0
    requires b.Contents() == Frame(WithId(m)) + Frames([])
    ensures Decode(b) == Decoding(NoProgress, [], b)
  {
    hide Frame, ParseFields, Received, Int32At;
    DefaultIdFits(m);
    FrameAtFront(b, WithId(m), []);
    FrameLayout(b.store, b.r, WithId(m));
    assert Scan(b.store, b.r, b.w) == Found(b.r, b.r + FrameLen(WithId(m)) - 1, FrameLen(WithId(m)));
  }

  /** Encoded into an empty buffer and decoded from it, every list of sendable messages comes back as it
      was, with the default for an empty id, and nothing is left unread, exactly if its last frame fits. */
  lemma RoundTrip(b: Buf, ms: seq<TinyPB>)
    requires b.Valid() && b.ZeroTail() && b.Contents() == [] && AllSendable(ms)
    requires |EncodeAll(b, ms).store| <= INT32_MAX
    ensures var d := Decode(EncodeAll(b, ms));
            && (d.status == Drained && d.messages == Delivered(ms) && d.buf.Contents() == []
                <==> LastFrameFits(EncodeAll(b, ms), ms))
            && AllAsSent(ms, Delivered(ms))
  {
    hide Decode, Frames, Delivered, LastFrameFits, AllAsSent;
    DeliveredAsSent(ms);
    EncodeContents(b, ms);
    assert EncodeAll(b, ms).Contents() == Frames(ms);
    FramesDecodeIffLastFits(EncodeAll(b, ms), ms);
  }

  /** A single frame is decoded exactly if the storage has a cell behind it. */
  lemma LoneFrameDecodes(b: Buf, m: TinyPB)
    requires b.Valid() && b.ZeroTail() && |b.store| <= INT32_MAX && Sendable(m) && b.Contents() == Frame(WithId(m))
    ensures Decode(b).status == Drained <==> b.Slack() > 0
    ensures b.Slack() == 0 ==> Decode(b) == Decoding(NoProgress, [], b)
  {
    hide Decode, Frame, WithId, Fits, TextsFit;
    assert Frame(WithId(m)) == Frame(WithId(m)) + Frames([]);
    FramesDecodeIffLastFits(b, [m]);
    if b.Slack() == 0 { FullStorageIsStuck(b, m); }
  }

  /** So a message with nothing in it does not come back from a buffer of 35 cells, which its frame, with
      the default id, fills. */
  lemma FullStorageNeverDrains()
    ensures var b := EncodeAll(Buf(Zeros(35), 0, 0), [BLANK]);
            b.Contents() == Frame(WithId(BLANK)) && Decode(b) == Decoding(NoProgress, [], b)
  {
    hide Decode, Frame;
    var b, e := Buf(Zeros(35), 0, 0), EncodeAll(Buf(Zeros(35), 0, 0), [BLANK]);
    EncodeContents(b, [BLANK]);
    assert [BLANK][..0] == [] && b.Contents() == [];
    assert Frames([BLANK]) == Frame(WithId(BLANK)) + Frames([]);
    assert e.Contents() == Frame(WithId(BLANK));
    assert EncodeAll(b, []) == b;
    assert e == Write(b, Frame(WithId(BLANK)));
    LoneFrameDecodes(e, BLANK);
  }

  // ---------------------------------------------------------------- where a stream may be cut

  /** Start bytes inside the frame announce lengths too large to end inside it: the byte behind each is
      neither 0 nor above 'z', and the frame and the storage are not huge. Holds of every frame without a
      start byte but its first. */
  ghost predicate Calm(f: seq<byte>, slack: int, capacity: nat) {
    forall k :: 1 <= k && k + 1 < |f| && f[k] == PB_START ==>
      1 <= f[k + 1] <= 0x7a && |f| <= 0x100_0000 && capacity <= 0x500_0000 && slack >= 3
  }

  /** The unfinished frame has only its first byte, or its whole head, or a length byte that is not 0; and
      the length announced so far does not overflow the index. */
  ghost predicate AtCut(b: Buf)
    requires b.Valid()
  {
    var t := b.Contents();
    |t| <= 1
    || (&& b.r + 4 < |b.store|
        && (|t| >= 5 || exists k :: 1 <= k < |t| && t[k] != 0)
        && b.r + Int32At(b.store, b.r + 1) <= INT32_MAX)
  }

  /** The cuts of a frame that decode takes calmly are exactly these, at any place in the storage. Any
      other announces the length 0, whose end is the byte before the frame. */
  lemma QuietCuts(b: Buf, m: TinyPB, n: nat)
    requires b.Valid() && b.ZeroTail() && BehindEnd(b) && Fits(m) && n < FrameLen(m)
    requires b.Contents() == Frame(m)[..n] && Calm(Frame(m), b.Slack(), |b.store|)
    ensures Quiet(b) <==> AtCut(b)
  {
    hide Frame, Int32At, Calm;
    forall i | b.r < i < b.w ensures QuietAt(b, i) {
      LaterQuiet(b, m, n, i);
    }
    if n > 0 {
      assert Quiet(b) <==> QuietAt(b, b.r);
      FirstQuiet(b, m, n);
    }
  }

  lemma LaterQuiet(b: Buf, m: TinyPB, n: nat, i: nat)
    requires b.Valid() && Fits(m) && n < FrameLen(m)
    requires b.Contents() == Frame(m)[..n] && Calm(Frame(m), b.Slack(), |b.store|)
    requires b.r < i < b.w
    ensures QuietAt(b, i)
  {
    hide Frame, Int32At;
    var k := i - b.r;
    assert b.store[i] == b.Contents()[k] == Frame(m)[k];
    if i + 1 < b.w && b.store[i] == PB_START {
      assert b.store[i + 1] == b.Contents()[k + 1] == Frame(m)[k + 1];
      HighByte(b.store, i + 1);
    }
  }

  lemma HighByte(s: seq<byte>, k: nat)
    requires k + 4 <= |s| && 1 <= s[k] <= 0x7a
    ensures 0x100_0000 <= Int32At(s, k) < 0x7b00_0000
  {
    UnsignedOfFour(s[k..k + 4]);
  }

  lemma FirstQuiet(b: Buf, m: TinyPB, n: nat)
    requires b.Valid() && b.ZeroTail() && BehindEnd(b) && Fits(m) && 0 < n < FrameLen(m)
    requires b.Contents() == Frame(m)[..n]
    ensures QuietAt(b, b.r) <==> AtCut(b)
  {
    hide Frame, Int32At;
    FrameLayout(Frame(m), 0, m);
    assert b.store[b.r] == b.Contents()[0] == Frame(m)[0];
    if n > 1 && b.r + 4 < |b.store| {
      if n >= 5 { HeadThere(b, m, n); } else { HeadComing(b, m, n); }
    }
  }

  lemma HeadThere(b: Buf, m: TinyPB, n: nat)
    requires b.Valid() && Fits(m) && 5 <= n <= FrameLen(m) && b.Contents() == Frame(m)[..n]
    ensures b.r + 5 <= |b.store| && Int32At(b.store, b.r + 1) == FrameLen(m)
  {
    hide Frame, Int32At;
    FrameLayout(Frame(m), 0, m);
    SliceOfSlice(b.store, b.r, b.w, 1, 5);
    SliceOfSlice(Frame(m), 0, n, 1, 5);
    SameLength(b.store, b.r + 1, Frame(m), 1);
  }

  lemma SliceOfSlice(s: seq<byte>, lo: nat, hi: nat, i: nat, j: nat)
    requires lo <= hi <= |s| && i <= j <= hi - lo
    ensures s[lo..hi][i..j] == s[lo + i..lo + j]
  {
    assert forall k :: 0 <= k < j - i ==> s[lo..hi][i..j][k] == s[lo..hi][i + k] == s[lo + i + k];
    assert s[lo..hi][i..j] == s[lo + i..lo + j];
  }

  lemma HeadComing(b: Buf, m: TinyPB, n: nat)
    requires b.Valid() && b.ZeroTail() && Fits(m) && 2 <= n <= 4 && b.Contents() == Frame(m)[..n] && b.r + 4 < |b.store|
    ensures if exists k :: 1 <= k < n && b.Contents()[k] != 0
            then Int32At(b.store, b.r + 1) >= 0x100 else Int32At(b.store, b.r + 1) == 0
  {
    hide Frame, Int32At;
    var f := Frame(m);
    FrameLayout(f, 0, m);
    forall x | b.r <= x < b.r + n ensures b.store[x] == f[x - b.r] {
      assert b.store[x] == b.Contents()[x - b.r];
    }
    forall x | b.r + n <= x < b.r + 5 ensures b.store[x] == 0 {
      assert b.store[x] == b.store[b.w..][x - b.w];
    }
    HeadLength(f, b.store, b.r, n);
    assert forall k :: 1 <= k < n ==> f[k] == b.Contents()[k];
  }

  lemma SameLength(p: seq<byte>, i: nat, f: seq<byte>, k: nat)
    requires i + 4 <= |p| && k + 4 <= |f| && p[i..i + 4] == f[k..k + 4]
    ensures Int32At(p, i) == Int32At(f, k)
  {
  }

  /** A length of which only the first one to three bytes have arrived is 0 or at least 256. */
  lemma HeadLength(f: seq<byte>, p: seq<byte>, r: nat, n: nat)
    requires 2 <= n <= 4 && |f| >= 5 && r + 5 <= |p| && Int32At(f, 1) >= 0
    requires forall x :: r <= x < r + n ==> p[x] == f[x - r]
    requires forall x :: r + n <= x < r + 5 ==> p[x] == 0
    ensures if exists k :: 1 <= k < n && f[k] != 0 then Int32At(p, r + 1) >= 0x100 else Int32At(p, r + 1) == 0
  {
    UnsignedOfFour(f[1..5]);
    UnsignedOfFour(p[r + 1..r + 5]);
    assert f[1] < 0x80;
    assert p[r + 1] == f[1] && p[r + 4] == 0;
  }

  /** A stream cut behind its second byte, at the front of the storage: decode reads the announced length
      0 and then the byte before the storage. */
  lemma CutInHeadIsNotQuiet()
    ensures var b := Buf([PB_START, 0] + Zeros(8), 0, 2);
            b.Valid() && b.ZeroTail() && Decode(b).status == Status.Undefined
  {
    var b := Buf([PB_START, 0] + Zeros(8), 0, 2);
    assert b.store[1..5] == Zeros(4);
    UnsignedOfFour(b.store[1..5]);
    assert Scan(b.store, 0, 2) == Outside;
  }

  /** Seven bytes whose announced length, the largest int, overflows the index of its end. */
  lemma LengthOverflows()
    ensures var b := Buf([65, 65, PB_START, 0x7f, 0xff, 0xff, 0xff] + Zeros(8), 0, 7);
            b.Valid() && b.ZeroTail() && !Quiet(b) && Decode(b).status == Status.Undefined
  {
    var b := Buf([65, 65, PB_START, 0x7f, 0xff, 0xff, 0xff] + Zeros(8), 0, 7);
    assert b.store[3..7] == [0x7f, 0xff, 0xff, 0xff];
    UnsignedOfFour(b.store[3..7]);
    assert Int32At(b.store, 3) >= 0x7fff_ffff;
    hide Int32At;
    assert Scan(b.store, 2, 7) == Outside;
    assert Scan(b.store, 1, 7) == Outside;
    assert Scan(b.store, 0, 7) == Outside;
    assert !QuietAt(b, 2);
  }

  // ---------------------------------------------------------------- whole runs of arrivals and decodes

  /** A short read of the socket lands at the write index and is recorded. */
  ghost function Arrive(b: Buf, bytes: seq<byte>): Buf
    requires b.Valid() && |bytes| <= b.Slack()
  {
    MoveWrite(Fill(b, bytes), |bytes|)
  }

  /** A read is recorded exactly when it does not fill the storage to its end. */
  lemma ArriveRecorded(b: Buf, bytes: seq<byte>)
    requires b.Valid() && |bytes| <= b.Slack()
    ensures var b' := Arrive(b, bytes);
            && b'.Valid() && |b'.store| == |b.store|
            && b'.Contents() == b.Contents() + (if |bytes| < b.Slack() then bytes else [])
            && (|bytes| < b.Slack() && Ready(b) ==> Ready(b'))
            && (BehindEnd(b) ==> BehindEnd(b'))
  {
    FillContents(b, bytes);
    assert |bytes| == b.Slack() ==> Arrive(b, bytes).Contents() == b.Contents();
  }

  datatype Event = Arrival(bytes: seq<byte>) | DecodeCall

  /** A receiver in the middle of a stream: its buffer, what it has delivered, and what is still on the
      way to it. */
  datatype Receiver = Receiver(buf: Buf, got: seq<TinyPB>, coming: seq<byte>)

  /** How many frames are complete in the first `n` bytes of the frames of `ms`. */
  ghost function Whole(ms: seq<TinyPB>, n: nat): (k: nat)
    requires AllSendable(ms)
    ensures k <= |ms|
  {
    if ms == [] || n < FrameLen(WithId(ms[0])) then 0
    else 1 + Whole(ms[1..], n - FrameLen(WithId(ms[0])))
  }

  /** The bytes do not start with a complete frame, as far as the length they announce goes. */
  predicate Unfinished(have: seq<byte>) {
    |have| < 5 || Int32At(have, 1) < 1 || Int32At(have, 1) > |have|
  }

  /** The buffer without the complete frames at its front, taken off one by one as they announce their
      lengths. */
  ghost function Rest(b: Buf): (b': Buf)
    requires b.Valid()
    ensures b'.Valid()
    decreases b.w - b.r
  {
    var have := b.Contents();
    if Unfinished(have) || b.Slack() == 0 then b
    else
      MoveReadCount(b, Int32At(have, 1));
      Rest(MoveRead(b, Int32At(have, 1)))
  }

  /** The announced length is the length of the frame, as soon as the head has arrived. */
  lemma AnnouncedLength(have: seq<byte>, coming: seq<byte>, m: TinyPB, rest: seq<byte>)
    requires Fits(m) && have + coming == Frame(m) + rest && |have| >= 5
    ensures Int32At(have, 1) == FrameLen(m)
  {
    hide Frame, Int32At;
    var f := Frame(m);
    FrameLayout(f, 0, m);
    assert have[1..5] == (have + coming)[1..5] == (f + rest)[1..5] == f[1..5];
    SameLength(have, 1, f, 1);
  }

  lemma FrontSplit(have: seq<byte>, coming: seq<byte>, f: seq<byte>, rest: seq<byte>)
    requires have + coming == f + rest && |f| <= |have|
    ensures have == f + have[|f|..] && have[|f|..] + coming == rest
  {
    assert have == (have + coming)[..|have|] == (f + rest)[..|have|];
    assert have[|f|..] + coming == (have + coming)[|f|..] == (f + rest)[|f|..];
  }

  /** What has arrived of a stream of frames is its complete frames followed by a proper prefix of the
      next one. */
  lemma {:induction false} WholeSplit(ms: seq<TinyPB>, have: seq<byte>, coming: seq<byte>) returns (t: seq<byte>)
    requires AllSendable(ms) && have + coming == Frames(ms)
    ensures var k := Whole(ms, |have|);
            && have == Frames(ms[..k]) + t && t + coming == Frames(ms[k..]) && Unfinished(t)
            && (if k == |ms| then t == [] && coming == [] else |t| < FrameLen(WithId(ms[k])))
    decreases |ms|
  {
    hide Frame, TextsFit, WithId, Fits, Int32At;
    if ms == [] {
      t := [];
    } else if |have| < FrameLen(WithId(ms[0])) {
      assert Sendable(ms[0]);
      if |have| >= 5 { AnnouncedLength(have, coming, WithId(ms[0]), Frames(ms[1..])); }
      assert ms[..0] == [] && ms[0..] == ms && [] + have == have;
      t := have;
    } else {
      assert Sendable(ms[0]);
      var f := Frame(WithId(ms[0]));
      var have', k' := have[|f|..], Whole(ms[1..], |have| - |f|);
      FrontSplit(have, coming, f, Frames(ms[1..]));
      t := WholeSplit(ms[1..], have', coming);
      FramesFront(ms, k');
      Associate(f, Frames(ms[1..][..k']), t);
    }
  }

  lemma FramesFront(ms: seq<TinyPB>, k: nat)
    requires AllSendable(ms) && k < |ms|
    ensures Frames(ms[..k + 1]) == Frame(WithId(ms[0])) + Frames(ms[1..][..k])
    ensures ms[k + 1..] == ms[1..][k..]
  {
    hide Frame, WithId, Fits, TextsFit;
    assert ms[..k + 1][1..] == ms[1..][..k];
  }

  lemma Associate(a: seq<byte>, b: seq<byte>, c: seq<byte>)
    ensures a + (b + c) == (a + b) + c
  {
  }

  /** Frame by frame as they announce their lengths, or message by message: the same is taken. */
  lemma {:induction false} RestTakes(b: Buf, ms: seq<TinyPB>, t: seq<byte>)
    requires Ready(b) && AllSendable(ms) && b.Contents() == Frames(ms) + t && Unfinished(t)
    ensures TotalLen(ms) <= b.w - b.r && Rest(b) == TakeFrames(b, ms)
    decreases |ms|
  {
    hide Frame, MoveRead, WithId, Fits, TextsFit, Int32At, Decode, Rounds, Received, After, BehindEnd;
    FramesLen(ms);
    if ms == [] {
      assert b.Contents() == t;
    } else {
      assert Sendable(ms[0]);
      DefaultIdFits(ms[0]);
      var m, rest := WithId(ms[0]), Frames(ms[1..]) + t;
      assert b.Contents() == Frame(m) + rest;
      assert b.Contents() + [] == Frame(m) + rest;
      AnnouncedLength(b.Contents(), [], m, rest);
      DecodeFrame(b, m, rest);
      RestTakes(MoveRead(b, FrameLen(m)), ms[1..], t);
    }
  }

  /** Arrivals are short reads of the next bytes of the stream; decode is called when the unfinished
      frame it will find, behind the complete ones, is quiet. */
  ghost predicate EventAllowed(r: Receiver, e: Event)
    requires r.buf.Valid()
  {
    match e
    case Arrival(bytes) => bytes <= r.coming && |bytes| < r.buf.Slack()
    case DecodeCall => Quiet(Rest(r.buf))
  }

  ghost function Next(r: Receiver, e: Event): (r': Receiver)
    requires r.buf.Valid()
    requires e.Arrival? ==> e.bytes <= r.coming && |e.bytes| <= r.buf.Slack()
    ensures r'.buf.Valid()
  {
    match e
    case Arrival(bytes) =>
      ArriveRecorded(r.buf, bytes);
      Receiver(Arrive(r.buf, bytes), r.got, r.coming[|bytes|..])
    case DecodeCall =>
      var d := Decode(r.buf);
      Receiver(d.buf, r.got + d.messages, r.coming)
  }

  /** The buffer holds, and the wire will bring, exactly the frames still to be delivered. */
  ghost predicate Aligned(r: Receiver, todo: seq<TinyPB>) {
    && Ready(r.buf) && BehindEnd(r.buf) && AllSendable(todo)
    && r.buf.Contents() + r.coming == Frames(todo)
  }

  /** How many of the messages a single event delivers. */
  ghost function DeliveredBy(r: Receiver, todo: seq<TinyPB>, e: Event): (k: nat)
    requires r.buf.Valid() && AllSendable(todo)
    ensures k <= |todo|
  {
    if e.Arrival? then 0 else Whole(todo, |r.buf.Contents()|)
  }

  /** In the middle of a stream, a call of decode returns with the complete messages delivered and exactly
      the unfinished frame left if and only if that frame is quiet. */
  lemma DecodeInStream(r: Receiver, todo: seq<TinyPB>) returns (t: seq<byte>)
    requires Aligned(r, todo)
    ensures var k, b' := Whole(todo, |r.buf.Contents()|), Rest(r.buf);
            && (Decode(r.buf) == Decoding(Drained, Delivered(todo[..k]), b') <==> EventAllowed(r, DecodeCall))
            && Ready(b') && BehindEnd(b') && |b'.store| == |r.buf.store| && b'.Slack() >= r.buf.Slack()
            && b'.Contents() == t && t + r.coming == Frames(todo[k..])
            && (if k == |todo| then t == [] else |t| < FrameLen(WithId(todo[k])))
  {
    hide Frame, Frames, Decode, Rounds, Quiet, BehindEnd, TotalLen, TakeFrames, Rest, After, FrameLen, Fits, TextsFit;
    var have := r.buf.Contents();
    var k := Whole(todo, |have|);
    t := WholeSplit(todo, have, r.coming);
    DecodeFrames(r.buf, todo[..k], t);
    DecodeStream(r.buf, todo[..k], t);
    RestTakes(r.buf, todo[..k], t);
  }

  lemma StepKeepsAligned(r: Receiver, todo: seq<TinyPB>, e: Event)
    requires Aligned(r, todo) && EventAllowed(r, e)
    ensures var k := DeliveredBy(r, todo, e);
            && Aligned(Next(r, e), todo[k..])
            && Next(r, e).got == r.got + Delivered(todo[..k])
            && |Next(r, e).buf.store| == |r.buf.store|
  {
    hide Frame, Decode, Quiet, Frames, Rest, BehindEnd;
    match e {
      case Arrival(bytes) =>
        ArriveRecorded(r.buf, bytes);
        assert r.coming == bytes + r.coming[|bytes|..];
        assert (r.buf.Contents() + bytes) + r.coming[|bytes|..] == Frames(todo);
        assert todo[0..] == todo && todo[..0] == [] && r.got + [] == r.got;
      case DecodeCall =>
        var t := DecodeInStream(r, todo);
    }
  }

  ghost predicate AllCalm(todo: seq<TinyPB>, slack: int, capacity: nat)
    requires AllSendable(todo)
  {
    forall i :: 0 <= i < |todo| ==> Calm(Frame(WithId(todo[i])), slack, capacity)
  }

  /** So for calm frames, anywhere in the storage and in the stream, decode returns with the complete
      messages delivered and exactly the unfinished frame left if and only if that is cut as in
      QuietCuts. */
  lemma DecodeWorksAtCuts(r: Receiver, todo: seq<TinyPB>)
    requires Aligned(r, todo) && AllCalm(todo, r.buf.Slack(), |r.buf.store|)
    ensures Decode(r.buf) == Decoding(Drained, Delivered(todo[..Whole(todo, |r.buf.Contents()|)]), Rest(r.buf))
            <==> AtCut(Rest(r.buf))
  {
    hide Frame, Decode, Quiet, Rest, BehindEnd, Calm, FrameLen, Fits, TextsFit;
    var t := DecodeInStream(r, todo);
    var k, b' := Whole(todo, |r.buf.Contents()|), Rest(r.buf);
    if k == |todo| {
      NothingIsQuiet(b');
    } else {
      assert Sendable(todo[k]);
      var m := WithId(todo[k]);
      assert t + r.coming == Frame(m) + Frames(todo[k..][1..]);
      assert t == (t + r.coming)[..|t|] == Frame(m)[..|t|];
      CalmMonotone(Frame(m), r.buf.Slack(), b'.Slack(), |b'.store|);
      QuietCuts(b', m, |t|);
    }
  }

  lemma CalmMonotone(f: seq<byte>, slack: int, slack': int, capacity: nat)
    requires Calm(f, slack, capacity) && slack <= slack'
    ensures Calm(f, slack', capacity)
  {
  }

  ghost predicate RunAllowed(r: Receiver, todo: seq<TinyPB>, events: seq<Event>)
    requires Aligned(r, todo)
    decreases |events|
  {
    events != [] ==>
      && EventAllowed(r, events[0])
      && (StepKeepsAligned(r, todo, events[0]);
          RunAllowed(Next(r, events[0]), todo[DeliveredBy(r, todo, events[0])..], events[1..]))
  }

  ghost function Run(r: Receiver, todo: seq<TinyPB>, events: seq<Event>): (r': Receiver)
    requires Aligned(r, todo) && RunAllowed(r, todo, events)
    ensures r'.buf.Valid()
    decreases |events|
  {
    if events == [] then r
    else
      StepKeepsAligned(r, todo, events[0]);
      Run(Next(r, events[0]), todo[DeliveredBy(r, todo, events[0])..], events[1..])
  }

  /** The bytes that arrive in the course of a run. */
  ghost function Arrived(events: seq<Event>): seq<byte> {
    if events == [] then [] else (if events[0].Arrival? then events[0].bytes else []) + Arrived(events[1..])
  }

  /** An arrival takes its bytes off the wire and delivers nothing; a call of decode leaves the wire. */
  lemma EventTakesBytes(r: Receiver, e: Event)
    requires r.buf.Valid() && EventAllowed(r, e)
    ensures if e.Arrival? then e.bytes + Next(r, e).coming == r.coming && Next(r, e).got == r.got
            else Next(r, e).coming == r.coming
  {
    hide Decode, Quiet, Rest;
  }

  /** Chunk invariance: however the stream is cut into arrivals and however decode calls fall between
      them, what has been delivered is a prefix of the messages, in order, each once and field by field as
      sent, and buffer and wire hold exactly the frames of the rest, the wire what has not arrived yet. */
  lemma {:induction false} ChunkInvariance(r: Receiver, todo: seq<TinyPB>, events: seq<Event>) returns (k: nat)
    requires Aligned(r, todo) && RunAllowed(r, todo, events)
    ensures k <= |todo| && Aligned(Run(r, todo, events), todo[k..])
    ensures Run(r, todo, events).got == r.got + Delivered(todo[..k]) && AllAsSent(todo[..k], Delivered(todo[..k]))
    ensures Arrived(events) + Run(r, todo, events).coming == r.coming
    decreases |events|
  {
    k := PrefixDelivered(r, todo, events);
    WireShrinks(r, todo, events);
    DeliveredAsSent(todo[..k]);
  }

  lemma {:induction false} WireShrinks(r: Receiver, todo: seq<TinyPB>, events: seq<Event>)
    requires Aligned(r, todo) && RunAllowed(r, todo, events)
    ensures Arrived(events) + Run(r, todo, events).coming == r.coming
    decreases |events|
  {
    hide Next, Decode, Quiet, Rest, Frames, BehindEnd;
    if events == [] {
      assert [] + r.coming == r.coming;
    } else {
      var e, r1 := events[0], Next(r, events[0]);
      StepKeepsAligned(r, todo, e);
      EventTakesBytes(r, e);
      WireShrinks(r1, todo[DeliveredBy(r, todo, e)..], events[1..]);
      var first, rest := if e.Arrival? then e.bytes else [], Arrived(events[1..]);
      Associate(first, rest, Run(r, todo, events).coming);
      assert [] + r1.coming == r1.coming;
    }
  }

  lemma {:induction false} PrefixDelivered(r: Receiver, todo: seq<TinyPB>, events: seq<Event>) returns (k: nat)
    requires Aligned(r, todo) && RunAllowed(r, todo, events)
    ensures k <= |todo| && Aligned(Run(r, todo, events), todo[k..])
    ensures Run(r, todo, events).got == r.got + Delivered(todo[..k])
    decreases |events|
  {
    hide Next, Frames, Fits, TextsFit, WithId, FrameLen, Received, Rest, BehindEnd;
    if events == [] {
      k := 0;
      assert todo[0..] == todo && todo[..0] == [] && r.got + [] == r.got;
    } else {
      StepKeepsAligned(r, todo, events[0]);
      var k1 := DeliveredBy(r, todo, events[0]);
      var k2 := PrefixDelivered(Next(r, events[0]), todo[k1..], events[1..]);
      k := k1 + k2;
      assert todo[k1..][k2..] == todo[k..];
      DeliveredSplit(todo, k1, k2, r.got);
    }
  }

  lemma DeliveredSplit(ms: seq<TinyPB>, i: nat, j: nat, got: seq<TinyPB>)
    requires AllSendable(ms) && i + j <= |ms|
    ensures (got + Delivered(ms[..i])) + Delivered(ms[i..][..j]) == got + Delivered(ms[..i + j])
  {
    var a, b := ms[..i], ms[i..][..j];
    assert ms[..i + j] == a + b;
    DeliveredConcat(a, b);
    hide Delivered, Sendable;
    assert (got + Delivered(a)) + Delivered(b) == got + (Delivered(a) + Delivered(b));
  }

  lemma {:induction false} DeliveredConcat(a: seq<TinyPB>, b: seq<TinyPB>)
    requires AllSendable(a) && AllSendable(b)
    ensures AllSendable(a + b) && Delivered(a + b) == Delivered(a) + Delivered(b)
    decreases |a|
  {
    hide Delivered, Sendable;
    SendableConcat(a, b);
    if a == [] {
      NoneDelivered(b);
    } else {
      DeliveredConcat(a[1..], b);
      OneMoreDelivered(a, b);
    }
  }

  lemma NoneDelivered(b: seq<TinyPB>)
    requires AllSendable(b)
    ensures [] + b == b && [] + Delivered(b) == Delivered(b) && Delivered([]) == []
  {
  }

  lemma OneMoreDelivered(a: seq<TinyPB>, b: seq<TinyPB>)
    requires AllSendable(a) && AllSendable(b) && AllSendable(a + b) && a != [] && AllSendable(a[1..] + b)
    requires Delivered(a[1..] + b) == Delivered(a[1..]) + Delivered(b)
    ensures Delivered(a + b) == Delivered(a) + Delivered(b)
  {
    hide Received, WithId, Fits, TextsFit;
    hide Delivered;
    FirstDelivered(a);
    FirstDelivered(a + b);
    RestOfConcat(a, b);
    MessagesAssociate([Received(WithId(a[0]))], Delivered(a[1..]), Delivered(b));
  }

  lemma RestOfConcat(a: seq<TinyPB>, b: seq<TinyPB>)
    requires a != []
    ensures (a + b)[0] == a[0] && (a + b)[1..] == a[1..] + b
  {
  }

  lemma FirstDelivered(ms: seq<TinyPB>)
    requires AllSendable(ms) && ms != []
    ensures Sendable(ms[0]) && Delivered(ms) == [Received(WithId(ms[0]))] + Delivered(ms[1..])
  {
    hide Received, WithId, Fits, TextsFit;
    assert Sendable(ms[0]);
  }

  lemma SendableConcat(a: seq<TinyPB>, b: seq<TinyPB>)
    requires AllSendable(a) && AllSendable(b)
    ensures AllSendable(a + b)
  {
    hide Sendable;
  }

  lemma MessagesAssociate(a: seq<TinyPB>, b: seq<TinyPB>, c: seq<TinyPB>)
    ensures (a + b) + c == a + (b + c)
  {
  }

  /** Once everything has arrived, one more decode completes the list. */
  lemma AllDelivered(r: Receiver, todo: seq<TinyPB>, events: seq<Event>)
    requires Aligned(r, todo) && RunAllowed(r, todo, events) && Run(r, todo, events).coming == []
    ensures var r' := Run(r, todo, events);
            && Decode(r'.buf).status == Drained
            && r'.got + Decode(r'.buf).messages == r.got + Delivered(todo) && AllAsSent(todo, Delivered(todo))
            && Decode(r'.buf).buf.Contents() == []
            && Arrived(events) == r.coming
  {
    hide Next, Decode, Frames, Fits, TextsFit, WithId, FrameLen, Received, RunAllowed, Quiet, TakeFrames, BehindEnd,
         Delivered, Run, AllAsSent, Arrived;
    DeliveredAsSent(todo);
    assert Arrived(events) + [] == Arrived(events);
    var k := ChunkInvariance(r, todo, events);
    var r', rest := Run(r, todo, events), todo[k..];
    assert r'.buf.Contents() == Frames(rest) + [] by {
      assert r'.buf.Contents() + [] == r'.buf.Contents();
    }
    DecodeStream(r'.buf, rest, []);
    NothingIsQuiet(TakeFrames(r'.buf, rest));
    assert rest[..|rest|] == rest && todo[..k + |rest|] == todo;
    DeliveredSplit(todo, k, |rest|, r.got);
  }

  // ---------------------------------------------------------------- streams that need no care

  /** Decode is not called while the second to fourth byte of a frame is the last one there. */
  ghost predicate EventAtCut(r: Receiver, e: Event)
    requires r.buf.Valid()
  {
    match e
    case Arrival(bytes) => bytes <= r.coming && |bytes| < r.buf.Slack()
    case DecodeCall => r.buf.Slack() >= 3 && !(2 <= |Rest(r.buf).Contents()| <= 4)
  }

  ghost predicate RunAtCuts(r: Receiver, events: seq<Event>)
    requires r.buf.Valid()
    decreases |events|
  {
    events != [] ==> EventAtCut(r, events[0]) && RunAtCuts(Next(r, events[0]), events[1..])
  }

  /** Start bytes inside the frame are followed by a byte from 1 to 'z', as in front of ASCII text. */
  ghost predicate Tame(m: TinyPB)
    requires Sendable(m)
  {
    && FrameLen(WithId(m)) <= 0x100_0000
    && forall k :: 1 <= k && k + 1 < FrameLen(WithId(m)) && Frame(WithId(m))[k] == PB_START ==>
         1 <= Frame(WithId(m))[k + 1] <= 0x7a
  }

  ghost predicate AllTame(todo: seq<TinyPB>)
    requires AllSendable(todo)
  {
    forall i :: 0 <= i < |todo| ==> Tame(todo[i])
  }

  /** A condition on the messages alone under which every run whose decode calls keep out of the frames'
      heads is one of those of ChunkInvariance: frames of at most 16 MB that are tame, in a storage of at
      most 80 MB. */
  lemma {:induction false} TameRunsAreAllowed(r: Receiver, todo: seq<TinyPB>, events: seq<Event>)
    requires Aligned(r, todo) && AllTame(todo) && |r.buf.store| <= 0x500_0000
    requires RunAtCuts(r, events)
    ensures RunAllowed(r, todo, events)
    decreases |events|
  {
    hide Next, Frame, Frames, Fits, TextsFit, WithId, FrameLen, Rest, BehindEnd, Tame, Quiet;
    if events != [] {
      if events[0].DecodeCall? { TameCutAllowed(r, todo); }
      StepKeepsAligned(r, todo, events[0]);
      var k := DeliveredBy(r, todo, events[0]);
      assert AllTame(todo[k..]);
      TameRunsAreAllowed(Next(r, events[0]), todo[k..], events[1..]);
    }
  }

  lemma TameCutAllowed(r: Receiver, todo: seq<TinyPB>)
    requires Aligned(r, todo) && AllTame(todo) && |r.buf.store| <= 0x500_0000
    requires EventAtCut(r, DecodeCall)
    ensures EventAllowed(r, DecodeCall)
  {
    hide Frame, Decode, Rest, BehindEnd, Quiet, TextsFit, Calm, Int32At;
    var t := DecodeInStream(r, todo);
    var k, b' := Whole(todo, |r.buf.Contents()|), Rest(r.buf);
    if k == |todo| {
      NothingIsQuiet(b');
    } else {
      assert Sendable(todo[k]) && Tame(todo[k]);
      var m := WithId(todo[k]);
      assert t + r.coming == Frame(m) + Frames(todo[k..][1..]);
      assert t == (t + r.coming)[..|t|] == Frame(m)[..|t|];
      TameIsCalm(todo[k], b'.Slack(), |b'.store|);
      QuietCuts(b', m, |t|);
      if |t| >= 5 { HeadThere(b', m, |t|); }
    }
  }

  lemma TameIsCalm(m: TinyPB, slack: int, capacity: nat)
    requires Sendable(m) && Tame(m) && slack >= 3 && capacity <= 0x500_0000
    ensures Calm(Frame(WithId(m)), slack, capacity)
  {
    hide Frame;
  }
}
