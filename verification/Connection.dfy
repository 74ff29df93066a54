/** One connection: reading into a buffer, executing what is complete, writing the other buffer
    (rocket/net/tcp/tcp_connection.cpp). */
module Connections {
  import opened Bytes
  import opened Options
  import opened TcpBuffers
  import opened TinyPBs
  import opened Coders
  import opened Streams
  import opened Dispatchers

  // ---------------------------------------------------------------- reading

  /** What a read call meets. Got: at most that many bytes are there. Again: EAGAIN. Other: any other
      error, on which the loop goes round again. */
  datatype ReadCall = Got(most: nat) | Again | Other

  /** Finished: the socket ran dry. Closed: end of file. Waiting: the loop has not ended yet. */
  datatype ReadEnd = Finished | Closed | Waiting

  datatype ReadOutcome = ReadOutcome(buf: Buf, taken: nat, end: ReadEnd)

  function Min(a: nat, b: nat): nat { if a < b then a else b }

  ghost function Grown(b: Buf): (b': Buf)
    requires b.Valid()
    ensures b'.Valid()
  {
    if b.Slack() == 0 then Resize(b, 2 * |b.store|) else b
  }

  /** The loop of onRead over the bytes still to come on the socket. */
  ghost function ReadLoop(b: Buf, stream: seq<byte>, calls: seq<ReadCall>): (o: ReadOutcome)
    requires b.Valid()
    ensures o.buf.Valid() && o.taken <= |stream|
    decreases |calls|
  {
    if calls == [] then ReadOutcome(Grown(b), 0, Waiting)
    else
      var b1 := Grown(b);
      match calls[0]
      case Again => ReadOutcome(b1, 0, Finished)
      case Other => ReadLoop(b1, stream, calls[1..])
      case Got(most) =>
        var n := Min(Min(most, b1.Slack()), |stream|);
        var b2 := MoveWrite(Fill(b1, stream[..n]), n);
        if n == 0 then ReadOutcome(b1, 0, Closed)
        else if n < b1.Slack() then ReadOutcome(b2, n, Finished)
        else
          TakenBefore(n, ReadLoop(b2, stream[n..], calls[1..]))
  }

  ghost function TakenBefore(n: nat, o: ReadOutcome): ReadOutcome { o.(taken := n + o.taken) }

  /** The first read call that returns anything but an error other than EAGAIN. */
  function FirstDecisive(calls: seq<ReadCall>): Option<ReadCall> {
    if calls == [] then None else if calls[0].Other? then FirstDecisive(calls[1..]) else Some(calls[0])
  }

  /** That call brings as many bytes as there is room for. */
  ghost predicate FillsRoom(b: Buf, stream: seq<byte>, calls: seq<ReadCall>)
    requires b.Valid()
  {
    var first := FirstDecisive(calls);
    first.Some? && first.value.Got? && 0 < Grown(b).Slack() <= Min(first.value.most, |stream|)
  }

  /** A connection keeps every byte it takes off the socket exactly when its first read call that returns
      bytes does not fill the room to the end: a read that does is not recorded, and the next one
      overwrites it. */
  lemma {:induction false} ReadKeepsAll(b: Buf, stream: seq<byte>, calls: seq<ReadCall>)
    requires b.Valid()
    ensures var o := ReadLoop(b, stream, calls);
            && (o.buf.Contents() == b.Contents() + stream[..o.taken] <==> !FillsRoom(b, stream, calls))
            && (Ready(b) && !FillsRoom(b, stream, calls) ==> Ready(o.buf))
    decreases |calls|
  {
    hide Fill, MoveWrite, Resize, Ready;
    var b1, o := Grown(b), ReadLoop(b, stream, calls);
    GrownKeeps(b);
    assert stream[..0] == [] && b.Contents() + [] == b.Contents();
    if calls != [] && calls[0].Other? {
      ReadKeepsAll(b1, stream, calls[1..]);
    } else if calls != [] && calls[0].Got? {
      var n := Min(Min(calls[0].most, b1.Slack()), |stream|);
      ArriveRecorded(b1, stream[..n]);
      if 0 < n == b1.Slack() {
        ReadShrinks(Arrive(b1, stream[..n]), stream[n..], calls[1..]);
        assert |o.buf.Contents()| < |b.Contents()| + o.taken;
      }
    }
  }

  lemma GrownKeeps(b: Buf)
    requires b.Valid()
    ensures Grown(b).Contents() == b.Contents() && Grown(Grown(b)).Slack() == Grown(b).Slack()
    ensures Ready(b) ==> Grown(b) == b
  {
    NoRoomDoubles(b);
    NoRoomDoubles(Grown(b));
    hide Grown;
  }

  /** Four bytes read into four cells are taken off the socket and lost. */
  lemma FullReadIsLost()
    ensures var o := ReadLoop(Buf(Zeros(4), 0, 0), [1, 2, 3, 4], [Got(4), Again]);
            o.taken == 4 && o.end == Finished && o.buf.Contents() == []
  {
    var b, stream, calls := Buf(Zeros(4), 0, 0), [1, 2, 3, 4], [Got(4), Again];
    var b2 := MoveWrite(Fill(b, stream[..4]), 4);
    assert b2.w == 0 && b2.Contents() == [] && b2.Slack() == 4;
    assert calls[1..] == [Again] && stream[4..] == [];
    assert ReadLoop(b2, [], [Again]) == ReadOutcome(b2, 0, Finished);
    assert stream[..4] == stream;
  }

  /** The read call that ends the loop, and how many bytes it returned: the first with EAGAIN, or with
      fewer bytes than there is room for. Reads that fill the room and other errors go round again; as a
      full read is not recorded, the room stays the same. */
  function Decider(room: nat, left: nat, calls: seq<ReadCall>): Option<(ReadCall, nat)> {
    if calls == [] then None
    else
      match calls[0]
      case Again => Some((Again, 0))
      case Other => Decider(room, left, calls[1..])
      case Got(most) =>
        var n := Min(Min(most, room), left);
        if 0 < n == room then Decider(room, left - n, calls[1..]) else Some((calls[0], n))
  }

  /** The loop reports the end of file exactly if the deciding read returned no byte, that it is finished
      exactly if that read returned some or EAGAIN, and is still waiting if there was none. */
  lemma {:induction false} ReadEndsAsDecided(b: Buf, stream: seq<byte>, calls: seq<ReadCall>)
    requires b.Valid()
    ensures var d, end := Decider(Grown(b).Slack(), |stream|, calls), ReadLoop(b, stream, calls).end;
            && (end == Waiting <==> d.None?)
            && (end == Closed <==> d.Some? && d.value.0.Got? && d.value.1 == 0)
            && (end == Finished <==> d.Some? && (d.value.0.Again? || d.value.1 > 0))
    decreases |calls|
  {
    hide Fill, MoveWrite, Resize;
    GrownKeeps(b);
    if calls != [] {
      var b1 := Grown(b);
      match calls[0]
      case Again =>
      case Other => ReadEndsAsDecided(b1, stream, calls[1..]);
      case Got(most) =>
        var n := Min(Min(most, b1.Slack()), |stream|);
        ArriveRecorded(b1, stream[..n]);
        FullReadKeepsRoom(b1, stream[..n]);
        if 0 < n == b1.Slack() {
          ReadEndsAsDecided(Arrive(b1, stream[..n]), stream[n..], calls[1..]);
        }
    }
  }

  lemma FullReadKeepsRoom(b: Buf, bytes: seq<byte>)
    requires b.Valid() && |bytes| <= b.Slack()
    ensures |bytes| == b.Slack() > 0 ==> Grown(Arrive(b, bytes)).Slack() == b.Slack()
  {
  }

  /** A buffer without room is doubled, and one with room is left alone. */
  lemma NoRoomDoubles(b: Buf)
    requires b.Valid()
    ensures if b.Slack() > 0 then Grown(b) == b
            else |Grown(b).store| == 2 * |b.store| && Grown(b).Contents() == b.Contents()
                 && Grown(b).Slack() == |b.store| + b.r
  {
    ResizeContents(b, 2 * |b.store|);
    hide Resize;
  }

  /** A reading loop never records more than it took. */
  lemma {:induction false} ReadShrinks(b: Buf, stream: seq<byte>, calls: seq<ReadCall>)
    requires b.Valid()
    ensures var o := ReadLoop(b, stream, calls);
            |o.buf.Contents()| <= |b.Contents()| + o.taken
    decreases |calls|
  {
    if calls != [] {
      var b1 := Grown(b);
      match calls[0]
      case Again =>
      case Other => ReadShrinks(b1, stream, calls[1..]);
      case Got(most) =>
        var n := Min(Min(most, b1.Slack()), |stream|);
        ArriveRecorded(b1, stream[..n]);
        if n != 0 && n == b1.Slack() {
          ReadShrinks(Arrive(b1, stream[..n]), stream[n..], calls[1..]);
        }
    }
  }

  // ---------------------------------------------------------------- writing

  /** What a write call does. Wrote: that many bytes at most. `late`: the call's timer has gone off. */
  datatype WriteCall = Wrote(most: nat, late: bool) | WriteAgain | WriteOther(late: bool)

  /** `late`: the loop was left because the timer had gone off. */
  datatype WriteOutcome = WriteOutcome(sent: seq<byte>, all: bool, late: bool)

  /** The loop of onWrite: every write call starts again at the same read index. */
  ghost function WriteLoop(unread: seq<byte>, calls: seq<WriteCall>): WriteOutcome {
    if unread == [] then WriteOutcome([], true, false)
    else if calls == [] then WriteOutcome([], false, false)
    else
      match calls[0]
      case WriteAgain => WriteOutcome([], false, false)
      case WriteOther(late) => if late then WriteOutcome([], false, true) else WriteLoop(unread, calls[1..])
      case Wrote(most, late) =>
        if most >= |unread| then WriteOutcome(unread, true, false)
        else if late then WriteOutcome(unread[..most], false, true)
        else
          SentBefore(unread[..most], WriteLoop(unread, calls[1..]))
  }

  ghost function SentBefore(front: seq<byte>, o: WriteOutcome): WriteOutcome { o.(sent := front + o.sent) }

  /** What one more write call does to a loop that has already sent `sent`. */
  lemma WriteRound(sent: seq<byte>, unread: seq<byte>, calls: seq<WriteCall>)
    requires unread != [] && calls != []
    ensures var more := if calls[0].Wrote? then sent + unread[..Min(calls[0].most, |unread|)] else sent;
            SentBefore(sent, WriteLoop(unread, calls))
            == if calls[0].Wrote? && calls[0].most >= |unread| then WriteOutcome(more, true, false)
               else if calls[0].WriteAgain? then WriteOutcome(more, false, false)
               else if calls[0].late then WriteOutcome(more, false, true)
               else SentBefore(more, WriteLoop(unread, calls[1..]))
  {
    assert sent + [] == sent && unread[..|unread|] == unread;
    if calls[0].Wrote? && calls[0].most < |unread| {
      var front, o := unread[..calls[0].most], WriteLoop(unread, calls[1..]);
      assert (sent + front) + o.sent == sent + (front + o.sent);
    }
  }

  lemma WriteEnd(sent: seq<byte>, unread: seq<byte>, calls: seq<WriteCall>)
    requires unread == [] || calls == []
    ensures SentBefore(sent, WriteLoop(unread, calls)) == WriteOutcome(sent, unread == [], false)
  {
    assert sent + [] == sent;
  }

  lemma NothingSent(o: WriteOutcome)
    ensures SentBefore([], o) == o
  {
    assert [] + o.sent == o.sent;
  }

  /** Short writes repeat the front: a loop that ends well has sent the whole buffer behind whatever the
      short writes before the last one had already sent of it. */
  lemma {:induction false} WriteEndsWithAll(unread: seq<byte>, calls: seq<WriteCall>)
    requires WriteLoop(unread, calls).all
    ensures var sent := WriteLoop(unread, calls).sent;
            |unread| <= |sent| && sent[|sent| - |unread|..] == unread
  {
    if unread != [] && calls[0].Wrote? && calls[0].most < |unread| {
      WriteEndsWithAll(unread, calls[1..]);
      var o := WriteLoop(unread, calls[1..]);
      var sent := WriteLoop(unread, calls).sent;
      assert sent[|sent| - |unread|..] == o.sent[|o.sent| - |unread|..];
    } else if unread != [] && calls[0].WriteOther? {
      WriteEndsWithAll(unread, calls[1..]);
    }
  }

  /** The call neither writes everything nor ends the loop. */
  predicate GoesRound(unread: seq<byte>, call: WriteCall) {
    match call
    case Wrote(most, late) => most < |unread| && !late
    case WriteAgain => false
    case WriteOther(late) => !late
  }

  predicate WritesAll(unread: seq<byte>, call: WriteCall) { call.Wrote? && call.most >= |unread| }

  /** The first write call that does not go round. */
  function LastCall(unread: seq<byte>, calls: seq<WriteCall>): Option<WriteCall> {
    if calls == [] then None
    else if GoesRound(unread, calls[0]) then LastCall(unread, calls[1..])
    else Some(calls[0])
  }

  predicate TimedOut(unread: seq<byte>, call: WriteCall) {
    !call.WriteAgain? && call.late && !WritesAll(unread, call)
  }

  /** The loop has ended well exactly if there was nothing to write or the first call that did not go round
      wrote everything; it was left for the timer exactly if that call found the timer gone off. */
  lemma {:induction false} WriteEndsIff(unread: seq<byte>, calls: seq<WriteCall>)
    ensures var o, last := WriteLoop(unread, calls), LastCall(unread, calls);
            && (o.all <==> unread == [] || (last.Some? && WritesAll(unread, last.value)))
            && (o.late <==> unread != [] && last.Some? && TimedOut(unread, last.value))
    decreases |calls|
  {
    if unread != [] && calls != [] {
      WriteEndsIff(unread, calls[1..]);
    }
  }

  /** What a loop sends is the front of the unread bytes over and over: one write call at least sends as
      many bytes as the socket takes. */
  lemma FirstWriteSends(unread: seq<byte>, calls: seq<WriteCall>)
    requires unread != [] && calls != [] && calls[0].Wrote?
    ensures unread[..Min(calls[0].most, |unread|)] <= WriteLoop(unread, calls).sent
  {
  }

  // ---------------------------------------------------------------- executing

  ghost function Replies(reg: Registry, reqs: seq<TinyPB>): (rs: seq<TinyPB>)
    ensures |rs| == |reqs|
    ensures forall i :: 0 <= i < |reqs| ==> rs[i] == ReplyTo(reg, reqs[i])
  {
    if reqs == [] then [] else Replies(reg, reqs[..|reqs| - 1]) + [ReplyTo(reg, reqs[|reqs| - 1])]
  }

  /** The answer to the request has a frame that can be announced. */
  ghost predicate Answerable(reg: Registry, req: TinyPB) { Fits(WithId(ReplyTo(reg, req))) }

  ghost predicate AllAnswerable(reg: Registry, reqs: seq<TinyPB>) {
    forall i :: 0 <= i < |reqs| ==> Answerable(reg, reqs[i])
  }

  /** The services answer no request with more bytes than it has. */
  ghost predicate AnswersAreShort(reg: Registry) {
    forall name, rpc, data :: name in reg && reg[name].find(rpc).Some? ==> ShortAnswer(reg[name].find(rpc).value, data)
  }

  ghost predicate ShortAnswer(rpc: RpcMethod, data: seq<byte>) { |rpc.call(data).data| <= |data| }

  /** Such services can answer every request whose frame leaves room for the longest error text. */
  lemma ShortAnswersFit(reg: Registry, req: TinyPB)
    requires AnswersAreShort(reg) && FrameLen(req) + 24 <= INT32_MAX && req.msgId != []
    ensures Answerable(reg, req)
  {
    ErrorTextLen(ReplyTo(reg, req).errCode);
    hide ErrorText, FirstDot;
    var name, dot := req.methodName, FirstDot(req.methodName);
    if dot < |name| && name[..dot] in reg && reg[name[..dot]].find(name[dot + 1..]).Some? {
      assert ShortAnswer(reg[name[..dot]].find(name[dot + 1..]).value, req.pbData);
    }
  }

  lemma ErrorTextLen(code: int32)
    ensures |ErrorText(code)| <= 24
  {
  }

  /** std::map::insert: the first reply under an id stays. */
  ghost function Inserted(replies: map<seq<byte>, TinyPB>, ms: seq<TinyPB>): map<seq<byte>, TinyPB>
  {
    if ms == [] then replies
    else
      var m, before := ms[|ms| - 1], Inserted(replies, ms[..|ms| - 1]);
      if m.msgId in before then before else before[m.msgId := m]
  }

  /** A reply is found under an id exactly if it was there or one with that id has come in, and it is the
      old one or the first one that came. */
  lemma {:induction false} InsertedKeepsFirst(replies: map<seq<byte>, TinyPB>, ms: seq<TinyPB>, id: seq<byte>)
    ensures var after := Inserted(replies, ms);
            && (id in after <==> id in replies || exists i :: 0 <= i < |ms| && ms[i].msgId == id)
            && (id in replies ==> after[id] == replies[id])
            && (id in after && id !in replies ==>
                  exists i :: 0 <= i < |ms| && ms[i].msgId == id && after[id] == ms[i]
                              && forall j :: 0 <= j < i ==> ms[j].msgId != id)
    decreases |ms|
  {
    if ms != [] {
      var init := ms[..|ms| - 1];
      InsertedKeepsFirst(replies, init, id);
      assert forall i :: 0 <= i < |init| ==> ms[i] == init[i];
    }
  }

  /** Whatever bytes arrive, a decoded message has texts that could be sent on. */
  lemma {:induction false} DecodedTextsFit(b: Buf)
    requires b.Valid()
    ensures forall i :: 0 <= i < |Decode(b).messages| ==> TextsFit(Decode(b).messages[i])
    decreases b.w - b.r
  {
    hide ParseFields, MoveRead, Scan;
    match Scan(b.store, b.r, b.w)
    case NoFrame =>
    case Outside =>
    case Found(start, end, pkLen) =>
      if 0 < pkLen && b.r + pkLen < |b.store| {
        DecodeRound(b, start, end, pkLen);
        ParsedTextsFit(b.store, start, end, pkLen);
        DecodedTextsFit(MoveRead(b, pkLen));
      }
  }

  lemma ParsedTextsFit(s: seq<byte>, start: nat, end: nat, pkLen: int32)
    requires end < |s|
    ensures var p := ParseFields(s, start, end, pkLen); p.Parsed? ==> TextsFit(p.message)
  {
  }

  lemma RepliesAllFit(reg: Registry, reqs: seq<TinyPB>)
    requires AllAnswerable(reg, reqs) && forall i :: 0 <= i < |reqs| ==> TextsFit(reqs[i])
    ensures AllFit(Replies(reg, reqs)) && AllSendable(Replies(reg, reqs))
  {
    forall i | 0 <= i < |reqs| ensures Sendable(Replies(reg, reqs)[i]) {
      ReplyTextsFit(reg, reqs[i]);
    }
  }

  lemma NothingRun(reg: Registry, b: Buf, replies: map<seq<byte>, TinyPB>)
    requires b.Valid()
    ensures Replies(reg, []) == [] && EncodeAll(b, []) == b && Inserted(replies, []) == replies
  {
  }

  // ---------------------------------------------------------------- the class

  datatype TcpState = NotConnected | Connected | HalfClosing | StateClosed

  /** The loop of onRead. */
  method ReadSocket(inBuffer: TcpBuffer, stream: seq<byte>, calls: seq<ReadCall>) returns (taken: nat, end: ReadEnd)
    requires inBuffer.Valid()
    modifies inBuffer, inBuffer.buffer
    ensures inBuffer.Valid() && (inBuffer.buffer == old(inBuffer.buffer) || fresh(inBuffer.buffer))
    ensures ReadOutcome(inBuffer.State(), taken, end) == ReadLoop(old(inBuffer.State()), stream, calls)
  {
    hide Fill, MoveWrite, Resize;
    taken, end := 0, Waiting;
    var stream', calls' := stream, calls;
    while true
      invariant inBuffer.Valid() && (inBuffer.buffer == old(inBuffer.buffer) || fresh(inBuffer.buffer))
      invariant ReadLoop(old(inBuffer.State()), stream, calls)
                == TakenBefore(taken, ReadLoop(inBuffer.State(), stream', calls'))
      decreases |calls'|
    {
      var writeAble := inBuffer.WriteAble();
      if writeAble == 0 {
        inBuffer.ResizeBuffer(2 * inBuffer.buffer.Length);
      }
      if calls' == [] {
        return taken, Waiting;
      }
      var readCount := inBuffer.WriteAble();
      var call := calls'[0];
      calls' := calls'[1..];
      if call.Again? {
        return taken, Finished;
      } else if call.Got? {
        var rt := Min(Min(call.most, readCount), |stream'|);
        if rt > 0 {
          inBuffer.StoreBytes(stream'[..rt]);
          inBuffer.MoveWriteIndex(rt);
          taken := taken + rt;
          if rt < readCount {
            return taken, Finished;
          }
          stream' := stream'[rt..];
        } else {
          return taken, Closed;
        }
      }
    }
  }

  class TcpConnection {
    const inBuffer: TcpBuffer
    const outBuffer: TcpBuffer
    const dispatcher: RpcDispatcher
    const byServer: bool
    var state: TcpState
    var stop: bool
    var isOverTime: bool
    var replyMsg: map<seq<byte>, TinyPB>

    ghost predicate Valid()
      reads this, inBuffer, outBuffer
    {
      && inBuffer != outBuffer && inBuffer.buffer != outBuffer.buffer
      && inBuffer.Valid() && outBuffer.Valid()
    }

    constructor (bufferSize: nat, dispatcher: RpcDispatcher, byServer: bool)
      ensures Valid() && fresh(inBuffer) && fresh(outBuffer) && fresh(inBuffer.buffer) && fresh(outBuffer.buffer)
      ensures inBuffer.State() == outBuffer.State() == Buf(Zeros(bufferSize), 0, 0)
      ensures this.dispatcher == dispatcher && this.byServer == byServer
      ensures state == (if byServer then Connected else NotConnected) && !stop && !isOverTime && replyMsg == map[]
    {
      this.dispatcher, this.byServer := dispatcher, byServer;
      state := if byServer then Connected else NotConnected;
      stop, isOverTime, replyMsg := false, false, map[];
      inBuffer := new TcpBuffer(bufferSize);
      outBuffer := new TcpBuffer(bufferSize);
    }

    /** Reads until the socket runs dry. `stream` is what the socket will deliver, `calls` what each read
        call meets; the method returns when they are used up. */
    method OnRead(stream: seq<byte>, calls: seq<ReadCall>) returns (taken: nat, end: ReadEnd)
      requires Valid()
      modifies this`state, this`stop, inBuffer, inBuffer.buffer
      ensures Valid() && (inBuffer.buffer == old(inBuffer.buffer) || fresh(inBuffer.buffer))
      ensures if old(state) != Connected
              then inBuffer.State() == old(inBuffer.State()) && state == old(state) && stop == old(stop)
              else
                && ReadOutcome(inBuffer.State(), taken, end) == ReadLoop(old(inBuffer.State()), stream, calls)
                && state == (if end == Closed then StateClosed else Connected)
                && stop == (old(stop) || end == Closed)
    {
      taken, end := 0, Waiting;
      if state != Connected {
        return;
      }
      taken, end := ReadSocket(inBuffer, stream, calls);
      if end == Closed {
        Clear();
      }
    }

    /** The state part of clear(); taking the descriptor out of the event loop is not repeated here. */
    method Clear()
      modifies this`state, this`stop
      ensures state == StateClosed && stop == (old(stop) || old(state) != StateClosed)
    {
      if state == StateClosed {
        return;
      }
      stop := true;
      state := StateClosed;
    }

    /** Runs what is complete in the in buffer: a server answers it into the out buffer, a client files it
        by id. Nothing is run when decode does not return. */
    method Excute() returns (status: Status)
      requires Valid()
      requires byServer ==> AllAnswerable(dispatcher.serviceMap, Decode(inBuffer.State()).messages)
      modifies this`replyMsg, inBuffer, inBuffer.buffer, outBuffer, outBuffer.buffer
      ensures Valid()
      ensures inBuffer.buffer == old(inBuffer.buffer) || fresh(inBuffer.buffer)
      ensures outBuffer.buffer == old(outBuffer.buffer) || fresh(outBuffer.buffer)
      ensures var d := Decode(old(inBuffer.State()));
              && inBuffer.State() == d.buf && status == d.status
              && var ran := if status == Drained then d.messages else [];
                 if byServer
                 then AllFit(Replies(dispatcher.serviceMap, ran))
                      && outBuffer.State() == EncodeAll(old(outBuffer.State()), Replies(dispatcher.serviceMap, ran))
                      && replyMsg == old(replyMsg)
                 else outBuffer.State() == old(outBuffer.State()) && replyMsg == Inserted(old(replyMsg), ran)
    {
      hide Decode, ReplyTo, Rounds, EncodeAll, Inserted, Answerable, TextsFit, Fits, WithId;
      DecodedTextsFit(inBuffer.State());
      ghost var rounds;
      var result;
      status, result, rounds := DecodeBuffer(inBuffer);
      if byServer { RepliesAllFit(dispatcher.serviceMap, result); }
      NothingRun(dispatcher.serviceMap, outBuffer.State(), replyMsg);
      if status != Drained {
        return;
      }
      if byServer {
        Answer(result);
      } else {
        File(result);
      }
    }

    method Answer(result: seq<TinyPB>)
      requires outBuffer.Valid() && AllFit(Replies(dispatcher.serviceMap, result))
      modifies outBuffer, outBuffer.buffer
      ensures outBuffer.Valid() && (outBuffer.buffer == old(outBuffer.buffer) || fresh(outBuffer.buffer))
      ensures outBuffer.State() == EncodeAll(old(outBuffer.State()), Replies(old(dispatcher.serviceMap), result))
    {
      hide ReplyTo, EncodeAll;
      var replayMessages := [];
      for i := 0 to |result|
        modifies {}
        invariant replayMessages == Replies(dispatcher.serviceMap, result[..i])
      {
        var message := BLANK;
        message := dispatcher.Dispatch(result[i], message);
        replayMessages := replayMessages + [message];
        assert result[..i + 1][..i] == result[..i];
      }
      assert result[..|result|] == result;
      var _ := Encode(replayMessages, outBuffer);
    }

    method File(result: seq<TinyPB>)
      modifies this`replyMsg
      ensures replyMsg == Inserted(old(replyMsg), result)
    {
      for i := 0 to |result|
        invariant replyMsg == Inserted(old(replyMsg), result[..i])
      {
        if result[i].msgId !in replyMsg {
          replyMsg := replyMsg[result[i].msgId := result[i]];
        }
        assert result[..i + 1][..i] == result[..i];
      }
      assert result[..|result|] == result;
    }

    /** Writes until everything unread has been written in one call. The read index stays where it is. */
    method OnWrite(calls: seq<WriteCall>) returns (sent: seq<byte>, all: bool)
      requires Valid()
      modifies this`isOverTime
      ensures if old(isOverTime) || state != Connected then sent == [] && !all && isOverTime == old(isOverTime)
              else WriteOutcome(sent, all, isOverTime) == WriteLoop(outBuffer.State().Contents(), calls)
    {
      sent, all := [], false;
      if isOverTime || state != Connected {
        return;
      }
      hide WriteLoop, SentBefore;
      var calls' := calls;
      ghost var unread := outBuffer.State().Contents();
      NothingSent(WriteLoop(unread, calls));
      while true
        invariant !isOverTime
        invariant WriteLoop(unread, calls) == SentBefore(sent, WriteLoop(unread, calls'))
        decreases |calls'|
      {
        var writeSize := outBuffer.ReadAble();
        if writeSize == 0 {
          WriteEnd(sent, unread, calls');
          return sent, true;
        }
        if calls' == [] {
          WriteEnd(sent, unread, calls');
          return sent, false;
        }
        WriteRound(sent, unread, calls');
        var call := calls'[0];
        calls' := calls'[1..];
        if call.Wrote? {
          var rt := Min(call.most, writeSize);
          var readIndex := outBuffer.readIndex;
          sent := sent + outBuffer.buffer[readIndex..readIndex + rt];
          SliceOfSlice(outBuffer.buffer[..], readIndex, outBuffer.writeIndex, 0, rt);
          assert unread[0..rt] == unread[..rt];
          if rt >= writeSize {
            return sent, true;
          }
        }
        if call.WriteAgain? {
          return sent, false;
        }
        if call.late {
          isOverTime := true;
          return sent, false;
        }
      }
    }

    method GetResPackageData(msgId: seq<byte>) returns (reply: Option<TinyPB>)
      modifies this`replyMsg
      ensures if msgId in old(replyMsg) then reply == Some(old(replyMsg)[msgId]) && replyMsg == old(replyMsg) - {msgId}
              else reply == None && replyMsg == old(replyMsg)
    {
      if msgId in replyMsg {
        reply := Some(replyMsg[msgId]);
        replyMsg := replyMsg - {msgId};
      } else {
        reply := None;
      }
    }
  }
}
