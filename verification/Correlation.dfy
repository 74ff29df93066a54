/** A client and a server on one connection, byte by byte: whatever reply the client files under an id
    answers the request sent under that id. */
module Correlations {
  import opened Bytes
  import opened TcpBuffers
  import opened TinyPBs
  import opened Coders
  import opened Streams
  import opened Dispatchers
  import opened Connections

  type Replies' = map<seq<byte>, TinyPB>

  /** The buffers of both ends, the bytes on the wire in both directions, the replies the client has
      filed, and every request it has encoded so far. */
  datatype Net = Net(clientOut: Buf, toServer: seq<byte>, serverIn: Buf,
                     serverOut: Buf, toClient: seq<byte>, clientIn: Buf,
                     replies: Replies', sent: seq<TinyPB>)

  ghost function Initial(clientSize: nat, serverSize: nat): Net {
    Net(Buf(Zeros(clientSize), 0, 0), [], Buf(Zeros(serverSize), 0, 0),
        Buf(Zeros(serverSize), 0, 0), [], Buf(Zeros(clientSize), 0, 0), map[], [])
  }

  /** Each write step delivers the whole unread out buffer, which stays as it is, so that the next write
      delivers it again. */
  datatype Step = Send(m: TinyPB) | ClientWrite | ServerRead(n: nat) | ServerExcute
                | ServerWrite | ClientRead(k: nat) | ClientExcute | Take(id: seq<byte>)

  ghost predicate AllValid(net: Net) {
    net.clientOut.Valid() && net.serverIn.Valid() && net.serverOut.Valid() && net.clientIn.Valid()
  }

  /** A message that can be sent as a request, and whose answer can be sent back. */
  ghost predicate Ask(reg: Registry, m: TinyPB) { Sendable(m) && Answerable(reg, Received(WithId(m))) }

  ghost predicate AllAsks(reg: Registry, ms: seq<TinyPB>) {
    forall i :: 0 <= i < |ms| ==> Ask(reg, ms[i])
  }

  /** A request may be encoded under an id that was not used before; reads are short reads; decode is
      called on a quiet tail. */
  ghost predicate Enabled(reg: Registry, net: Net, s: Step)
    requires AllValid(net)
  {
    match s
    case Send(m) => Ask(reg, m) && forall i :: 0 <= i < |net.sent| ==> WithId(net.sent[i]).msgId != WithId(m).msgId
    case ServerRead(n) => n <= |net.toServer| && n < net.serverIn.Slack()
    case ClientRead(n) => n <= |net.toClient| && n < net.clientIn.Slack()
    case ServerExcute => Quiet(Rest(net.serverIn))
    case ClientExcute => Quiet(Rest(net.clientIn))
    case _ => true
  }

  /** A server that decodes a request it cannot answer in a frame does nothing here; StepKeeps shows that
      it never does. */
  ghost function Next(reg: Registry, net: Net, s: Step): (net': Net)
    requires AllValid(net) && Enabled(reg, net, s)
    ensures AllValid(net')
  {
    match s
    case Send(m) => net.(clientOut := EncodeAll(net.clientOut, [m]), sent := net.sent + [m])
    case ClientWrite => net.(toServer := net.toServer + net.clientOut.Contents())
    case ServerRead(n) => net.(serverIn := Arrive(net.serverIn, net.toServer[..n]), toServer := net.toServer[n..])
    case ServerExcute =>
      var d := Decode(net.serverIn);
      DecodedTextsFit(net.serverIn);
      if AllAnswerable(reg, d.messages) then
        RepliesAllFit(reg, d.messages);
        net.(serverIn := d.buf, serverOut := EncodeAll(net.serverOut, Connections.Replies(reg, d.messages)))
      else
        net.(serverIn := d.buf)
    case ServerWrite => net.(toClient := net.toClient + net.serverOut.Contents())
    case ClientRead(n) => net.(clientIn := Arrive(net.clientIn, net.toClient[..n]), toClient := net.toClient[n..])
    case ClientExcute =>
      var d := Decode(net.clientIn);
      net.(clientIn := d.buf, replies := Inserted(net.replies, d.messages))
    case Take(id) => net.(replies := net.replies - {id})
  }

  // ---------------------------------------------------------------- the invariant

  /** The answer of the dispatcher to the request as the server receives it. */
  ghost function ReplyFor(reg: Registry, m: TinyPB): TinyPB
    requires Sendable(m)
  {
    ReplyTo(reg, Received(WithId(m)))
  }

  /** The same as the client receives it. */
  ghost function AnswerFor(reg: Registry, m: TinyPB): TinyPB
    requires Ask(reg, m)
  {
    Received(WithId(ReplyFor(reg, m)))
  }

  ghost predicate Requests(sent: seq<TinyPB>, l: seq<TinyPB>) {
    forall i :: 0 <= i < |l| ==> l[i] in sent
  }

  ghost predicate IsReply(reg: Registry, sent: seq<TinyPB>, r: TinyPB)
    requires AllSendable(sent)
  {
    exists i :: 0 <= i < |sent| && r == ReplyFor(reg, sent[i])
  }

  ghost predicate AllReplies(reg: Registry, sent: seq<TinyPB>, l: seq<TinyPB>)
    requires AllSendable(sent)
  {
    forall i :: 0 <= i < |l| ==> IsReply(reg, sent, l[i])
  }

  ghost predicate Filed(reg: Registry, sent: seq<TinyPB>, id: seq<byte>, reply: TinyPB)
    requires AllAsks(reg, sent)
  {
    exists i :: 0 <= i < |sent| && WithId(sent[i]).msgId == id && reply == AnswerFor(reg, sent[i])
  }

  /** One direction: what the receiver holds and the wire will bring are the frames of `l`. */
  ghost predicate Carries(b: Buf, wire: seq<byte>, l: seq<TinyPB>) {
    Ready(b) && AllSendable(l) && b.Contents() + wire == Frames(l)
  }

  /** `asks` and `answers` are on their way, `answered` is in the server's out buffer. */
  ghost predicate Inv(reg: Registry, net: Net, asks: seq<TinyPB>, answered: seq<TinyPB>, answers: seq<TinyPB>) {
    && AllValid(net) && AllAsks(reg, net.sent) && AllSendable(net.sent)
    && net.clientOut.Contents() == Frames(net.sent)
    && Carries(net.serverIn, net.toServer, asks) && Requests(net.sent, asks)
    && AllSendable(answered) && net.serverOut.Contents() == Frames(answered) && AllReplies(reg, net.sent, answered)
    && Carries(net.clientIn, net.toClient, answers) && AllReplies(reg, net.sent, answers)
    && (forall id :: id in net.replies ==> Filed(reg, net.sent, id, net.replies[id]))
    && DistinctIds(net.sent)
  }

  ghost predicate DistinctIds(sent: seq<TinyPB>) {
    forall i, j :: 0 <= i < j < |sent| ==> WithId(sent[i]).msgId != WithId(sent[j]).msgId
  }

  // ---------------------------------------------------------------- one direction at a time

  lemma WriteCarries(b: Buf, wire: seq<byte>, l: seq<TinyPB>, out: seq<TinyPB>)
    requires Carries(b, wire, l) && AllSendable(out)
    ensures Carries(b, wire + Frames(out), l + out)
  {
    hide Frames;
    FramesConcat(l, out);
    assert b.Contents() + (wire + Frames(out)) == (b.Contents() + wire) + Frames(out);
  }

  lemma ReadCarries(b: Buf, wire: seq<byte>, l: seq<TinyPB>, n: nat)
    requires Carries(b, wire, l) && n <= |wire| && n < b.Slack()
    ensures Carries(Arrive(b, wire[..n]), wire[n..], l)
  {
    hide Frames;
    ArriveRecorded(b, wire[..n]);
    assert (b.Contents() + wire[..n]) + wire[n..] == b.Contents() + wire;
  }

  lemma DecodeCarries(b: Buf, wire: seq<byte>, l: seq<TinyPB>) returns (k: nat)
    requires Carries(b, wire, l) && Quiet(Rest(b))
    ensures k <= |l| && Decode(b).status == Drained && Decode(b).messages == Delivered(l[..k])
    ensures Carries(Decode(b).buf, wire, l[k..]) && k == Whole(l, |b.Contents()|)
  {
    hide Frames, Decode, Quiet, Rest, TakeFrames, TotalLen;
    k := Whole(l, |b.Contents()|);
    var t := WholeSplit(l, b.Contents(), wire);
    RestTakes(b, l[..k], t);
    DecodeStream(b, l[..k], t);
  }

  /** Replies to requests received from the sent ones are replies, and can be sent. */
  lemma AnswersAreReplies(reg: Registry, sent: seq<TinyPB>, l: seq<TinyPB>)
    requires AllAsks(reg, sent) && AllSendable(sent) && AllSendable(l) && Requests(sent, l)
    ensures AllAnswerable(reg, Delivered(l))
    ensures var rs := Connections.Replies(reg, Delivered(l));
            AllReplies(reg, sent, rs) && AllSendable(rs)
  {
    hide ReplyTo, Received, WithId, Answerable;
    var ds := Delivered(l);
    forall i | 0 <= i < |l|
      ensures IsReply(reg, sent, Connections.Replies(reg, ds)[i]) && TextsFit(ds[i]) && Answerable(reg, ds[i])
    {
      var j :| 0 <= j < |sent| && sent[j] == l[i];
      assert Ask(reg, sent[j]);
      assert Connections.Replies(reg, ds)[i] == ReplyFor(reg, sent[j]);
      DeliveredTextsFit(l[i]);
    }
    RepliesAllFit(reg, ds);
  }

  lemma DeliveredTextsFit(m: TinyPB)
    requires Sendable(m)
    ensures TextsFit(Received(WithId(m)))
  {
  }

  /** A reply that comes in is filed under the id of its request. */
  lemma InsertedAreFiled(reg: Registry, sent: seq<TinyPB>, replies: Replies', l: seq<TinyPB>, id: seq<byte>)
    requires AllAsks(reg, sent) && AllSendable(sent) && AllSendable(l) && AllReplies(reg, sent, l)
    requires id in replies ==> Filed(reg, sent, id, replies[id])
    requires id in Inserted(replies, Delivered(l))
    ensures Filed(reg, sent, id, Inserted(replies, Delivered(l))[id])
  {
    hide ReplyTo;
    var ds := Delivered(l);
    InsertedKeepsFirst(replies, ds, id);
    if id !in replies {
      var i :| 0 <= i < |ds| && ds[i].msgId == id && Inserted(replies, ds)[id] == ds[i];
      assert IsReply(reg, sent, l[i]);
      var j :| 0 <= j < |sent| && l[i] == ReplyFor(reg, sent[j]);
      assert Ask(reg, sent[j]);
      EchoesId(reg, sent[j]);
      assert WithId(sent[j]).msgId == id && ds[i] == AnswerFor(reg, sent[j]);
    }
  }

  /** The answer comes under the id of its request, the default only if that has none. */
  lemma EchoesId(reg: Registry, m: TinyPB)
    requires Ask(reg, m)
    ensures AnswerFor(reg, m).msgId == WithId(m).msgId
    ensures m.msgId != [] ==> AnswerFor(reg, m).msgId == m.msgId
  {
    OnlyEmptyIdsReplaced(m);
  }

  /** The answer names the method of its request and says what became of it: the code and payload of the
      dispatch of what was sent. */
  lemma AnswerSays(reg: Registry, m: TinyPB)
    requires Ask(reg, m)
    ensures var a := AnswerFor(reg, m);
            && a.methodName == m.methodName
            && (a.errCode, a.pbData) == Outcome(reg, m.methodName, m.pbData)
            && a.errInfo == ErrorText(a.errCode) && a.parseSuccess
  {
    hide Outcome, ErrorText;
  }

  // ---------------------------------------------------------------- every step keeps it

  lemma SentGrows(reg: Registry, sent: seq<TinyPB>, m: TinyPB, l: seq<TinyPB>)
    requires AllAsks(reg, sent) && AllSendable(sent) && Ask(reg, m)
    ensures AllAsks(reg, sent + [m]) && AllSendable(sent + [m])
    ensures Requests(sent, l) ==> Requests(sent + [m], l)
    ensures AllReplies(reg, sent, l) ==> AllReplies(reg, sent + [m], l)
  {
    hide ReplyFor;
    if AllReplies(reg, sent, l) {
      forall i | 0 <= i < |l| ensures IsReply(reg, sent + [m], l[i]) {
        assert IsReply(reg, sent, l[i]);
        var j :| 0 <= j < |sent| && l[i] == ReplyFor(reg, sent[j]);
        assert (sent + [m])[j] == sent[j];
      }
    }
  }

  lemma FiledStays(reg: Registry, sent: seq<TinyPB>, m: TinyPB, id: seq<byte>, reply: TinyPB)
    requires AllAsks(reg, sent) && Ask(reg, m) && Filed(reg, sent, id, reply)
    ensures AllAsks(reg, sent + [m]) && Filed(reg, sent + [m], id, reply)
  {
    hide AnswerFor;
    var j :| 0 <= j < |sent| && WithId(sent[j]).msgId == id && reply == AnswerFor(reg, sent[j]);
    assert (sent + [m])[j] == sent[j];
  }

  lemma SendKeeps(reg: Registry, net: Net, m: TinyPB, asks: seq<TinyPB>, answered: seq<TinyPB>, answers: seq<TinyPB>)
    requires Inv(reg, net, asks, answered, answers) && Enabled(reg, net, Send(m))
    ensures Inv(reg, Next(reg, net, Send(m)), asks, answered, answers)
  {
    hide Frames, Requests, AllReplies, Filed, Carries, EncodeAll, WithId, Fits, TextsFit;
    SentGrows(reg, net.sent, m, asks);
    SentGrows(reg, net.sent, m, answered);
    SentGrows(reg, net.sent, m, answers);
    forall id | id in net.replies ensures Filed(reg, net.sent + [m], id, net.replies[id]) {
      FiledStays(reg, net.sent, m, id, net.replies[id]);
    }
    EncodeContents(net.clientOut, [m]);
    FramesConcat(net.sent, [m]);
  }

  lemma ServerExcuteKeeps(reg: Registry, net: Net, asks: seq<TinyPB>, answered: seq<TinyPB>, answers: seq<TinyPB>)
    returns (asks': seq<TinyPB>, answered': seq<TinyPB>)
    requires Inv(reg, net, asks, answered, answers) && Enabled(reg, net, ServerExcute)
    ensures Inv(reg, Next(reg, net, ServerExcute), asks', answered', answers)
    ensures var k := Whole(asks, |net.serverIn.Contents()|);
            asks' == asks[k..] && answered' == answered + Connections.Replies(reg, Delivered(asks[..k]))
  {
    hide Frames, IsReply, Filed, EncodeAll, Decode, Delivered, DistinctIds, Quiet, Fits, TextsFit, WithId;
    var k := DecodeCarries(net.serverIn, net.toServer, asks);
    var rs := Connections.Replies(reg, Delivered(asks[..k]));
    AnswersAreReplies(reg, net.sent, asks[..k]);
    EncodeContents(net.serverOut, rs);
    FramesConcat(answered, rs);
    asks', answered' := asks[k..], answered + rs;
    MoreReplies(reg, net.sent, answered, rs);
    FewerRequests(net.sent, asks, k);
    hide AllReplies, Requests, Carries, AllAsks;
  }

  lemma MoreReplies(reg: Registry, sent: seq<TinyPB>, a: seq<TinyPB>, b: seq<TinyPB>)
    requires AllSendable(sent) && AllReplies(reg, sent, a) && AllReplies(reg, sent, b)
    requires AllSendable(a) && AllSendable(b)
    ensures AllReplies(reg, sent, a + b) && AllSendable(a + b)
  {
    hide IsReply, Sendable;
  }

  lemma FewerRequests(sent: seq<TinyPB>, l: seq<TinyPB>, k: nat)
    requires Requests(sent, l) && k <= |l|
    ensures Requests(sent, l[k..])
  {
  }

  lemma ClientExcuteKeeps(reg: Registry, net: Net, asks: seq<TinyPB>, answered: seq<TinyPB>, answers: seq<TinyPB>)
    returns (answers': seq<TinyPB>)
    requires Inv(reg, net, asks, answered, answers) && Enabled(reg, net, ClientExcute)
    ensures Inv(reg, Next(reg, net, ClientExcute), asks, answered, answers')
  {
    hide Frames, IsReply, Filed, Decode, Delivered, Inserted, DistinctIds, Quiet, Fits, TextsFit, WithId;
    var k := DecodeCarries(net.clientIn, net.toClient, answers);
    answers' := answers[k..];
    var after := Next(reg, net, ClientExcute).replies;
    forall id | id in after ensures Filed(reg, net.sent, id, after[id]) {
      InsertedAreFiled(reg, net.sent, net.replies, answers[..k], id);
    }
  }

  lemma StepKeeps(reg: Registry, net: Net, s: Step, asks: seq<TinyPB>, answered: seq<TinyPB>, answers: seq<TinyPB>)
    returns (asks': seq<TinyPB>, answered': seq<TinyPB>, answers': seq<TinyPB>)
    requires Inv(reg, net, asks, answered, answers) && Enabled(reg, net, s)
    ensures Inv(reg, Next(reg, net, s), asks', answered', answers')
  {
    hide Frames, IsReply, Filed, Carries, EncodeAll, Decode, DistinctIds, Quiet, Fits, TextsFit, WithId, Inserted;
    asks', answered', answers' := asks, answered, answers;
    match s {
      case Send(m) => SendKeeps(reg, net, m, asks, answered, answers);
      case ClientWrite =>
        WriteCarries(net.serverIn, net.toServer, asks, net.sent);
        asks' := asks + net.sent;
      case ServerRead(n) => ReadCarries(net.serverIn, net.toServer, asks, n);
      case ServerExcute => asks', answered' := ServerExcuteKeeps(reg, net, asks, answered, answers);
      case ServerWrite =>
        WriteCarries(net.clientIn, net.toClient, answers, answered);
        answers' := answers + answered;
      case ClientRead(n) => ReadCarries(net.clientIn, net.toClient, answers, n);
      case ClientExcute => answers' := ClientExcuteKeeps(reg, net, asks, answered, answers);
      case Take(id) =>
    }
  }

  // ---------------------------------------------------------------- whole runs

  ghost predicate RunEnabled(reg: Registry, net: Net, steps: seq<Step>)
    requires AllValid(net)
    decreases |steps|
  {
    steps == [] || (Enabled(reg, net, steps[0]) && RunEnabled(reg, Next(reg, net, steps[0]), steps[1..]))
  }

  ghost function Run(reg: Registry, net: Net, steps: seq<Step>): Net
    requires AllValid(net) && RunEnabled(reg, net, steps)
    decreases |steps|
  {
    if steps == [] then net else Run(reg, Next(reg, net, steps[0]), steps[1..])
  }

  lemma {:induction false} RunKeeps(reg: Registry, net: Net, steps: seq<Step>,
                                    asks: seq<TinyPB>, answered: seq<TinyPB>, answers: seq<TinyPB>)
    returns (asks': seq<TinyPB>, answered': seq<TinyPB>, answers': seq<TinyPB>)
    requires Inv(reg, net, asks, answered, answers) && RunEnabled(reg, net, steps)
    ensures Inv(reg, Run(reg, net, steps), asks', answered', answers')
    decreases |steps|
  {
    hide Next, Enabled;
    if steps == [] {
      asks', answered', answers' := asks, answered, answers;
    } else {
      asks', answered', answers' := StepKeeps(reg, net, steps[0], asks, answered, answers);
      asks', answered', answers' := RunKeeps(reg, Next(reg, net, steps[0]), steps[1..], asks', answered', answers');
    }
  }

  /** End to end, over every run from two fresh connections: a reply the client can take under an id is
      the dispatcher's answer to the one request that was sent under that id, however often frames were
      written again and answered again; and no reply is filed under an id that was not sent. */
  lemma RepliesAnswerTheirRequests(reg: Registry, clientSize: nat, serverSize: nat, steps: seq<Step>)
    requires 0 < clientSize <= INT32_MAX && 0 < serverSize <= INT32_MAX
    requires RunEnabled(reg, Initial(clientSize, serverSize), steps)
    ensures var net := Run(reg, Initial(clientSize, serverSize), steps);
            && AllAsks(reg, net.sent)
            && (forall i :: 0 <= i < |net.sent| && WithId(net.sent[i]).msgId in net.replies
                  ==> net.replies[WithId(net.sent[i]).msgId] == AnswerFor(reg, net.sent[i]))
            && (forall i :: 0 <= i < |net.sent| && net.sent[i].msgId != [] && net.sent[i].msgId in net.replies
                  ==> net.replies[net.sent[i].msgId] == AnswerFor(reg, net.sent[i])
                      && AnswerFor(reg, net.sent[i]).msgId == net.sent[i].msgId)
            && (forall id :: id in net.replies
                  ==> exists i :: 0 <= i < |net.sent| && WithId(net.sent[i]).msgId == id)
  {
    hide Next, Enabled, Frames, AllReplies, Carries, AnswerFor, WithId, Fits, TextsFit;
    var init := Initial(clientSize, serverSize);
    InitialInv(reg, clientSize, serverSize);
    var a, b, c := RunKeeps(reg, init, steps, [], [], []);
    var net := Run(reg, init, steps);
    forall i | 0 <= i < |net.sent| && WithId(net.sent[i]).msgId in net.replies
      ensures net.replies[WithId(net.sent[i]).msgId] == AnswerFor(reg, net.sent[i])
    {
      var id := WithId(net.sent[i]).msgId;
      assert Filed(reg, net.sent, id, net.replies[id]);
    }
    forall i | 0 <= i < |net.sent| && net.sent[i].msgId != []
      ensures WithId(net.sent[i]).msgId == net.sent[i].msgId && AnswerFor(reg, net.sent[i]).msgId == net.sent[i].msgId
    {
      assert Ask(reg, net.sent[i]);
      OnlyEmptyIdsReplaced(net.sent[i]);
      EchoesId(reg, net.sent[i]);
    }
    forall id | id in net.replies
      ensures exists i :: 0 <= i < |net.sent| && WithId(net.sent[i]).msgId == id
    {
      assert Filed(reg, net.sent, id, net.replies[id]);
    }
  }

  lemma InitialInv(reg: Registry, clientSize: nat, serverSize: nat)
    requires 0 < clientSize <= INT32_MAX && 0 < serverSize <= INT32_MAX
    ensures Inv(reg, Initial(clientSize, serverSize), [], [], [])
  {
  }

  // ---------------------------------------------------------------- one pass of the server

  /** A server that finds any list of requests complete in its in buffer, behind them an incomplete frame
      that is quiet there, appends to its out buffer, whatever that still holds, the frames of one reply to
      each, in order, and leaves the incomplete frame. A peer that gets the appended bytes decodes exactly
      those replies. */
  lemma ServerAnswersAll(reg: Registry, serverIn: Buf, serverOut: Buf, peer: Buf, reqs: seq<TinyPB>, tail: seq<byte>)
    returns (appended: seq<byte>)
    requires Ready(serverIn) && AllAsks(reg, reqs) && AllSendable(reqs)
    requires serverIn.Contents() == Frames(reqs) + tail
    requires TotalLen(reqs) <= serverIn.w - serverIn.r && Quiet(TakeFrames(serverIn, reqs))
    requires serverOut.Valid() && Ready(peer)
    ensures var rs := Connections.Replies(reg, Decode(serverIn).messages);
            && Decode(serverIn).status == Drained && Decode(serverIn).buf.Contents() == tail
            && |rs| == |reqs| && AllSendable(rs)
            && (forall i :: 0 <= i < |reqs| ==> rs[i] == ReplyFor(reg, reqs[i]))
            && EncodeAll(serverOut, rs).Contents() == serverOut.Contents() + appended && appended == Frames(rs)
            && (peer.Contents() == appended ==>
                  Decode(peer).status == Drained && Decode(peer).messages == Delivered(rs)
                  && Decode(peer).buf.Contents() == [])
  {
    hide Frames, Decode, ReplyTo, Quiet, EncodeAll, Fits, TextsFit, WithId, Received, TakeFrames, TotalLen, Answerable;
    DecodeStream(serverIn, reqs, tail);
    forall i | 0 <= i < |reqs| ensures TextsFit(Delivered(reqs)[i]) && Answerable(reg, Delivered(reqs)[i]) {
      DeliveredTextsFit(reqs[i]);
      assert Ask(reg, reqs[i]);
    }
    RepliesAllFit(reg, Delivered(reqs));
    var rs := Connections.Replies(reg, Delivered(reqs));
    EncodeContents(serverOut, rs);
    appended := Frames(rs);
    if peer.Contents() == appended { PeerDecodes(peer, rs); }
  }

  lemma PeerDecodes(peer: Buf, rs: seq<TinyPB>)
    requires Ready(peer) && AllSendable(rs) && peer.Contents() == Frames(rs)
    ensures Decode(peer).status == Drained && Decode(peer).messages == Delivered(rs)
    ensures Decode(peer).buf.Contents() == []
  {
    hide Frames, Decode, Quiet, TakeFrames, TotalLen, Delivered;
    assert Frames(rs) + [] == Frames(rs);
    DecodeStream(peer, rs, []);
    NothingIsQuiet(TakeFrames(peer, rs));
  }

  /** A peer that gets the whole out buffer, replies of earlier passes first, decodes those again and then
      the appended ones. */
  lemma ResendsComeFirst(serverOut: Buf, peer: Buf, earlier: seq<TinyPB>, rs: seq<TinyPB>)
    requires serverOut.Valid() && AllSendable(earlier) && AllSendable(rs) && serverOut.Contents() == Frames(earlier)
    requires Ready(peer) && peer.Contents() == EncodeAll(serverOut, rs).Contents()
    ensures Decode(peer).status == Drained && Decode(peer).messages == Delivered(earlier) + Delivered(rs)
    ensures Decode(peer).buf.Contents() == []
    ensures EncodeAll(serverOut, rs).Contents() == Frames(earlier + rs)
  {
    hide Frames, Decode, EncodeAll, Received, WithId, Fits, TextsFit, Delivered;
    EncodeContents(serverOut, rs);
    FramesConcat(earlier, rs);
    DeliveredConcat(earlier, rs);
    PeerDecodes(peer, earlier + rs);
  }

  // ---------------------------------------------------------------- replies do come

  /** A server's pass appends to its out buffer one reply for each complete request in its in buffer, in
      order, and leaves what is not complete. */
  lemma ServerPassAnswers(reg: Registry, net: Net, asks: seq<TinyPB>, answered: seq<TinyPB>, answers: seq<TinyPB>)
    returns (reqs: seq<TinyPB>, tail: seq<byte>)
    requires Inv(reg, net, asks, answered, answers) && Enabled(reg, net, ServerExcute)
    ensures AllSendable(reqs) && net.serverIn.Contents() == Frames(reqs) + tail && Unfinished(tail)
    ensures reqs <= asks && (net.toServer == [] ==> reqs == asks)
    ensures var rs, net' := Connections.Replies(reg, Delivered(reqs)), Next(reg, net, ServerExcute);
            && AllSendable(rs) && net'.serverOut.Contents() == net.serverOut.Contents() + Frames(rs)
            && Ready(net'.serverIn) && net'.serverIn.Contents() == tail
            && forall i :: 0 <= i < |reqs| ==> rs[i] == ReplyFor(reg, reqs[i])
  {
    hide Frames, IsReply, Filed, EncodeAll, Decode, DistinctIds, Quiet, Fits, TextsFit, WithId, ReplyTo, Received;
    var k := Whole(asks, |net.serverIn.Contents()|);
    reqs := asks[..k];
    tail := CompleteInFront(net.serverIn, net.toServer, asks);
    AnswersAreReplies(reg, net.sent, reqs);
    EncodeContents(net.serverOut, Connections.Replies(reg, Delivered(reqs)));
  }

  /** What decode finds complete in a direction, and what it leaves. */
  lemma CompleteInFront(b: Buf, wire: seq<byte>, l: seq<TinyPB>) returns (t: seq<byte>)
    requires Carries(b, wire, l) && Quiet(Rest(b))
    ensures var k := Whole(l, |b.Contents()|);
            && b.Contents() == Frames(l[..k]) + t && Unfinished(t)
            && Decode(b).status == Drained && Decode(b).messages == Delivered(l[..k])
            && Ready(Decode(b).buf) && Decode(b).buf.Contents() == t
            && (wire == [] ==> k == |l|)
  {
    hide Frames, Decode, Quiet, Rest, TakeFrames, TotalLen;
    var k := Whole(l, |b.Contents()|);
    t := WholeSplit(l, b.Contents(), wire);
    RestTakes(b, l[..k], t);
    DecodeStream(b, l[..k], t);
    if wire == [] && k < |l| { NoFrameInTail(l[k..], t); }
  }

  lemma NoFrameInTail(l: seq<TinyPB>, t: seq<byte>)
    requires AllSendable(l) && l != [] && t + [] == Frames(l)
    ensures |t| >= FrameLen(WithId(l[0]))
  {
    hide Frame, FrameLen;
    assert Sendable(l[0]);
  }

  /** A client's pass files a reply under the id of each complete reply in its in buffer, and keeps those it
      had. */
  lemma ClientPassFiles(reg: Registry, net: Net, asks: seq<TinyPB>, answered: seq<TinyPB>, answers: seq<TinyPB>)
    returns (rs: seq<TinyPB>, tail: seq<byte>)
    requires Inv(reg, net, asks, answered, answers) && Enabled(reg, net, ClientExcute)
    ensures AllSendable(rs) && net.clientIn.Contents() == Frames(rs) + tail && Unfinished(tail)
    ensures rs <= answers && (net.toClient == [] ==> rs == answers)
    ensures var net' := Next(reg, net, ClientExcute);
            && Ready(net'.clientIn) && net'.clientIn.Contents() == tail
            && (forall i :: 0 <= i < |rs| ==> WithId(rs[i]).msgId in net'.replies)
            && (forall id :: id in net.replies ==> id in net'.replies && net'.replies[id] == net.replies[id])
  {
    hide Frames, IsReply, Filed, Decode, DistinctIds, Quiet, Fits, TextsFit, WithId, Inserted;
    var k := Whole(answers, |net.clientIn.Contents()|);
    rs := answers[..k];
    tail := CompleteInFront(net.clientIn, net.toClient, answers);
    var ds := Delivered(rs);
    forall i | 0 <= i < |rs| ensures WithId(rs[i]).msgId in Inserted(net.replies, ds) {
      InsertedKeepsFirst(net.replies, ds, WithId(rs[i]).msgId);
      assert ds[i].msgId == WithId(rs[i]).msgId;
    }
    forall id | id in net.replies
      ensures id in Inserted(net.replies, ds) && Inserted(net.replies, ds)[id] == net.replies[id]
    {
      InsertedKeepsFirst(net.replies, ds, id);
    }
  }

  /** Over every run from two new connections: after a server's pass, its out buffer has grown by the frames
      of one reply to each request that was complete in its in buffer, and these requests were sent. */
  lemma ServerPassesAnswer(reg: Registry, clientSize: nat, serverSize: nat, steps: seq<Step>)
    returns (reqs: seq<TinyPB>, tail: seq<byte>)
    requires 0 < clientSize <= INT32_MAX && 0 < serverSize <= INT32_MAX
    requires RunEnabled(reg, Initial(clientSize, serverSize), steps)
    requires var net := Run(reg, Initial(clientSize, serverSize), steps);
             AllValid(net) && Enabled(reg, net, ServerExcute)
    ensures AllSendable(reqs) && Unfinished(tail)
    ensures var net, out := Run(reg, Initial(clientSize, serverSize), steps), Connections.Replies(reg, Delivered(reqs));
            && net.serverIn.Contents() == Frames(reqs) + tail
            && (forall i :: 0 <= i < |reqs| ==> reqs[i] in net.sent)
            && AllSendable(out) && (forall i :: 0 <= i < |reqs| ==> out[i] == ReplyFor(reg, reqs[i]))
            && Next(reg, net, ServerExcute).serverOut.Contents() == net.serverOut.Contents() + Frames(out)
  {
    hide Next, Enabled, Frames, AllReplies, Carries, WithId, Fits, TextsFit, Delivered, Filed, ReplyFor;
    InitialInv(reg, clientSize, serverSize);
    var a, b, c := RunKeeps(reg, Initial(clientSize, serverSize), steps, [], [], []);
    reqs, tail := ServerPassAnswers(reg, Run(reg, Initial(clientSize, serverSize), steps), a, b, c);
  }

  /** And after a client's pass, each reply whose frame was complete in its in buffer is filed under its id. */
  lemma ClientPassesFile(reg: Registry, clientSize: nat, serverSize: nat, steps: seq<Step>)
    returns (rs: seq<TinyPB>, tail: seq<byte>)
    requires 0 < clientSize <= INT32_MAX && 0 < serverSize <= INT32_MAX
    requires RunEnabled(reg, Initial(clientSize, serverSize), steps)
    requires var net := Run(reg, Initial(clientSize, serverSize), steps);
             AllValid(net) && Enabled(reg, net, ClientExcute)
    ensures AllSendable(rs) && Unfinished(tail)
    ensures var net := Run(reg, Initial(clientSize, serverSize), steps);
            && net.clientIn.Contents() == Frames(rs) + tail
            && forall i :: 0 <= i < |rs| ==> WithId(rs[i]).msgId in Next(reg, net, ClientExcute).replies
  {
    hide Next, Enabled, Frames, AllReplies, Carries, WithId, Fits, TextsFit, Delivered, Filed, ReplyFor;
    InitialInv(reg, clientSize, serverSize);
    var a, b, c := RunKeeps(reg, Initial(clientSize, serverSize), steps, [], [], []);
    rs, tail := ClientPassFiles(reg, Run(reg, Initial(clientSize, serverSize), steps), a, b, c);
  }

  /** The whole of a wire is read, if there is room. */
  ghost predicate RoomFor(b: Buf, wire: seq<byte>) { |wire| < b.Slack() }

  ghost function ReadAllServer(reg: Registry, net: Net): Net
    requires AllValid(net) && RoomFor(net.serverIn, net.toServer)
  {
    Next(reg, net, ServerRead(|net.toServer|))
  }

  ghost function ReadAllClient(reg: Registry, net: Net): Net
    requires AllValid(net) && RoomFor(net.clientIn, net.toClient)
  {
    Next(reg, net, ClientRead(|net.toClient|))
  }

  /** What there is in an in buffer when its wire is empty is complete, so decode may be called. */
  lemma AllThereIsQuiet(b: Buf, l: seq<TinyPB>)
    requires Carries(b, [], l)
    ensures Quiet(Rest(b))
  {
    hide Frames, Quiet, Rest, TakeFrames, TotalLen, Decode, Rounds;
    assert b.Contents() + [] == b.Contents() && Frames(l) + [] == Frames(l);
    RestTakes(b, l, []);
    DecodeFrames(b, l, []);
    NothingIsQuiet(TakeFrames(b, l));
  }

  /** Half a round: the client writes, the server reads all of it, runs and has answered every request that
      was ever sent. */
  lemma ServerHasAnswered(reg: Registry, net: Net, asks: seq<TinyPB>, answered: seq<TinyPB>, answers: seq<TinyPB>)
    returns (answered': seq<TinyPB>)
    requires Inv(reg, net, asks, answered, answers)
    requires RoomFor(net.serverIn, net.toServer + net.clientOut.Contents())
    ensures var net1 := Next(reg, net, ClientWrite);
            && RoomFor(net1.serverIn, net1.toServer)
            && var net2 := ReadAllServer(reg, net1);
               && Enabled(reg, net2, ServerExcute)
               && var net3 := Next(reg, net2, ServerExcute);
                  && Inv(reg, net3, [], answered', answers) && net3.sent == net.sent
                  && net3.clientIn == net.clientIn && net3.toClient == net.toClient && net3.replies == net.replies
                  && forall i :: 0 <= i < |net.sent| ==> ReplyFor(reg, net.sent[i]) in answered'
  {
    hide Frames, IsReply, Filed, Carries, EncodeAll, Decode, DistinctIds, Quiet, Fits, TextsFit, WithId, Inserted, Rest,
         ReplyFor, Ask;
    var net1 := Next(reg, net, ClientWrite);
    WriteCarries(net.serverIn, net.toServer, asks, net.sent);
    var asks1 := asks + net.sent;
    var net2 := ReadAllServer(reg, net1);
    ReadCarries(net1.serverIn, net1.toServer, asks1, |net1.toServer|);
    assert net2.toServer == [];
    AllThereIsQuiet(net2.serverIn, asks1);
    answered' := AnswersAppended(reg, net2, asks1, answered, answers);
    forall i | 0 <= i < |net.sent| ensures ReplyFor(reg, net.sent[i]) in answered' {
      assert asks1[|asks| + i] == net.sent[i];
    }
  }

  lemma AnswersAppended(reg: Registry, net: Net, asks: seq<TinyPB>, answered: seq<TinyPB>, answers: seq<TinyPB>)
    returns (answered': seq<TinyPB>)
    requires Inv(reg, net, asks, answered, answers) && Enabled(reg, net, ServerExcute) && net.toServer == []
    ensures Inv(reg, Next(reg, net, ServerExcute), [], answered', answers)
    ensures forall i :: 0 <= i < |asks| ==> ReplyFor(reg, asks[i]) in answered'
  {
    hide Inv, Next, Frames, Delivered, ReplyFor, Whole, Enabled;
    var reqs, tail := ServerPassAnswers(reg, net, asks, answered, answers);
    AllWhole(reg, net, asks, answered, answers);
    var asks';
    asks', answered' := ServerExcuteKeeps(reg, net, asks, answered, answers);
    assert asks[..|asks|] == asks && asks[|asks|..] == [];
    var rs := Connections.Replies(reg, Delivered(asks));
    forall i | 0 <= i < |asks| ensures ReplyFor(reg, asks[i]) in answered' {
      assert answered'[|answered| + i] == rs[i];
    }
  }

  lemma AllWhole(reg: Registry, net: Net, asks: seq<TinyPB>, answered: seq<TinyPB>, answers: seq<TinyPB>)
    requires Inv(reg, net, asks, answered, answers) && Enabled(reg, net, ServerExcute) && net.toServer == []
    ensures net.serverIn.Valid() && AllSendable(asks) && Whole(asks, |net.serverIn.Contents()|) == |asks|
  {
    hide Frames, IsReply, Filed, Decode, DistinctIds, Quiet, Fits, TextsFit, WithId;
    var t := CompleteInFront(net.serverIn, net.toServer, asks);
  }

  /** One round, from any state a run can reach in which the buffers have room for what is on the way: the
      client writes, the server reads, runs and writes, the client reads and runs; then there is a reply
      under the id of every request that was ever sent and not yet answered. */
  lemma OneRoundAnswersAll(reg: Registry, clientSize: nat, serverSize: nat, steps: seq<Step>)
    requires 0 < clientSize <= INT32_MAX && 0 < serverSize <= INT32_MAX
    requires RunEnabled(reg, Initial(clientSize, serverSize), steps)
    ensures var net := Run(reg, Initial(clientSize, serverSize), steps);
            && AllValid(net) && AllAsks(reg, net.sent)
            && (RoomFor(net.serverIn, net.toServer + net.clientOut.Contents()) ==>
                  var net3 := HalfRound(reg, net);
                  && AllValid(net3)
                  && (RoomFor(net3.clientIn, net3.toClient + net3.serverOut.Contents()) ==>
                        var net6 := OtherHalf(reg, net3);
                        forall i :: 0 <= i < |net.sent| ==> WithId(net.sent[i]).msgId in net6.replies))
  {
    hide Next, Enabled, Frames, AllReplies, Carries, AnswerFor, WithId, Fits, TextsFit, ReplyFor, Filed;
    var init := Initial(clientSize, serverSize);
    InitialInv(reg, clientSize, serverSize);
    var a, b, c := RunKeeps(reg, init, steps, [], [], []);
    var net := Run(reg, init, steps);
    if RoomFor(net.serverIn, net.toServer + net.clientOut.Contents()) {
      var answered := ServerHasAnswered(reg, net, a, b, c);
      var net3 := HalfRound(reg, net);
      if RoomFor(net3.clientIn, net3.toClient + net3.serverOut.Contents()) {
        ClientHasReplies(reg, net3, answered, c);
      }
    }
  }

  /** The client writes, the server reads all of it and runs. */
  ghost function HalfRound(reg: Registry, net: Net): (net3: Net)
    requires AllValid(net) && RoomFor(net.serverIn, net.toServer + net.clientOut.Contents())
    ensures AllValid(net3)
  {
    var net2 := ReadAllServer(reg, Next(reg, net, ClientWrite));
    if Enabled(reg, net2, ServerExcute) then Next(reg, net2, ServerExcute) else net2
  }

  /** The server writes, the client reads all of it and runs. */
  ghost function OtherHalf(reg: Registry, net: Net): (net3: Net)
    requires AllValid(net) && RoomFor(net.clientIn, net.toClient + net.serverOut.Contents())
    ensures AllValid(net3)
  {
    var net2 := ReadAllClient(reg, Next(reg, net, ServerWrite));
    if Enabled(reg, net2, ClientExcute) then Next(reg, net2, ClientExcute) else net2
  }

  lemma ClientHasReplies(reg: Registry, net: Net, answered: seq<TinyPB>, answers: seq<TinyPB>)
    requires Inv(reg, net, [], answered, answers)
    requires RoomFor(net.clientIn, net.toClient + net.serverOut.Contents())
    requires forall i :: 0 <= i < |net.sent| ==> ReplyFor(reg, net.sent[i]) in answered
    ensures forall i :: 0 <= i < |net.sent| ==> WithId(net.sent[i]).msgId in OtherHalf(reg, net).replies
  {
    hide Frames, IsReply, Filed, Carries, Decode, DistinctIds, Quiet, Fits, TextsFit, WithId, Inserted, Rest,
         ReplyFor, Ask;
    var net1 := Next(reg, net, ServerWrite);
    WriteCarries(net.clientIn, net.toClient, answers, answered);
    var answers1 := answers + answered;
    var net2 := ReadAllClient(reg, net1);
    ReadCarries(net1.clientIn, net1.toClient, answers1, |net1.toClient|);
    assert net2.toClient == [];
    AllThereIsQuiet(net2.clientIn, answers1);
    assert AllReplies(reg, net.sent, answers1);
    var rs, tail := ClientPassFiles(reg, net2, [], answered, answers1);
    forall i | 0 <= i < |net.sent| ensures WithId(net.sent[i]).msgId in OtherHalf(reg, net).replies {
      assert ReplyFor(reg, net.sent[i]) in answers1;
      assert Ask(reg, net.sent[i]);
      ReplyHasId(reg, net.sent[i]);
    }
  }

  lemma ReplyHasId(reg: Registry, m: TinyPB)
    requires Ask(reg, m)
    ensures WithId(ReplyFor(reg, m)).msgId == WithId(m).msgId
  {
    hide Outcome, ErrorText;
  }

  /** A request that is sent goes behind the frames of those before it, and no other step touches the
      client's out buffer or what was sent. */
  lemma SendSends(reg: Registry, net: Net, s: Step)
    requires AllValid(net) && Enabled(reg, net, s)
    ensures var net' := Next(reg, net, s);
            if s.Send?
            then Fits(WithId(s.m)) && net'.sent == net.sent + [s.m] && net'.replies == net.replies
                 && net'.clientOut.Contents() == net.clientOut.Contents() + Frame(WithId(s.m))
            else net'.sent == net.sent && net'.clientOut == net.clientOut
    ensures s.ClientExcute? || s.Take? || Next(reg, net, s).replies == net.replies
    ensures s.ServerExcute? || Next(reg, net, s).serverOut == net.serverOut
  {
    hide Frame, Decode, EncodeAll, Answerable, Quiet, Rest, Inserted, Fits, TextsFit, WithId, Ask;
    if s.Send? {
      AskFits(reg, s.m);
      EncodeContents(net.clientOut, [s.m]);
      assert [s.m][1..] == [];
      assert Frames([s.m]) == Frame(WithId(s.m)) + [] == Frame(WithId(s.m));
    }
  }

  lemma AskFits(reg: Registry, m: TinyPB)
    requires Ask(reg, m)
    ensures Fits(WithId(m)) && AllFit([m])
  {
  }

  /** Taking a reply removes it and no other. */
  lemma TakeTakes(reg: Registry, net: Net, id: seq<byte>)
    requires AllValid(net)
    ensures var net' := Next(reg, net, Take(id));
            net'.replies.Keys == net.replies.Keys - {id}
            && forall k :: k in net'.replies ==> net'.replies[k] == net.replies[k]
  {
  }

  // ---------------------------------------------------------------- the connections make these steps

  /** On the connection of a server, excute makes the step of the server. */
  method ServerRuns(reg: Registry, conn: TcpConnection, ghost net: Net, ghost asks: seq<TinyPB>,
                    ghost answered: seq<TinyPB>, ghost answers: seq<TinyPB>)
    requires conn.Valid() && conn.byServer && conn.dispatcher.serviceMap == reg
    requires Inv(reg, net, asks, answered, answers) && Enabled(reg, net, ServerExcute)
    requires conn.inBuffer.State() == net.serverIn && conn.outBuffer.State() == net.serverOut
    modifies conn`replyMsg, conn.inBuffer, conn.inBuffer.buffer, conn.outBuffer, conn.outBuffer.buffer
    ensures conn.Valid() && conn.inBuffer.State() == Next(reg, net, ServerExcute).serverIn
    ensures conn.outBuffer.State() == Next(reg, net, ServerExcute).serverOut
  {
    hide Frames, Decode, EncodeAll, IsReply, Filed, DistinctIds, Quiet, Rest, Fits, TextsFit, Answerable, Ask, Rounds;
    ghost var k := DecodeCarries(net.serverIn, net.toServer, asks);
    AnswersAreReplies(reg, net.sent, asks[..k]);
    var status := conn.Excute();
  }

  /** On the connection of a client, excute makes the step of the client. */
  method ClientRuns(reg: Registry, conn: TcpConnection, ghost net: Net, ghost asks: seq<TinyPB>,
                    ghost answered: seq<TinyPB>, ghost answers: seq<TinyPB>)
    requires conn.Valid() && !conn.byServer
    requires Inv(reg, net, asks, answered, answers) && Enabled(reg, net, ClientExcute)
    requires conn.inBuffer.State() == net.clientIn && conn.replyMsg == net.replies
    modifies conn`replyMsg, conn.inBuffer, conn.inBuffer.buffer, conn.outBuffer, conn.outBuffer.buffer
    ensures conn.Valid() && conn.inBuffer.State() == Next(reg, net, ClientExcute).clientIn
    ensures conn.replyMsg == Next(reg, net, ClientExcute).replies
    ensures conn.outBuffer.State() == old(conn.outBuffer.State())
  {
    hide Frames, Decode, Inserted, IsReply, Filed, DistinctIds, Quiet, Rest, Fits, TextsFit, Answerable, Ask, Rounds;
    ghost var k := DecodeCarries(net.clientIn, net.toClient, answers);
    var status := conn.Excute();
  }
}
