/** Turning a request into a reply (rocket/net/rpc/rpc_dispatcher.cpp). The protobuf calls are left
    uninterpreted: a method is whether it parses a request, and what it answers to it. */
module Dispatchers {
  import opened Bytes
  import opened Options
  import opened TinyPBs

  /** What SerializeToString returned for the response, and what it left in the string. */
  datatype Answer = Answer(serialized: bool, data: seq<byte>)

  datatype RpcMethod = RpcMethod(parses: seq<byte> -> bool, call: seq<byte> -> Answer)

  datatype Service = Service(find: seq<byte> -> Option<RpcMethod>)

  type Registry = map<seq<byte>, Service>

  const DOT: byte := 46

  const ERROR_FAILED_DESERIALIZE: int32 := 10000003
  const ERROR_FAILED_SERIALIZE: int32 := 10000004
  const ERROR_SERVICE_NOT_FOUND: int32 := 10000008
  const ERROR_METHOD_NOT_FOUND: int32 := 10000009
  const ERROR_PARSE_SERVICE_NAME: int32 := 10000010

  predicate IsAscii(s: string) { forall i :: 0 <= i < |s| ==> 0 < s[i] as int < 0x80 }

  function Ascii(s: string): (bytes: seq<byte>)
    requires IsAscii(s)
    ensures |bytes| == |s| && 0 !in bytes
  {
    seq(|s|, i requires 0 <= i < |s| => s[i] as int)
  }

  /** Index of the first dot, or the length when there is none. */
  function FirstDot(s: seq<byte>): (k: nat)
    ensures k <= |s| && (k < |s| ==> s[k] == DOT)
    ensures forall i :: 0 <= i < k ==> s[i] != DOT
  {
    if s == [] || s[0] == DOT then 0 else 1 + FirstDot(s[1..])
  }

  // ---------------------------------------------------------------- the stages of a dispatch

  /** `name` is a service name and a method name joined by its first dot. */
  ghost predicate Joined(name: seq<byte>, service: seq<byte>, rpc: seq<byte>) {
    name == service + [DOT] + rpc && DOT !in service
  }

  /** So a name is joined in at most one way, at its first dot. */
  lemma {:induction false} JoinedAtFirstDot(name: seq<byte>, s: seq<byte>, m: seq<byte>)
    requires Joined(name, s, m)
    ensures FirstDot(name) == |s| < |name| && s == name[..|s|] && m == name[|s| + 1..]
  {
    if s != [] {
      assert name[0] == s[0] != DOT;
      assert name[1..] == s[1..] + [DOT] + m;
      JoinedAtFirstDot(name[1..], s[1..], m);
    }
  }

  lemma FirstDotJoins(name: seq<byte>)
    requires FirstDot(name) < |name|
    ensures Joined(name, name[..FirstDot(name)], name[FirstDot(name) + 1..])
  {
    var dot := FirstDot(name);
    assert name[dot] == DOT && forall i :: 0 <= i < dot ==> name[i] != DOT;
    hide FirstDot;
    CutAt(name, dot);
    forall i | 0 <= i < dot ensures name[..dot][i] != DOT {
    }
  }

  lemma CutAt(name: seq<byte>, k: nat)
    requires k < |name|
    ensures name == name[..k] + [name[k]] + name[k + 1..]
  {
  }

  lemma DotFound(name: seq<byte>)
    ensures FirstDot(name) < |name| <==> DOT in name
  {
  }

  /** The error texts. */
  function ErrorText(code: int32): (text: seq<byte>)
    ensures 0 !in text && |text| < TEXT_ROOM
  {
    if code == ERROR_PARSE_SERVICE_NAME then Ascii("parse service name error")
    else if code == ERROR_SERVICE_NOT_FOUND then Ascii("service not found")
    else if code == ERROR_METHOD_NOT_FOUND then Ascii("method not found")
    else if code == ERROR_FAILED_DESERIALIZE then Ascii("deserilize error")
    else if code == ERROR_FAILED_SERIALIZE then Ascii("serilize error")
    else []
  }

  /** The code of the first stage that fails, or 0, and the payload that is left in the response. */
  ghost function Outcome(reg: Registry, name: seq<byte>, pbData: seq<byte>): (int32, seq<byte>) {
    var dot := FirstDot(name);
    if dot == |name| then (ERROR_PARSE_SERVICE_NAME, [])
    else if name[..dot] !in reg then (ERROR_SERVICE_NOT_FOUND, [])
    else
      var rpc := reg[name[..dot]].find(name[dot + 1..]);
      if rpc.None? then (ERROR_METHOD_NOT_FOUND, [])
      else if !rpc.value.parses(pbData) then (ERROR_FAILED_DESERIALIZE, [])
      else
        var answer := rpc.value.call(pbData);
        (if answer.serialized then 0 else ERROR_FAILED_SERIALIZE, answer.data)
  }

  /** The response as the dispatcher fills it in. */
  ghost function ReplyTo(reg: Registry, req: TinyPB): TinyPB {
    var (code, data) := Outcome(reg, req.methodName, req.pbData);
    TinyPB(req.msgId, 0, 0, 0, req.methodName, code, |ErrorText(code)|, ErrorText(code), data, 0, false)
  }

  /** The response as the dispatcher fills it in whatever it held before: what no stage reaches stays. */
  ghost function FilledIn(reg: Registry, req: TinyPB, rsp: TinyPB): TinyPB {
    var (code, data) := Outcome(reg, req.methodName, req.pbData);
    var called := code == 0 || code == ERROR_FAILED_SERIALIZE;
    rsp.(msgId := req.msgId, methodName := req.methodName, errCode := code,
         errInfo := if code == 0 then rsp.errInfo else ErrorText(code),
         errInfoLen := if code == 0 then rsp.errInfoLen else |ErrorText(code)|,
         pbData := if called then data else rsp.pbData)
  }

  lemma FilledInBlank(reg: Registry, req: TinyPB)
    ensures FilledIn(reg, req, BLANK) == ReplyTo(reg, req)
  {
    assert ErrorText(0) == [];
    hide ErrorText, FirstDot;
  }

  /** The request names a registered service and method, joined by a dot, whose request parser takes the
      payload and whose answer can be serialized. */
  ghost predicate Served(reg: Registry, req: TinyPB, service: seq<byte>, rpc: seq<byte>) {
    && Joined(req.methodName, service, rpc) && service in reg
    && reg[service].find(rpc).Some?
    && reg[service].find(rpc).value.parses(req.pbData)
    && reg[service].find(rpc).value.call(req.pbData).serialized
  }

  /** The error code is 0 exactly when every stage succeeds, and then the payload is the answer. */
  lemma CodeZeroIffServed(reg: Registry, req: TinyPB)
    ensures ReplyTo(reg, req).errCode == 0 <==> exists service, rpc :: Served(reg, req, service, rpc)
    ensures forall service, rpc :: Served(reg, req, service, rpc)
              ==> ReplyTo(reg, req).pbData == reg[service].find(rpc).value.call(req.pbData).data
                  && ReplyTo(reg, req).errInfo == []
  {
    assert ErrorText(0) == [];
    hide ErrorText, FirstDot;
    var name := req.methodName;
    var dot := FirstDot(name);
    if dot < |name| { FirstDotJoins(name); }
    if ReplyTo(reg, req).errCode == 0 {
      assert Served(reg, req, name[..dot], name[dot + 1..]);
    }
    forall service, rpc | Served(reg, req, service, rpc)
      ensures dot < |name| && service == name[..dot] && rpc == name[dot + 1..]
    {
      JoinedAtFirstDot(name, service, rpc);
    }
  }

  /** Each error code points at one failing stage, all earlier ones having succeeded. */
  lemma CodeNamesTheStage(reg: Registry, req: TinyPB)
    ensures var code, name := ReplyTo(reg, req).errCode, req.methodName;
            && (code == ERROR_PARSE_SERVICE_NAME <==> DOT !in name)
            && (code == ERROR_SERVICE_NOT_FOUND <==>
                  exists s, m :: Joined(name, s, m) && s !in reg)
            && (code == ERROR_METHOD_NOT_FOUND <==>
                  exists s, m :: Joined(name, s, m) && s in reg && reg[s].find(m).None?)
            && (code == ERROR_FAILED_DESERIALIZE <==>
                  exists s, m :: Joined(name, s, m) && s in reg && reg[s].find(m).Some?
                                 && !reg[s].find(m).value.parses(req.pbData))
            && (code == ERROR_FAILED_SERIALIZE <==>
                  exists s, m :: Joined(name, s, m) && s in reg && reg[s].find(m).Some?
                                 && reg[s].find(m).value.parses(req.pbData)
                                 && !reg[s].find(m).value.call(req.pbData).serialized)
  {
    hide ErrorText, FirstDot;
    var name := req.methodName;
    var dot := FirstDot(name);
    DotFound(name);
    if dot < |name| { FirstDotJoins(name); }
    forall s, m | Joined(name, s, m) ensures dot < |name| && s == name[..dot] && m == name[dot + 1..] {
      JoinedAtFirstDot(name, s, m);
    }
  }

  /** The reply carries the id and the method name of the request, each code comes with its text, and the
      payload is empty if the method was not called and what it answered if it was. */
  lemma ReplySays(reg: Registry, req: TinyPB)
    ensures var r := ReplyTo(reg, req);
            && r.msgId == req.msgId && r.methodName == req.methodName && r.errInfoLen == |r.errInfo|
            && (r.errCode == 0 ==> r.errInfo == [])
            && (r.errCode == 10000010 ==> r.errInfo == Ascii("parse service name error") && r.pbData == [])
            && (r.errCode == 10000008 ==> r.errInfo == Ascii("service not found") && r.pbData == [])
            && (r.errCode == 10000009 ==> r.errInfo == Ascii("method not found") && r.pbData == [])
            && (r.errCode == 10000003 ==> r.errInfo == Ascii("deserilize error") && r.pbData == [])
            && (r.errCode == 10000004 ==> r.errInfo == Ascii("serilize error"))
            && r.errCode in {0, 10000010, 10000008, 10000009, 10000003, 10000004}
    ensures forall s, m :: Joined(req.methodName, s, m) && s in reg && reg[s].find(m).Some?
                           && reg[s].find(m).value.parses(req.pbData)
              ==> ReplyTo(reg, req).pbData == reg[s].find(m).value.call(req.pbData).data
  {
    hide FirstDot;
    forall s, m | Joined(req.methodName, s, m)
      ensures FirstDot(req.methodName) == |s| < |req.methodName|
              && s == req.methodName[..|s|] && m == req.methodName[|s| + 1..]
    {
      JoinedAtFirstDot(req.methodName, s, m);
    }
  }

  /** Ascii is the text, character by character. */
  lemma AsciiIsText(s: string)
    requires IsAscii(s)
    ensures |Ascii(s)| == |s| && forall i :: 0 <= i < |s| ==> Ascii(s)[i] == s[i] as int
  {
  }

  /** In a response that already held something, the error text stays on success and the payload stays
      unless the method was called; all else is as in a new one, or as it was. */
  lemma FilledInKeeps(reg: Registry, req: TinyPB, rsp: TinyPB)
    ensures var f, r := FilledIn(reg, req, rsp), ReplyTo(reg, req);
            && f.msgId == req.msgId && f.methodName == req.methodName && f.errCode == r.errCode
            && (if r.errCode == 0 then f.errInfo == rsp.errInfo && f.errInfoLen == rsp.errInfoLen
                else f.errInfo == r.errInfo && f.errInfoLen == |r.errInfo|)
            && f.pbData == (if r.errCode == 0 || r.errCode == 10000004 then r.pbData else rsp.pbData)
            && f == rsp.(msgId := f.msgId, methodName := f.methodName, errCode := f.errCode, errInfo := f.errInfo,
                         errInfoLen := f.errInfoLen, pbData := f.pbData)
  {
    hide FirstDot, ErrorText;
  }

  /** A reply to a request that came off the wire can itself go onto it, but for its payload's size. */
  lemma ReplyTextsFit(reg: Registry, req: TinyPB)
    requires TextsFit(req)
    ensures TextsFit(ReplyTo(reg, req))
  {
    hide ErrorText;
  }

  // ---------------------------------------------------------------- the class

  class RpcDispatcher {
    var serviceMap: Registry

    constructor ()
      ensures serviceMap == map[]
    {
      serviceMap := map[];
    }

    method RegisterService(name: seq<byte>, service: Service)
      modifies this
      ensures serviceMap == old(serviceMap)[name := service]
    {
      serviceMap := serviceMap[name := service];
    }

    /** The names are left as they were when there is no dot to split at. */
    method ParseServiceFullName(fullName: seq<byte>, serviceName: seq<byte>, methodName: seq<byte>)
      returns (ok: bool, serviceName': seq<byte>, methodName': seq<byte>)
      ensures ok <==> DOT in fullName
      ensures ok ==> Joined(fullName, serviceName', methodName')
      ensures !ok ==> serviceName' == serviceName && methodName' == methodName
    {
      if |fullName| == 0 {
        return false, serviceName, methodName;
      }
      var i := FirstDot(fullName);
      DotFound(fullName);
      if i == |fullName| {
        return false, serviceName, methodName;
      }
      FirstDotJoins(fullName);
      return true, fullName[..i], fullName[i + 1..];
    }

    method SetTinyPBError(msg: TinyPB, errCode: int32, errInfo: seq<byte>) returns (msg': TinyPB)
      requires |errInfo| <= INT32_MAX
      ensures msg' == msg.(errCode := errCode, errInfo := errInfo, errInfoLen := |errInfo|)
    {
      msg' := msg.(errCode := errCode);
      msg' := msg'.(errInfo := errInfo);
      msg' := msg'.(errInfoLen := |errInfo|);
    }

    method Dispatch(request: TinyPB, response: TinyPB) returns (response': TinyPB)
      ensures response' == FilledIn(serviceMap, request, response)
      ensures response == BLANK ==> response' == ReplyTo(serviceMap, request)
    {
      FilledInBlank(serviceMap, request);
      hide ErrorText, FirstDot;
      response' := response.(msgId := request.msgId);
      response' := response'.(methodName := request.methodName);
      var ok, serviceName, methodName := ParseServiceFullName(request.methodName, [], []);
      DotFound(request.methodName);
      if !ok {
        response' := SetTinyPBError(response', ERROR_PARSE_SERVICE_NAME, ErrorText(ERROR_PARSE_SERVICE_NAME));
        return;
      }
      JoinedAtFirstDot(request.methodName, serviceName, methodName);
      if serviceName !in serviceMap {
        response' := SetTinyPBError(response', ERROR_SERVICE_NOT_FOUND, ErrorText(ERROR_SERVICE_NOT_FOUND));
        return;
      }
      var service := serviceMap[serviceName];
      var rpc := service.find(methodName);
      if rpc.None? {
        response' := SetTinyPBError(response', ERROR_METHOD_NOT_FOUND, ErrorText(ERROR_METHOD_NOT_FOUND));
        return;
      }
      if !rpc.value.parses(request.pbData) {
        response' := SetTinyPBError(response', ERROR_FAILED_DESERIALIZE, ErrorText(ERROR_FAILED_DESERIALIZE));
        return;
      }
      var answer := rpc.value.call(request.pbData);
      response' := response'.(errCode := 0);
      response' := response'.(pbData := answer.data);
      if !answer.serialized {
        response' := SetTinyPBError(response', ERROR_FAILED_SERIALIZE, ErrorText(ERROR_FAILED_SERIALIZE));
        return;
      }
      response' := response'.(errCode := 0);
    }
  }
}
