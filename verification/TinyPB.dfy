/** One TinyPB message and its frame (rocket/net/coder/tinypb_protocol.h, encodeTinyPB and the field
    part of decode in tinypb_coder.cpp). */
module TinyPBs {
  import opened Bytes
  import opened Options

  const PB_START: byte := 0x02
  const PB_END: byte := 0x03

  /** "123456789" */
  const DEFAULT_MSG_ID: seq<byte> := [49, 50, 51, 52, 53, 54, 55, 56, 57]

  const ID_ROOM: nat := 100
  const TEXT_ROOM: nat := 512

  datatype TinyPB = TinyPB(msgId: seq<byte>, pkLen: int32, msgIdLen: int32,
                           methodNameLen: int32, methodName: seq<byte>,
                           errCode: int32, errInfoLen: int32, errInfo: seq<byte>,
                           pbData: seq<byte>, checkSum: int32, parseSuccess: bool)

  /** A message as its default constructor leaves it. */
  const BLANK := TinyPB([], 0, 0, 0, [], 0, 0, [], [], 0, false)

  function FrameLen(m: TinyPB): nat {
    2 + 24 + |m.msgId| + |m.methodName| + |m.errInfo| + |m.pbData|
  }

  /** The frame length fits the int that carries it. */
  predicate Fits(m: TinyPB) { FrameLen(m) <= INT32_MAX }

  /** The bytes of a frame, field by field: each part is one field and everything behind it. */
  ghost function Frame(m: TinyPB): (f: seq<byte>)
    requires Fits(m)
    ensures |f| == FrameLen(m)
  {
    [PB_START] + (HostToNet(FrameLen(m)) + Text(m.msgId, Text(m.methodName, ErrorPart(m))))
  }

  ghost function Text(text: seq<byte>, rest: seq<byte>): (f: seq<byte>)
    requires |text| <= INT32_MAX
    ensures |f| == 4 + |text| + |rest|
  {
    HostToNet(|text|) + (text + rest)
  }

  ghost function ErrorPart(m: TinyPB): (f: seq<byte>)
    requires Fits(m)
    ensures |f| == 8 + |m.errInfo| + |m.pbData| + 5
  {
    HostToNet(m.errCode) + Text(m.errInfo, DataPart(m.pbData))
  }

  ghost function DataPart(pbData: seq<byte>): (f: seq<byte>)
    ensures |f| == |pbData| + 5
  {
    pbData + (HostToNet(1) + [PB_END])
  }

  function WithId(m: TinyPB): TinyPB {
    if m.msgId == [] then m.(msgId := DEFAULT_MSG_ID) else m
  }

  /** What a receiver rebuilds from the frame of `m`. */
  ghost function Received(m: TinyPB): TinyPB
    requires Fits(m)
  {
    TinyPB(m.msgId, FrameLen(m), |m.msgId|, |m.methodName|, m.methodName, m.errCode,
           |m.errInfo|, m.errInfo, m.pbData, 0, true)
  }

  /** Only an empty id is replaced, by the digits from 1 to 9. */
  lemma OnlyEmptyIdsReplaced(m: TinyPB)
    ensures m.msgId != [] ==> WithId(m) == m
    ensures m.msgId == [] ==> |WithId(m).msgId| == 9 && WithId(m) == m.(msgId := WithId(m).msgId)
                              && forall i :: 0 <= i < 9 ==> WithId(m).msgId[i] == 0x31 + i
  {
  }

  /** `d` is `m` field by field, with the id filled in, the lengths set, and marked as parsed. */
  ghost predicate AsSent(m: TinyPB, d: TinyPB) {
    && (m.msgId != [] ==> d.msgId == m.msgId)
    && (m.msgId == [] ==> |d.msgId| == 9 && forall i :: 0 <= i < 9 ==> d.msgId[i] == 0x31 + i)
    && d.methodName == m.methodName && d.errCode == m.errCode && d.errInfo == m.errInfo && d.pbData == m.pbData
    && d.msgIdLen == |d.msgId| && d.methodNameLen == |m.methodName| && d.errInfoLen == |m.errInfo|
    && d.pkLen == 26 + |d.msgId| + |m.methodName| + |m.errInfo| + |m.pbData|
    && d.parseSuccess
  }

  lemma ReceivedAsSent(m: TinyPB)
    requires Fits(WithId(m))
    ensures AsSent(m, Received(WithId(m)))
  {
    OnlyEmptyIdsReplaced(m);
  }

  /** The texts survive the receiver's fixed local arrays. */
  predicate TextsFit(m: TinyPB) {
    && |m.msgId| < ID_ROOM && 0 !in m.msgId
    && |m.methodName| < TEXT_ROOM && 0 !in m.methodName
    && |m.errInfo| < TEXT_ROOM && 0 !in m.errInfo
  }

  // ---------------------------------------------------------------- encoding

  /** memcpy to a moving position. */
  method Put(buf: array<byte>, at: nat, bytes: seq<byte>)
    requires at + |bytes| <= buf.Length
    modifies buf
    ensures buf[..at + |bytes|] == old(buf[..at]) + bytes
  {
    forall i | 0 <= i < |bytes| { buf[at + i] := bytes[i]; }
    assert forall i :: 0 <= i < at ==> buf[i] == old(buf[..at])[i];
  }

  /** Two more fields written: what is written so far and what is left still make up the frame. */
  lemma Appended(done: seq<byte>, text: seq<byte>, rest: seq<byte>)
    requires |text| <= INT32_MAX
    ensures ((done + HostToNet(|text|)) + text) + rest == done + Text(text, rest)
  {
  }

  lemma HeadDone(m: TinyPB)
    requires Fits(m)
    ensures (([] + [PB_START]) + HostToNet(FrameLen(m))) + Text(m.msgId, Text(m.methodName, ErrorPart(m))) == Frame(m)
  {
    hide HostToNet, Text, ErrorPart;
  }

  lemma ErrCodeDone(done: seq<byte>, m: TinyPB)
    requires Fits(m)
    ensures (done + HostToNet(m.errCode)) + Text(m.errInfo, DataPart(m.pbData)) == done + ErrorPart(m)
  {
    hide HostToNet, Text, DataPart;
  }

  lemma DataDone(done: seq<byte>, pbData: seq<byte>)
    ensures ((done + pbData) + HostToNet(1)) + [PB_END] == done + DataPart(pbData)
  {
  }

  /** Fills a fresh buffer of exactly the announced length, and the length fields of the message. */
  method EncodeTinyPB(message: TinyPB) returns (buf: array<byte>, len: int, message': TinyPB)
    requires Fits(WithId(message))
    ensures fresh(buf) && buf[..] == Frame(WithId(message)) && len == buf.Length == FrameLen(WithId(message))
    ensures message' == Received(WithId(message)).(checkSum := message.checkSum)
    ensures AsSent(message, message')
  {
    ReceivedAsSent(message);
    message' := message;
    if |message'.msgId| == 0 {
      message' := message'.(msgId := DEFAULT_MSG_ID);
    }
    ghost var m := message';
    var pkLen := 2 + 24 + |message'.msgId| + |message'.methodName| + |message'.errInfo| + |message'.pbData|;
    buf := new byte[pkLen](_ => 0);
    var temp := 0;

    Put(buf, temp, [PB_START]);
    temp := temp + 1;
    Put(buf, temp, HostToNet(pkLen));
    temp := temp + 4;
    HeadDone(m);
    assert buf[..temp] + Text(m.msgId, Text(m.methodName, ErrorPart(m))) == Frame(m);

    var msgIdLen := |message'.msgId|;
    temp := PutText(buf, temp, message'.msgId, Text(m.methodName, ErrorPart(m)));
    assert buf[..temp] + Text(m.methodName, ErrorPart(m)) == Frame(m);
    var methodNameLen := |message'.methodName|;
    temp := PutText(buf, temp, message'.methodName, ErrorPart(m));

    var errInfoLen := |message'.errInfo|;
    PutErrorAndData(buf, temp, message');

    message' := message'.(pkLen := pkLen, msgIdLen := msgIdLen, methodNameLen := methodNameLen,
                          errInfoLen := errInfoLen, parseSuccess := true);
    len := pkLen;
  }

  /** Error code, error text and payload, up to the end of the buffer. */
  method PutErrorAndData(buf: array<byte>, at: nat, m: TinyPB)
    requires Fits(m) && at + |ErrorPart(m)| == buf.Length
    modifies buf
    ensures buf[..] == old(buf[..at]) + ErrorPart(m)
  {
    hide HostToNet, Text, DataPart, ErrorPart;
    ghost var done := buf[..at];
    Put(buf, at, HostToNet(m.errCode));
    var temp := at + 4;
    ErrCodeDone(done, m);
    temp := PutText(buf, temp, m.errInfo, DataPart(m.pbData));
    assert buf[..temp] + DataPart(m.pbData) == done + ErrorPart(m);
    PutData(buf, temp, m.pbData);
  }

  /** The payload, the constant check sum and the end byte, up to the end of the buffer. */
  method PutData(buf: array<byte>, at: nat, pbData: seq<byte>)
    requires at + |pbData| + 5 == buf.Length
    modifies buf
    ensures buf[..] == old(buf[..at]) + DataPart(pbData)
  {
    hide HostToNet;
    ghost var done := buf[..at];
    var temp := at;
    if |pbData| != 0 {
      Put(buf, temp, pbData);
      temp := temp + |pbData|;
    }
    assert buf[..temp] == done + pbData;
    Put(buf, temp, HostToNet(1));
    temp := temp + 4;
    Put(buf, temp, [PB_END]);
    assert buf[..] == buf[..temp + 1];
    DataDone(done, pbData);
  }

  /** A length field followed by its text, unless the text is empty. */
  method PutText(buf: array<byte>, at: nat, text: seq<byte>, ghost rest: seq<byte>) returns (at': nat)
    requires at + 4 + |text| <= buf.Length && |text| <= INT32_MAX
    modifies buf
    ensures at' == at + 4 + |text|
    ensures buf[..at'] + rest == old(buf[..at]) + Text(text, rest)
  {
    ghost var done := buf[..at];
    Put(buf, at, HostToNet(|text|));
    at' := at + 4;
    if |text| != 0 {
      Put(buf, at', text);
      at' := at' + |text|;
    }
    assert buf[..at'] == (done + HostToNet(|text|)) + text;
    Appended(done, text, rest);
  }

  // ---------------------------------------------------------------- parsing one frame

  predicate At(s: seq<byte>, k: nat, part: seq<byte>) {
    k + |part| <= |s| && s[k..k + |part|] == part
  }

  lemma AtSplit(s: seq<byte>, k: nat, a: seq<byte>, b: seq<byte>)
    requires At(s, k, a + b)
    ensures k + |a| + |b| <= |s| && At(s, k, a) && At(s, k + |a|, b)
  {
    assert s[k..k + |a|] == s[k..k + |a + b|][..|a|];
    assert s[k + |a|..k + |a + b|] == s[k..k + |a + b|][|a|..];
  }

  lemma StartAt(s: seq<byte>, k: nat, first: byte, rest: seq<byte>)
    requires At(s, k, [first] + rest)
    ensures k + 1 + |rest| <= |s| && s[k] == first && At(s, k + 1, rest)
  {
    AtSplit(s, k, [first], rest);
    assert s[k] == s[k..k + 1][0];
  }

  function Int32At(s: seq<byte>, k: nat): int32
    requires k + 4 <= |s|
  {
    GetInt32FromNetByte(s[k..k + 4])
  }

  lemma NumberAt(s: seq<byte>, k: nat, i: int32, rest: seq<byte>)
    requires At(s, k, HostToNet(i) + rest)
    ensures k + 4 <= |s| && Int32At(s, k) == i && At(s, k + 4, rest)
  {
    AtSplit(s, k, HostToNet(i), rest);
    NetRoundTrip(i);
  }

  /** A text copied through a zeroed local array of `room` bytes; None where the source would copy a
      negative or an oversized length, read outside the storage, or read past the array. */
  function CopyText(s: seq<byte>, at: nat, len: int32, room: nat): Option<seq<byte>> {
    if 0 <= len <= room && at + len <= |s| then CString(s[at..at + len], room) else None
  }

  /** Dropped: the frame is consumed but no message comes of it. Undefined: the source leaves defined
      behaviour (see CopyText, and a negative payload length). */
  datatype Parse = Parsed(message: TinyPB) | Dropped | Undefined

  /** The fields of the frame that starts at `start` and ends at `end`. */
  function ParseFields(s: seq<byte>, start: nat, end: nat, pkLen: int32): Parse
    requires end < |s|
  {
    var idLenIndex := start + 5;
    if idLenIndex >= end then Dropped
    else if idLenIndex + 4 > |s| then Undefined
    else
      var idLen := Int32At(s, idLenIndex);
      var idIndex := idLenIndex + 4;
      var id := CopyText(s, idIndex, idLen, ID_ROOM);
      if id.None? then Undefined
      else
        var nameLenIndex := idIndex + idLen;
        if nameLenIndex >= end then Dropped
        else if nameLenIndex + 4 > |s| then Undefined
        else
          var nameLen := Int32At(s, nameLenIndex);
          var nameIndex := nameLenIndex + 4;
          var name := CopyText(s, nameIndex, nameLen, TEXT_ROOM);
          if name.None? then Undefined
          else ParseErrorAndData(s, start, end, pkLen, id.value, idLen, name.value, nameLen, nameIndex + nameLen)
  }

  function ParseErrorAndData(s: seq<byte>, start: nat, end: nat, pkLen: int32, id: seq<byte>, idLen: int32,
                             name: seq<byte>, nameLen: int32, errCodeIndex: nat): (p: Parse)
    requires end < |s|
    ensures p.Parsed? ==> p.message.msgId == id && p.message.methodName == name
  {
    if errCodeIndex >= end then Dropped
    else if errCodeIndex + 4 > |s| then Undefined
    else
      var errCode := Int32At(s, errCodeIndex);
      var infoLenIndex := errCodeIndex + 4;
      if infoLenIndex >= end then Dropped
      else if infoLenIndex + 4 > |s| then Undefined
      else
        var infoLen := Int32At(s, infoLenIndex);
        var infoIndex := infoLenIndex + 4;
        var info := CopyText(s, infoIndex, infoLen, TEXT_ROOM);
        if info.None? then Undefined
        else
          var pbLen := pkLen - nameLen - idLen - infoLen - 2 - 24;
          var pbIndex := infoIndex + infoLen;
          if pbLen < 0 || pbIndex + pbLen > |s| then Undefined
          else Parsed(TinyPB(id, pkLen, idLen, nameLen, name, errCode, infoLen, info.value,
                             s[pbIndex..pbIndex + pbLen], 0, true))
  }

  lemma TextAt(s: seq<byte>, k: nat, text: seq<byte>, rest: seq<byte>)
    requires |text| <= INT32_MAX && At(s, k, Text(text, rest))
    ensures k + 4 + |text| <= |s| && Int32At(s, k) == |text|
    ensures At(s, k + 4, text) && At(s, k + 4 + |text|, rest)
  {
    NumberAt(s, k, |text|, text + rest);
    AtSplit(s, k + 4, text, rest);
  }

  /** Where the fields of a frame lie in the storage. */
  lemma FrameLayout(s: seq<byte>, k: nat, m: TinyPB)
    requires Fits(m) && At(s, k, Frame(m))
    ensures k + FrameLen(m) <= |s|
    ensures s[k] == PB_START && Int32At(s, k + 1) == FrameLen(m) && s[k + FrameLen(m) - 1] == PB_END
    ensures Int32At(s, k + FrameLen(m) - 5) == 1
    ensures Int32At(s, k + 5) == |m.msgId| && At(s, k + 9, m.msgId)
    ensures var n := k + 9 + |m.msgId|;
            && Int32At(s, n) == |m.methodName| && At(s, n + 4, m.methodName)
            && Int32At(s, n + 4 + |m.methodName|) == m.errCode
            && Int32At(s, n + 8 + |m.methodName|) == |m.errInfo|
            && At(s, n + 12 + |m.methodName|, m.errInfo)
            && At(s, n + 12 + |m.methodName| + |m.errInfo|, m.pbData)
  {
    hide HostToNet, GetInt32FromNetByte, Text, ErrorPart, Int32At, At;
    var n := k + 9 + |m.msgId|;
    var g := Text(m.msgId, Text(m.methodName, ErrorPart(m)));
    StartAt(s, k, PB_START, HostToNet(FrameLen(m)) + g);
    NumberAt(s, k + 1, FrameLen(m), g);
    TextAt(s, k + 5, m.msgId, Text(m.methodName, ErrorPart(m)));
    TextAt(s, n, m.methodName, ErrorPart(m));
    ErrorLayout(s, n + 4 + |m.methodName|, m);
  }

  lemma ErrorLayout(s: seq<byte>, k: nat, m: TinyPB)
    requires Fits(m) && At(s, k, ErrorPart(m))
    ensures k + 8 + |m.errInfo| + |m.pbData| + 5 <= |s|
    ensures Int32At(s, k) == m.errCode && Int32At(s, k + 4) == |m.errInfo| && At(s, k + 8, m.errInfo)
    ensures At(s, k + 8 + |m.errInfo|, m.pbData) && s[k + 8 + |m.errInfo| + |m.pbData| + 4] == PB_END
    ensures Int32At(s, k + 8 + |m.errInfo| + |m.pbData|) == 1
  {
    hide HostToNet, GetInt32FromNetByte, Text, DataPart, Int32At, At;
    NumberAt(s, k, m.errCode, Text(m.errInfo, DataPart(m.pbData)));
    TextAt(s, k + 4, m.errInfo, DataPart(m.pbData));
    DataAt(s, k + 8 + |m.errInfo|, m.pbData);
  }

  lemma DataAt(s: seq<byte>, k: nat, pbData: seq<byte>)
    requires At(s, k, DataPart(pbData))
    ensures k + |pbData| + 5 <= |s| && At(s, k, pbData) && s[k + |pbData| + 4] == PB_END
    ensures Int32At(s, k + |pbData|) == 1
  {
    AtSplit(s, k, pbData, HostToNet(1) + [PB_END]);
    AtSplit(s, k + |pbData|, HostToNet(1), [PB_END]);
    NumberAt(s, k + |pbData|, 1, [PB_END]);
    var e := k + |pbData| + 4;
    assert s[e] == s[e..e + 1][0];
  }

  /** A frame gives its message back exactly when the texts survive the receiver's local arrays:
      identifiers of at most 99 bytes, method name and error text of at most 511, none with a NUL. */
  lemma FieldsRoundTrip(s: seq<byte>, k: nat, m: TinyPB)
    requires Fits(m) && At(s, k, Frame(m))
    ensures k + FrameLen(m) <= |s|
    ensures ParseFields(s, k, k + FrameLen(m) - 1, FrameLen(m)) == Parsed(Received(m)) <==> TextsFit(m)
    ensures TextsFit(m) <==> |m.msgId| <= 99 && |m.methodName| <= 511 && |m.errInfo| <= 511
                             && 0 !in m.msgId && 0 !in m.methodName && 0 !in m.errInfo
  {
    hide HostToNet, GetInt32FromNetByte, Frame, CString, Int32At, ParseErrorAndData;
    FrameLayout(s, k, m);
    ErrorAndDataRoundTrip(s, k, m);
  }

  /** Field by field: whatever the parser is given a frame of, it gives back. */
  lemma FieldsComeBack(s: seq<byte>, k: nat, m: TinyPB)
    requires Fits(m) && At(s, k, Frame(m))
    requires |m.msgId| <= 99 && |m.methodName| <= 511 && |m.errInfo| <= 511
    requires 0 !in m.msgId && 0 !in m.methodName && 0 !in m.errInfo
    ensures k + FrameLen(m) <= |s| && s[k] == 0x02 && s[k + FrameLen(m) - 1] == 0x03
    ensures var p := ParseFields(s, k, k + FrameLen(m) - 1, FrameLen(m));
            && p.Parsed?
            && p.message.msgId == m.msgId && p.message.methodName == m.methodName
            && p.message.errCode == m.errCode && p.message.errInfo == m.errInfo && p.message.pbData == m.pbData
            && p.message.msgIdLen == |m.msgId| && p.message.methodNameLen == |m.methodName|
            && p.message.errInfoLen == |m.errInfo|
            && p.message.pkLen == 26 + |m.msgId| + |m.methodName| + |m.errInfo| + |m.pbData|
            && p.message.parseSuccess
  {
    hide HostToNet, GetInt32FromNetByte, Frame, CString, Int32At, ParseFields;
    FrameLayout(s, k, m);
    FieldsRoundTrip(s, k, m);
  }

  /** The text stands at `at`, in a field of `len` bytes that a NUL may cut short. */
  ghost predicate TextLies(s: seq<byte>, at: nat, len: int, text: seq<byte>) {
    0 <= len && at + len <= |s| && |text| <= len && At(s, at, text) && (|text| < len ==> s[at + |text|] == 0)
  }

  /** Whatever the bytes, a message is parsed only from fields that are there: each text where its length
      says, up to its first NUL, the code and the payload behind them. */
  lemma ParsedFieldsAreThere(s: seq<byte>, start: nat, end: nat, pkLen: int32)
    requires end < |s| && ParseFields(s, start, end, pkLen).Parsed?
    ensures var m := ParseFields(s, start, end, pkLen).message;
            && m.parseSuccess && m.pkLen == pkLen
            && Int32At(s, start + 5) == m.msgIdLen && TextLies(s, start + 9, m.msgIdLen, m.msgId)
            && var n := start + 9 + m.msgIdLen;
               && n + 4 <= |s| && Int32At(s, n) == m.methodNameLen && TextLies(s, n + 4, m.methodNameLen, m.methodName)
               && var e := n + 4 + m.methodNameLen;
                  && e + 8 <= |s| && Int32At(s, e) == m.errCode
                  && Int32At(s, e + 4) == m.errInfoLen && TextLies(s, e + 8, m.errInfoLen, m.errInfo)
                  && At(s, e + 8 + m.errInfoLen, m.pbData)
                  && |m.pbData| == pkLen - 26 - m.msgIdLen - m.methodNameLen - m.errInfoLen
  {
    hide Int32At, CString, At, TextLies, CopyText;
    var idLen := Int32At(s, start + 5);
    CopiedTextLies(s, start + 9, idLen, ID_ROOM);
    var n := start + 9 + idLen;
    var nameLen := Int32At(s, n);
    CopiedTextLies(s, n + 4, nameLen, TEXT_ROOM);
    CopiedTextLies(s, n + 12 + nameLen, Int32At(s, n + 8 + nameLen), TEXT_ROOM);
    var infoLen := Int32At(s, n + 8 + nameLen);
    PayloadIsSlice(s, n + 12 + nameLen + infoLen, pkLen - 26 - idLen - nameLen - infoLen);
  }

  lemma PayloadIsSlice(s: seq<byte>, at: int, len: int)
    ensures 0 <= at && 0 <= len && at + len <= |s| ==> At(s, at, s[at..at + len])
  {
  }

  lemma CopiedTextLies(s: seq<byte>, at: nat, len: int32, room: nat)
    ensures var t := CopyText(s, at, len, room);
            t.Some? ==> 0 <= len <= room && TextLies(s, at, len, t.value)
  {
    if 0 <= len <= room && at + len <= |s| {
      CStringCuts(s[at..at + len], room);
      var t := CopyText(s, at, len, room);
      if t.Some? {
        assert s[at..at + |t.value|] == s[at..at + len][..|t.value|];
      }
    }
  }

  lemma ErrorAndDataRoundTrip(s: seq<byte>, k: nat, m: TinyPB)
    requires Fits(m) && At(s, k, Frame(m))
    ensures k + FrameLen(m) <= |s|
    ensures ParseErrorAndData(s, k, k + FrameLen(m) - 1, FrameLen(m), m.msgId, |m.msgId|, m.methodName,
                              |m.methodName|, k + 13 + |m.msgId| + |m.methodName|) == Parsed(Received(m))
            <==> |m.errInfo| < TEXT_ROOM && 0 !in m.errInfo
  {
    hide HostToNet, GetInt32FromNetByte, Frame, CString, Int32At;
    FrameLayout(s, k, m);
  }

  /** The id that takes the default is the empty one, and the default itself survives. */
  lemma DefaultIdFits(m: TinyPB)
    ensures TextsFit(m) ==> TextsFit(WithId(m))
    ensures WithId(m).msgId != [] && WithId(WithId(m)) == WithId(m)
  {
  }
}
