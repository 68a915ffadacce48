/**
  The Jupyter wire codec of the kernel gateway (api/kernel.js): how a message becomes
  the list of ZeroMQ frames sent on the shell socket, how frames received on IOPub are
  split, checked and decoded, and how requests are built.

  Frames are modelled as strings (the gateway only ever calls `toString()` on them).
  HMAC-SHA256 is Node's `crypto`, a foreign call: it is the parameter `mac`, mapping a
  key and the concatenation of the signed frames to the hex digest, which is what
  successive `update` calls followed by `digest("hex")` compute.
*/
module Codec {
  import opened Wrappers
  import opened Json

  /** The frame separating routing identities from the signed part of a message. */
  const Delimiter: string := "<IDS|MSG>"

  /** HMAC-SHA256 keyed by the first argument over the second, as a lowercase hex string. */
  type Mac = (string, string) -> string

  /** The header object of a request (field names follow the Jupyter protocol). */
  datatype Header = Header(
    msgId: string,
    msgType: string,
    session: string,
    username: string,
    date: string,
    version: string)

  /** A message built by `constructMessage`. */
  datatype Message = Message(
    header: Header,
    parentHeader: JsonValue,
    metadata: JsonValue,
    buffers: seq<string>,
    content: JsonValue)

  /** The object `deserializeMsg` returns. */
  datatype WireMessage = WireMessage(
    idents: seq<string>,
    header: JsonValue,
    parentHeader: JsonValue,
    content: JsonValue,
    metadata: JsonValue,
    buffers: seq<string>)

  /** Why `deserializeMsg` returned `null`. */
  datatype Failure = NotEnoughFrames | MissingDelimiter | BadSignature

  /** The three ways a decode ends: a message, `null`, or an exception. */
  datatype Outcome =
    | Decoded(msg: WireMessage)
    | Rejected(why: Failure)
    | Thrown(reason: string)

  /** The values `uuidv4()` and `new Date().toISOString()` produce during one construction. */
  datatype Entropy = Entropy(msgUuid: string, sessionUuid: string, isoDate: string)

  /** The header as the JSON object `JSON.stringify(msg.header)` writes, keys in insertion order. */
  function HeaderJson(h: Header): JsonValue
  {
    JObj([
      Member("msg_id", JStr(h.msgId)),
      Member("msg_type", JStr(h.msgType)),
      Member("session", JStr(h.session)),
      Member("username", JStr(h.username)),
      Member("date", JStr(h.date)),
      Member("version", JStr(h.version))])
  }

  /** The member at index `i` is the one a lookup finds when no later member has its key. */
  lemma {:induction false} LookupAt(members: seq<Member>, i: nat)
    requires i < |members|
    requires forall j :: i < j < |members| ==> members[j].key != members[i].key
    ensures Lookup(members, members[i].key) == Some(members[i].value)
  {
    if i < |members| - 1 {
      LookupAt(members[..|members| - 1], i);
    }
  }

  /** Each header field is found under its protocol name. */
  lemma HeaderFields(h: Header)
    ensures Get(HeaderJson(h), "msg_id") == Some(JStr(h.msgId))
    ensures Get(HeaderJson(h), "msg_type") == Some(JStr(h.msgType))
    ensures Get(HeaderJson(h), "session") == Some(JStr(h.session))
    ensures Get(HeaderJson(h), "username") == Some(JStr(h.username))
    ensures Get(HeaderJson(h), "date") == Some(JStr(h.date))
    ensures Get(HeaderJson(h), "version") == Some(JStr(h.version))
  {
    var ms := HeaderJson(h).members;
    LookupAt(ms, 0);
    LookupAt(ms, 1);
    LookupAt(ms, 2);
    LookupAt(ms, 3);
    LookupAt(ms, 4);
    LookupAt(ms, 5);
  }

  // ---------------------------------------------------------------------------
  // serializeMsg
  // ---------------------------------------------------------------------------

  /** The signed part of a message: header, parent header, metadata and content frames. */
  function SignedText(header: string, parent: string, metadata: string, content: string): string
  {
    header + parent + metadata + content
  }

  /**
    `serializeMsg(msg, key)`: the message id, the delimiter, the signature, and the four
    JSON frames. Parent header and metadata are always sent as `{}`; buffers are not sent.
  */
  function Serialize(msg: Message, key: string, mac: Mac): (frames: seq<string>)
    ensures |frames| == 7
    ensures frames[0] == msg.header.msgId && frames[1] == Delimiter
    ensures Parse(frames[3]) == Ok(HeaderJson(msg.header))
    ensures Parse(frames[4]) == Ok(EmptyObject) && Parse(frames[5]) == Ok(EmptyObject)
    ensures Parse(frames[6]) == Ok(msg.content)
    ensures frames[2] == mac(key, SignedText(frames[3], frames[4], frames[5], frames[6]))
  {
    var header := Stringify(HeaderJson(msg.header));
    var parent := Stringify(EmptyObject);
    var metadata := Stringify(EmptyObject);
    var content := Stringify(msg.content);
    ParseStringify(HeaderJson(msg.header));
    ParseStringify(EmptyObject);
    ParseStringify(msg.content);
    [msg.header.msgId, Delimiter, mac(key, SignedText(header, parent, metadata, content)),
     header, parent, metadata, content]
  }

  /** What is sent depends on the header and the content only. */
  lemma SerializeIgnoresParentMetadataBuffers(m1: Message, m2: Message, key: string, mac: Mac)
    requires m1.header == m2.header && m1.content == m2.content
    ensures Serialize(m1, key, mac) == Serialize(m2, key, mac)
  {
  }

  // ---------------------------------------------------------------------------
  // deserializeMsg
  // ---------------------------------------------------------------------------

  /** The index of the first delimiter frame, or `|frames|` when there is none. */
  function FirstDelimiter(frames: seq<string>): (i: nat)
    ensures i <= |frames|
    ensures forall j :: 0 <= j < i ==> frames[j] != Delimiter
    ensures i < |frames| ==> frames[i] == Delimiter
  {
    if |frames| == 0 || frames[0] == Delimiter then 0 else 1 + FirstDelimiter(frames[1..])
  }

  /** Any index with no delimiter before it and a delimiter (or the end) at it is the first one. */
  lemma FirstDelimiterUnique(frames: seq<string>, i: nat)
    requires i <= |frames|
    requires forall j :: 0 <= j < i ==> frames[j] != Delimiter
    requires i < |frames| ==> frames[i] == Delimiter
    ensures FirstDelimiter(frames) == i
  {
    var k := FirstDelimiter(frames);
    if k < i {
      assert false;
    }
    if i < k {
      assert false;
    }
  }

  /** `if (key)`: a missing or empty key disables the signature check. */
  predicate Truthy(key: Option<string>)
  {
    key.Some? && |key.value| > 0
  }

  /** The frame after the delimiter is the HMAC, under `key`, of the four JSON frames after it. */
  predicate Signed(frames: seq<string>, i: nat, key: string, mac: Mac)
    requires i + 6 <= |frames|
  {
    frames[i + 1] == mac(key, SignedText(frames[i + 2], frames[i + 3], frames[i + 4], frames[i + 5]))
  }

  /** The JSON frames of a message whose signature has been accepted, parsed in the order the source does. */
  function DecodeBody(frames: seq<string>, i: nat): (r: Outcome)
    requires i + 6 <= |frames|
    ensures r.Decoded? || r.Thrown?
  {
    var header := Parse(frames[i + 2]);
    var parent := Parse(frames[i + 3]);
    var content := Parse(frames[i + 5]);
    var metadata := Parse(frames[i + 4]);
    if header.Err? || parent.Err? || content.Err? || metadata.Err? then Thrown("SyntaxError")
    else Decoded(WireMessage(frames[..i], header.value, parent.value, content.value, metadata.value, frames[i + 6..]))
  }

  /**
    `deserializeMsg(frames, key)` with the length guard requiring all six frames from the
    delimiter to the content (`|frames| - i >= 6`).
  */
  function Decode(frames: seq<string>, key: Option<string>, mac: Mac): Outcome
  {
    var i := FirstDelimiter(frames);
    if |frames| - i < 6 then Rejected(NotEnoughFrames)
    else if frames[i] != Delimiter then Rejected(MissingDelimiter)
    else if Truthy(key) && !Signed(frames, i, key.value, mac)
    then Rejected(BadSignature)
    else DecodeBody(frames, i)
  }

  /**
    What each outcome of a decode means: too few frames from the delimiter on, a bad
    signature only under a truthy key, the explicit delimiter check never reached, and a
    decoded message made of the identities, the four parsed JSON frames and the buffers.
  */
  lemma DecodeCases(frames: seq<string>, key: Option<string>, mac: Mac)
    ensures var r := Decode(frames, key, mac);
      (r == Rejected(NotEnoughFrames) <==> |frames| - FirstDelimiter(frames) < 6) &&
      r != Rejected(MissingDelimiter) &&
      (r == Rejected(BadSignature) ==> Truthy(key)) &&
      (r.Decoded? ==>
        var i := FirstDelimiter(frames);
        i + 6 <= |frames| && r.msg.idents == frames[..i] && r.msg.buffers == frames[i + 6..] &&
        Parse(frames[i + 2]) == Ok(r.msg.header) && Parse(frames[i + 3]) == Ok(r.msg.parentHeader) &&
        Parse(frames[i + 4]) == Ok(r.msg.metadata) && Parse(frames[i + 5]) == Ok(r.msg.content) &&
        (Truthy(key) ==> Signed(frames, i, key.value, mac)))
  {
  }

  /**
    `deserializeMsg` exactly as written: the guard `frames.length - i < 5` lets through a
    delimiter followed by only four frames, and the code then reads the missing frame
    `frames[i + 5]`: `hmac.update(undefined)` or `undefined.toString()` throws a TypeError.
  */
  function DecodeAsWritten(frames: seq<string>, key: Option<string>, mac: Mac): (r: Outcome)
    ensures |frames| - FirstDelimiter(frames) != 5 ==> r == Decode(frames, key, mac)
  {
    var i := FirstDelimiter(frames);
    if |frames| - i < 5 then Rejected(NotEnoughFrames)
    else if frames[i] != Delimiter then Rejected(MissingDelimiter)
    else if |frames| - i == 5 then
      if Truthy(key) then Thrown("TypeError")
      else if Parse(frames[i + 2]).Err? || Parse(frames[i + 3]).Err? then Thrown("SyntaxError")
      else Thrown("TypeError")
    else if Truthy(key) && !Signed(frames, i, key.value, mac)
    then Rejected(BadSignature)
    else DecodeBody(frames, i)
  }

  /** Where the decode as written does not throw, it agrees with the guarded decode. */
  lemma AsWrittenAgrees(frames: seq<string>, key: Option<string>, mac: Mac)
    ensures !DecodeAsWritten(frames, key, mac).Thrown? ==> DecodeAsWritten(frames, key, mac) == Decode(frames, key, mac)
  {
  }

  /** A delimiter, a signature and three JSON frames: no content frame. */
  lemma ShortMessageThrowsAsWritten(mac: Mac)
    ensures var frames := [Delimiter, "", "{}", "{}", "{}"];
      DecodeAsWritten(frames, Some("k"), mac) == Thrown("TypeError")
      && DecodeAsWritten(frames, None, mac) == Thrown("TypeError")
      && Decode(frames, Some("k"), mac) == Rejected(NotEnoughFrames)
  {
    var frames := [Delimiter, "", "{}", "{}", "{}"];
    FirstDelimiterUnique(frames, 0);
    ParseStringify(EmptyObject);
    assert Stringify(EmptyObject) == "{}";
  }

  /** `deserializeMsg` as written: identities are collected up to the first delimiter, then the guard `< 5` applies. */
  method DeserializeMsg(frames: seq<string>, key: Option<string>, mac: Mac) returns (r: Outcome)
    ensures r == DecodeAsWritten(frames, key, mac)
  {
    var i := 0;
    var idents: seq<string> := [];
    while i < |frames|
      invariant 0 <= i <= |frames|
      invariant idents == frames[..i]
      invariant forall j :: 0 <= j < i ==> frames[j] != Delimiter
    {
      if frames[i] == Delimiter {
        break;
      }
      idents := idents + [frames[i]];
      i := i + 1;
    }
    FirstDelimiterUnique(frames, i);
    if |frames| - i < 5 {
      return Rejected(NotEnoughFrames);
    }
    if frames[i] != Delimiter {
      return Rejected(MissingDelimiter);
    }
    if |frames| - i == 5 {
      // frames[i + 5] is undefined: the HMAC update throws, or without a key the content's toString()
      if Truthy(key) {
        return Thrown("TypeError");
      }
      if Parse(frames[i + 2]).Err? || Parse(frames[i + 3]).Err? {
        return Thrown("SyntaxError");
      }
      return Thrown("TypeError");
    }
    if Truthy(key) {
      var obtained := frames[i + 1];
      var expected := mac(key.value, SignedText(frames[i + 2], frames[i + 3], frames[i + 4], frames[i + 5]));
      if expected != obtained {
        assert !Signed(frames, i, key.value, mac);
        return Rejected(BadSignature);
      }
    }
    var header := Parse(frames[i + 2]);
    var parent := Parse(frames[i + 3]);
    var content := Parse(frames[i + 5]);
    var metadata := Parse(frames[i + 4]);
    if header.Err? || parent.Err? || content.Err? || metadata.Err? {
      return Thrown("SyntaxError");
    }
    r := Decoded(WireMessage(idents, header.value, parent.value, content.value, metadata.value, frames[i + 6..]));
  }

  // ---------------------------------------------------------------------------
  // Properties of the codec
  // ---------------------------------------------------------------------------

  /** Decoding what was serialised with the same key gives back the header and content. */
  lemma DecodeSerialize(msg: Message, key: string, mac: Mac)
    requires msg.header.msgId != Delimiter
    ensures Decode(Serialize(msg, key, mac), Some(key), mac)
      == Decoded(WireMessage([msg.header.msgId], HeaderJson(msg.header), EmptyObject, msg.content, EmptyObject, []))
  {
    var frames := Serialize(msg, key, mac);
    FirstDelimiterUnique(frames, 1);
    assert frames[..1] == [msg.header.msgId];
    assert frames[7..] == [];
  }

  /** Identities are exactly the frames before the first delimiter, which follows them. */
  lemma DecodedIdents(frames: seq<string>, key: Option<string>, mac: Mac)
    requires Decode(frames, key, mac).Decoded?
    ensures var idents := Decode(frames, key, mac).msg.idents;
      Delimiter !in idents && |idents| < |frames| && frames[|idents|] == Delimiter && frames[..|idents|] == idents
  {
    DecodeCases(frames, key, mac);
    var idents := Decode(frames, key, mac).msg.idents;
    forall j | 0 <= j < |idents|
      ensures idents[j] != Delimiter
    {
      assert idents[j] == frames[j];
    }
  }

  /** Without a delimiter every frame is an identity, and the length guard rejects. */
  lemma NoDelimiterRejected(frames: seq<string>, key: Option<string>, mac: Mac)
    requires Delimiter !in frames
    ensures Decode(frames, key, mac) == Rejected(NotEnoughFrames)
  {
    FirstDelimiterUnique(frames, |frames|);
    DecodeCases(frames, key, mac);
  }

  /** With a non-empty key, a signature frame that is not the HMAC of the four frames after it is rejected. */
  lemma WrongSignatureRejected(frames: seq<string>, key: string, mac: Mac)
    requires |key| > 0
    requires FirstDelimiter(frames) + 6 <= |frames|
    requires !Signed(frames, FirstDelimiter(frames), key, mac)
    ensures Decode(frames, Some(key), mac) == Rejected(BadSignature)
  {
  }

  /**
    With a non-empty key, a message with all its frames and a correct signature is decoded
    unless one of its JSON frames fails to parse.
  */
  lemma RightSignatureAccepted(frames: seq<string>, key: string, mac: Mac)
    requires |key| > 0
    requires FirstDelimiter(frames) + 6 <= |frames|
    requires Signed(frames, FirstDelimiter(frames), key, mac)
    ensures var i := FirstDelimiter(frames);
      Decode(frames, Some(key), mac) == DecodeBody(frames, i) && DecodeBody(frames, i) != Rejected(BadSignature)
  {
  }

  /** A falsy key skips the check: any signature frame is accepted. */
  lemma NoKeyNoCheck(frames: seq<string>, key: Option<string>, mac: Mac, forged: string)
    requires !Truthy(key)
    requires var i := FirstDelimiter(frames); i + 6 <= |frames|
    ensures var i := FirstDelimiter(frames);
      Decode(frames[i + 1 := forged], key, mac) == Decode(frames, key, mac)
  {
    var i := FirstDelimiter(frames);
    var g := frames[i + 1 := forged];
    FirstDelimiterUnique(g, i);
    assert g[..i] == frames[..i];
    assert g[i + 6..] == frames[i + 6..];
  }

  // ---------------------------------------------------------------------------
  // constructMessage / constructExecuteRequest
  // ---------------------------------------------------------------------------

  /**
    `constructMessage({msg_type, content, msg_id})`. A missing `content` is `{}` and a
    missing `msg_id` is a fresh uuid; an empty `msg_type` throws.
  */
  function ConstructMessage(msgType: string, content: Option<JsonValue>, msgId: Option<string>, e: Entropy): (r: Result<Message>)
    ensures r.Err? <==> |msgType| == 0
    ensures r.Ok? ==>
      var m := r.value;
      m.header.msgType == msgType && m.header.version == "5.0" && m.header.username == "dummy_user" &&
      m.header.msgId == msgId.GetOr(e.msgUuid) && m.header.session == e.sessionUuid && m.header.date == e.isoDate &&
      m.parentHeader == EmptyObject && m.metadata == EmptyObject && m.buffers == [] &&
      m.content == content.GetOr(EmptyObject)
  {
    if |msgType| == 0 then Err("msg_type is undefined")
    else
      Ok(Message(
        Header(msgId.GetOr(e.msgUuid), msgType, e.sessionUuid, "dummy_user", e.isoDate, "5.0"),
        EmptyObject, EmptyObject, [], content.GetOr(EmptyObject)))
  }

  /** The content object of an execute request, keys in the order the source writes them. */
  function ExecuteContent(code: string, cp: JsonValue): JsonValue
  {
    JObj([
      Member("code", JStr(code)),
      Member("cp", cp),
      Member("silent", JBool(false)),
      Member("store_history", JBool(false)),
      Member("user_expressions", JObj([Member("x", JStr("3+4"))])),
      Member("allow_stdin", JBool(false)),
      Member("stop_on_error", JBool(true))])
  }

  /** The execute request never runs silently, stores no history, asks for no input and stops on error. */
  lemma ExecuteContentFields(code: string, cp: JsonValue)
    ensures Get(ExecuteContent(code, cp), "code") == Some(JStr(code))
    ensures Get(ExecuteContent(code, cp), "cp") == Some(cp)
    ensures Get(ExecuteContent(code, cp), "silent") == Some(JBool(false))
    ensures Get(ExecuteContent(code, cp), "store_history") == Some(JBool(false))
    ensures Get(ExecuteContent(code, cp), "allow_stdin") == Some(JBool(false))
    ensures Get(ExecuteContent(code, cp), "stop_on_error") == Some(JBool(true))
  {
    var ms := ExecuteContent(code, cp).members;
    LookupAt(ms, 0);
    LookupAt(ms, 1);
    LookupAt(ms, 2);
    LookupAt(ms, 3);
    assert ms[4].key[0] == 'u';
    LookupAt(ms, 5);
    assert ms[3].key[3] != ms[6].key[3];
    LookupAt(ms, 6);
  }

  /** `constructExecuteRequest({code, msg_id, cp})`: throws when `code` or `msg_id` is empty. */
  function ConstructExecuteRequest(code: string, msgId: string, cp: Option<JsonValue>, e: Entropy): (r: Result<Message>)
    ensures r.Ok? <==> |code| > 0 && |msgId| > 0
    ensures r.Ok? ==>
      r.value.header.msgId == msgId && r.value.header.msgType == "execute_request" &&
      r.value.content == ExecuteContent(code, cp.GetOr(EmptyObject))
  {
    if |code| == 0 || |msgId| == 0 then Err("Must provide code and msg_id")
    else ConstructMessage("execute_request", Some(ExecuteContent(code, cp.GetOr(EmptyObject))), Some(msgId), e)
  }

  /** An execute request crosses the wire with its id, type and code intact. */
  lemma ExecuteRequestOnTheWire(code: string, msgId: string, e: Entropy, key: string, mac: Mac)
    requires |code| > 0 && |msgId| > 0 && msgId != Delimiter
    ensures var m := ConstructExecuteRequest(code, msgId, None, e).value;
      var d := Decode(Serialize(m, key, mac), Some(key), mac);
      d.Decoded? && d.msg.idents == [msgId] &&
      Get(d.msg.header, "msg_id") == Some(JStr(msgId)) &&
      Get(d.msg.header, "msg_type") == Some(JStr("execute_request")) &&
      Get(d.msg.header, "version") == Some(JStr("5.0")) &&
      Get(d.msg.content, "code") == Some(JStr(code))
  {
    var m := ConstructExecuteRequest(code, msgId, None, e).value;
    DecodeSerialize(m, key, mac);
    HeaderFields(m.header);
    ExecuteContentFields(code, EmptyObject);
  }
}
