/**
  The kernel gateway objects of api/kernel.js: `ZmqWire`, which signs and sends requests on
  the shell socket and decodes what arrives on IOPub, and `CodePodKernel`, which turns pod
  operations into execute requests with chosen correlation ids.

  Sockets, Docker and the file system are not modelled: a sent request is appended to the
  wire's `sent` list, the Docker calls are recorded in `docker`, and the contents of the
  connection and startup files, the container's IP address and the IOPub traffic are
  parameters. `uuidv4()` and `new Date()` come from `supply`, one `Entropy` per message built.
*/
module Kernel {
  import opened Wrappers
  import opened Json
  import opened Codec
  import opened Mapper

  /** The fields of a connection file that the gateway uses. */
  datatype ConnSpec = ConnSpec(ip: string, shellPort: int, iopubPort: int, key: string)

  /** One multipart message from the IOPub socket: its topic frame and the frames after it. */
  datatype Incoming = Incoming(topic: string, frames: seq<string>)

  /** One call of the IOPub handler: the topic and the decoded message, `None` standing for `null`. */
  datatype Delivery = Delivery(topic: string, msg: Option<WireMessage>)

  /** The handler calls made while listening, and the exception that ended the loop, if any. */
  datatype Listening = Listening(delivered: seq<Delivery>, thrown: Option<string>)

  /** A Docker operation issued by `init` or `kill`. */
  datatype DockerCall = Remove(name: string) | Create(image: string, name: string)

  /** What the handler receives for a decode that did not throw: the message, or `null`. */
  function Forwarded(o: Outcome): Option<WireMessage>
  {
    if o.Decoded? then Some(o.msg) else None
  }

  /**
    The `for await` loop of `listenIOPub` over the messages received: each is decoded with
    the connection key by `deserializeMsg` as written and handed to the handler, `null`
    included; a decode that throws ends the loop.
  */
  function Listen(incoming: seq<Incoming>, key: string, mac: Mac): (r: Listening)
    ensures |r.delivered| <= |incoming|
    ensures r.thrown.None? <==> |r.delivered| == |incoming|
  {
    if incoming == [] then Listening([], None)
    else
      var o := DecodeAsWritten(incoming[0].frames, Some(key), mac);
      if o.Thrown? then Listening([], Some(o.reason))
      else
        var rest := Listen(incoming[1..], key, mac);
        Listening([Delivery(incoming[0].topic, Forwarded(o))] + rest.delivered, rest.thrown)
  }

  /** Listening from message `i` on handles message `i` and then listens from `i + 1`. */
  lemma ListenStep(incoming: seq<Incoming>, i: nat, key: string, mac: Mac)
    requires i < |incoming|
    ensures var o := DecodeAsWritten(incoming[i].frames, Some(key), mac);
      var next := Listen(incoming[i + 1..], key, mac);
      Listen(incoming[i..], key, mac)
      == if o.Thrown? then Listening([], Some(o.reason))
         else Listening([Delivery(incoming[i].topic, Forwarded(o))] + next.delivered, next.thrown)
  {
    assert incoming[i..][1..] == incoming[i + 1..];
  }

  /** The handler calls made for the first `i` messages are `delivered`, and listening goes on from message `i`. */
  predicate ListenedUpTo(incoming: seq<Incoming>, i: nat, key: string, mac: Mac, delivered: seq<Delivery>)
    requires i <= |incoming|
  {
    var rest := Listen(incoming[i..], key, mac);
    Listen(incoming, key, mac) == Listening(delivered + rest.delivered, rest.thrown)
  }

  /** Handling message `i`: a throw ends the loop with the calls made so far, otherwise one more call is made. */
  lemma ListenAdvance(incoming: seq<Incoming>, i: nat, key: string, mac: Mac, delivered: seq<Delivery>)
    requires i < |incoming| && ListenedUpTo(incoming, i, key, mac, delivered)
    ensures var o := DecodeAsWritten(incoming[i].frames, Some(key), mac);
      (o.Thrown? ==> Listen(incoming, key, mac) == Listening(delivered, Some(o.reason))) &&
      (!o.Thrown? ==> ListenedUpTo(incoming, i + 1, key, mac, delivered + [Delivery(incoming[i].topic, Forwarded(o))]))
  {
    ListenStep(incoming, i, key, mac);
    var o := DecodeAsWritten(incoming[i].frames, Some(key), mac);
    if !o.Thrown? {
      var next := Listen(incoming[i + 1..], key, mac);
      assert delivered + ([Delivery(incoming[i].topic, Forwarded(o))] + next.delivered)
        == delivered + [Delivery(incoming[i].topic, Forwarded(o))] + next.delivered;
    }
  }

  /** Once every message is handled, the loop ends without a throw. */
  lemma ListenDone(incoming: seq<Incoming>, key: string, mac: Mac, delivered: seq<Delivery>)
    requires ListenedUpTo(incoming, |incoming|, key, mac, delivered)
    ensures Listen(incoming, key, mac) == Listening(delivered, None)
  {
    assert incoming[|incoming|..] == [];
    assert delivered + [] == delivered;
  }

  /**
    The handler is called once per message, in order and with its topic, until a decode
    throws: a message the decoder rejects is passed on as `null`, not dropped.
  */
  lemma {:induction false} ListenDelivers(incoming: seq<Incoming>, key: string, mac: Mac)
    ensures var r := Listen(incoming, key, mac);
      (r.thrown.Some? ==> DecodeAsWritten(incoming[|r.delivered|].frames, Some(key), mac).Thrown?) &&
      forall k :: 0 <= k < |r.delivered| ==>
        !DecodeAsWritten(incoming[k].frames, Some(key), mac).Thrown? &&
        r.delivered[k] == Delivery(incoming[k].topic, Forwarded(DecodeAsWritten(incoming[k].frames, Some(key), mac)))
  {
    if incoming != [] {
      var o := DecodeAsWritten(incoming[0].frames, Some(key), mac);
      if !o.Thrown? {
        var rest := Listen(incoming[1..], key, mac);
        ListenDelivers(incoming[1..], key, mac);
        var r := Listen(incoming, key, mac);
        assert r == Listening([Delivery(incoming[0].topic, Forwarded(o))] + rest.delivered, rest.thrown);
        forall k | 0 < k < |r.delivered|
          ensures incoming[k] == incoming[1..][k - 1] && r.delivered[k] == rest.delivered[k - 1]
        {
        }
        assert r.thrown.Some? ==> incoming[|r.delivered|] == incoming[1..][|rest.delivered|];
      }
    }
  }

  /**
    The listen loop as it is meant to work: every message received reaches the handler,
    decoded with the guarded decode, and one that fails to decode is passed on as `null`
    without ending the loop.
  */
  function ListenCorrected(incoming: seq<Incoming>, key: string, mac: Mac): (r: seq<Delivery>)
    ensures |r| == |incoming|
  {
    if incoming == [] then []
    else
      var o := Decode(incoming[0].frames, Some(key), mac);
      [Delivery(incoming[0].topic, Forwarded(o))] + ListenCorrected(incoming[1..], key, mac)
  }

  /** The corrected loop hands every message, in order and with its topic, to the handler. */
  lemma {:induction false} ListenCorrectedDelivers(incoming: seq<Incoming>, key: string, mac: Mac)
    ensures var r := ListenCorrected(incoming, key, mac);
      forall k :: 0 <= k < |incoming| ==>
        r[k] == Delivery(incoming[k].topic, Forwarded(Decode(incoming[k].frames, Some(key), mac)))
  {
    if incoming != [] {
      ListenCorrectedDelivers(incoming[1..], key, mac);
      var r := ListenCorrected(incoming, key, mac);
      forall k | 0 < k < |incoming|
        ensures r[k] == ListenCorrected(incoming[1..], key, mac)[k - 1] && incoming[k] == incoming[1..][k - 1]
      {
      }
    }
  }

  /** What the loop as written delivers before it stops is what the corrected loop delivers first. */
  lemma ListenAgrees(incoming: seq<Incoming>, key: string, mac: Mac)
    ensures var r := Listen(incoming, key, mac);
      r.delivered == ListenCorrected(incoming, key, mac)[..|r.delivered|]
  {
    var r := Listen(incoming, key, mac);
    var c := ListenCorrected(incoming, key, mac);
    ListenDelivers(incoming, key, mac);
    ListenCorrectedDelivers(incoming, key, mac);
    forall k | 0 <= k < |r.delivered|
      ensures r.delivered[k] == c[k]
    {
      AsWrittenAgrees(incoming[k].frames, Some(key), mac);
    }
  }

  /**
    A message with a delimiter followed by only four frames makes the loop as written throw
    and stop, so nothing after it reaches the handler; the corrected loop passes it on as
    `null` and goes on.
  */
  lemma ListenStopsAsWritten(topic: string, later: seq<Incoming>, key: string, mac: Mac)
    ensures var incoming := [Incoming(topic, [Delimiter, "", "{}", "{}", "{}"])] + later;
      Listen(incoming, key, mac) == Listening([], Some("TypeError")) &&
      |ListenCorrected(incoming, key, mac)| == 1 + |later| &&
      ListenCorrected(incoming, key, mac)[0] == Delivery(topic, None)
  {
    var frames := [Delimiter, "", "{}", "{}", "{}"];
    var incoming := [Incoming(topic, frames)] + later;
    FirstDelimiterUnique(frames, 0);
    ParseStringify(EmptyObject);
    assert Stringify(EmptyObject) == "{}";
    assert incoming[0].frames == frames;
    assert DecodeAsWritten(frames, Some(key), mac) == Thrown("TypeError");
    assert Decode(frames, Some(key), mac) == Rejected(NotEnoughFrames);
  }

  /** The execute request `constructExecuteRequest({code, msg_id})` builds when it does not throw. */
  function ExecuteRequest(code: string, msgId: string, e: Entropy): Message
    requires |code| > 0 && |msgId| > 0
  {
    ConstructExecuteRequest(code, msgId, None, e).value
  }

  /** `id + "#" + name`: the correlation id of an import request. */
  function ImportId(id: string, name: string): (r: string)
    ensures |r| == |id| + 1 + |name| && r[|id|] == '#'
  {
    id + "#" + name
  }

  /** Two imports of the same pod get the same correlation id only when they import the same name. */
  lemma ImportIdInjective(id: string, n1: string, n2: string)
    requires ImportId(id, n1) == ImportId(id, n2)
    ensures n1 == n2
  {
    assert n1 == ImportId(id, n1)[|id| + 1..];
    assert n2 == ImportId(id, n2)[|id| + 1..];
  }

  /** The requests `ensureImports` sends for `names` on the Python kernel, the k-th built from `supply(first + k)`. */
  function EnsureRequests(id: string, from: string, to: string, names: seq<string>, supply: nat -> Entropy, first: nat): seq<Message>
  {
    seq(|names|, k requires 0 <= k < |names| =>
      ExecuteRequest(MapAddImport(Python, from, to, names[k]), ImportId(id, names[k]), supply(first + k)))
  }

  /**
    `ensureImports` sends one execute request per name, in the order of the list, each
    correlated by `id#name` and carrying the Python import of that name as its code.
  */
  lemma EnsureRequestsPerName(id: string, from: string, to: string, names: seq<string>, supply: nat -> Entropy, first: nat)
    ensures var r := EnsureRequests(id, from, to, names, supply, first);
      |r| == |names| &&
      forall k :: 0 <= k < |names| ==>
        r[k].header.msgId == ImportId(id, names[k]) && r[k].header.msgType == "execute_request" &&
        Get(r[k].content, "code") == Some(JStr(MapAddImport(Python, from, to, names[k])))
  {
    var r := EnsureRequests(id, from, to, names, supply, first);
    forall k | 0 <= k < |names|
      ensures Get(r[k].content, "code") == Some(JStr(MapAddImport(Python, from, to, names[k])))
    {
      ExecuteContentFields(MapAddImport(Python, from, to, names[k]), EmptyObject);
    }
  }

  /** The ZeroMQ side of a kernel connection. */
  class ZmqWire {
    /** The connection file's contents, with the container's IP address when one was given. */
    var kernelSpec: ConnSpec
    var kernelStatus: string
    /** HMAC-SHA256 from Node's `crypto`. */
    const mac: Mac
    /** The messages sent on the shell socket, oldest first; each goes out as `Frames(msg)`. */
    var sent: seq<Message>
    /** An IOPub subscriber exists and has not been closed. */
    var iopubOpen: bool
    /** How many IOPub subscribers were closed to make room for a new one. */
    var closedSubscribers: nat

    /**
      `new ZmqWire(connFname, ip)`: the connection file is read and parsed (`connSpecs` gives
      what `JSON.parse(readFileSync(connFname))` yields), and a truthy `ip` overrides its address.
    */
    constructor(connFname: string, ip: Option<string>, connSpecs: string -> ConnSpec, mac: Mac)
      ensures kernelSpec == (if ip.Some? && |ip.value| > 0 then connSpecs(connFname).(ip := ip.value) else connSpecs(connFname))
      ensures kernelStatus == "uknown" && sent == [] && !iopubOpen && closedSubscribers == 0
      ensures this.mac == mac
    {
      var spec := connSpecs(connFname);
      kernelSpec := if ip.Some? && |ip.value| > 0 then spec.(ip := ip.value) else spec;
      kernelStatus := "uknown";
      this.mac := mac;
      sent := [];
      iopubOpen := false;
      closedSubscribers := 0;
    }

    /** `serializeMsg(msg, kernelSpec.key)`: the frames a message is sent as. */
    function Frames(msg: Message): seq<string>
      reads this
    {
      Serialize(msg, kernelSpec.key, mac)
    }

    /** `sendShellMessage(msg)`: the message is signed with the connection key and sent. */
    method SendShellMessage(msg: Message)
      modifies this
      ensures sent == old(sent) + [msg]
      ensures kernelSpec == old(kernelSpec) && kernelStatus == old(kernelStatus)
      ensures iopubOpen == old(iopubOpen) && closedSubscribers == old(closedSubscribers)
    {
      sent := sent + [msg];
    }

    /**
      `listenIOPub(func)`: an open subscriber is closed first; then every received message
      is decoded and passed to the handler, whose calls are returned.
    */
    method ListenIOPub(incoming: seq<Incoming>) returns (r: Listening)
      modifies this
      ensures r == Listen(incoming, kernelSpec.key, mac)
      ensures iopubOpen
      ensures closedSubscribers == old(closedSubscribers) + (if old(iopubOpen) then 1 else 0)
      ensures kernelSpec == old(kernelSpec) && kernelStatus == old(kernelStatus) && sent == old(sent)
    {
      if iopubOpen {
        closedSubscribers := closedSubscribers + 1;
      }
      iopubOpen := true;
      var delivered: seq<Delivery> := [];
      var i := 0;
      ghost var closed := closedSubscribers;
      var key := kernelSpec.key;
      assert incoming[0..] == incoming;
      while i < |incoming|
        invariant 0 <= i <= |incoming|
        invariant iopubOpen && closedSubscribers == closed
        invariant kernelSpec == old(kernelSpec) && kernelStatus == old(kernelStatus) && sent == old(sent)
        invariant ListenedUpTo(incoming, i, key, mac, delivered)
      {
        ListenAdvance(incoming, i, key, mac, delivered);
        var o := DeserializeMsg(incoming[i].frames, Some(key), mac);
        if o.Thrown? {
          return Listening(delivered, Some(o.reason));
        }
        delivered := delivered + [Delivery(incoming[i].topic, Forwarded(o))];
        i := i + 1;
      }
      ListenDone(incoming, key, mac, delivered);
      r := Listening(delivered, None);
    }
  }

  /** Each container created was removed (if it existed) just before, under the same name. */
  predicate RemovedBeforeCreated(calls: seq<DockerCall>)
  {
    forall k :: 0 <= k < |calls| && calls[k].Create? ==> 0 < k && calls[k - 1] == Remove(calls[k].name)
  }

  /** Removing a container and then creating it again keeps every creation preceded by its removal. */
  lemma RecreateKeepsOrder(calls: seq<DockerCall>, image: string, name: string)
    requires RemovedBeforeCreated(calls)
    ensures RemovedBeforeCreated(calls + [Remove(name), Create(image, name)])
  {
  }

  /** A kernel of one language, after `new JuliaKernel()` and the like. */
  class CodePodKernel {
    const lang: Lang
    /** The `uuidv4()`/`new Date()` values used for the k-th message this kernel builds. */
    const supply: nat -> Entropy
    /** How many messages this kernel has built. */
    var draws: nat
    var sessionId: Option<string>
    var wire: ZmqWire?
    var docker: seq<DockerCall>

    /** Each container created was removed (if it existed) just before, under the same name. */
    predicate Valid()
      reads this
    {
      RemovedBeforeCreated(docker)
    }

    /** The name `init` and `kill` give the container: `sessionId` is `undefined` before `init`. */
    function Container(): string
      reads this
    {
      ContainerName(sessionId.GetOr("undefined"), lang)
    }

    constructor(lang: Lang, supply: nat -> Entropy)
      ensures this.lang == lang && this.supply == supply
      ensures draws == 0 && sessionId.None? && wire == null && docker == []
      ensures Valid()
    {
      this.lang := lang;
      this.supply := supply;
      draws := 0;
      sessionId := None;
      wire := null;
      docker := [];
    }

    /**
      `init(sessionId)`: the container `cpkernel_<sessionId>_<lang>` is removed and created
      again from the language's image; a new wire connects to it, and the startup code is
      sent under the id `"CODEPOD"`. An empty startup file makes `constructExecuteRequest` throw.
      `files` gives the contents `readFileSync` returns for a path, `connSpecs` the parsed
      connection file, and `ip` the address the new container reports.
    */
    method Init(sessionId: string, ip: string, files: string -> string, connSpecs: string -> ConnSpec, mac: Mac)
      returns (err: Option<string>)
      requires Valid()
      modifies this
      ensures Valid()
      ensures this.sessionId == Some(sessionId)
      ensures docker == old(docker) + [Remove(ContainerName(sessionId, lang)), Create(Image(lang), ContainerName(sessionId, lang))]
      ensures wire != null && fresh(wire) && wire.mac == mac
      ensures var spec := connSpecs(ConnFile(lang)); wire.kernelSpec == (if |ip| > 0 then spec.(ip := ip) else spec)
      ensures err.None? <==> |files(StartupFile(lang))| > 0
      ensures err.None? ==> wire.sent == [ExecuteRequest(files(StartupFile(lang)), "CODEPOD", supply(old(draws)))]
      ensures err.None? ==> draws == old(draws) + 1
      ensures err.Some? ==> wire.sent == [] && draws == old(draws)
    {
      this.sessionId := Some(sessionId);
      var name := ContainerName(sessionId, lang);
      RecreateKeepsOrder(docker, Image(lang), name);
      docker := docker + [Remove(name), Create(Image(lang), name)];
      wire := new ZmqWire(ConnFile(lang), Some(ip), connSpecs, mac);
      var startupCode := files(StartupFile(lang));
      var request := ConstructExecuteRequest(startupCode, "CODEPOD", None, supply(draws));
      if request.Err? {
        return Some(request.error);
      }
      draws := draws + 1;
      wire.SendShellMessage(request.value);
      err := None;
    }

    /** `kill()`: removes the container named after the session and language. */
    method Kill()
      requires Valid()
      modifies this
      ensures Valid()
      ensures docker == old(docker) + [Remove(old(Container()))]
      ensures sessionId == old(sessionId) && wire == old(wire) && draws == old(draws)
    {
      docker := docker + [Remove(Container())];
    }

    /**
      `runCode({code, msg_id})`: sends the execute request; it throws when the kernel has no
      wire yet, or when `code` or `msg_id` is empty, and then sends nothing.
    */
    method RunCode(code: string, msgId: string) returns (err: Option<string>)
      modifies this, wire
      ensures wire == old(wire) && sessionId == old(sessionId) && docker == old(docker)
      ensures err.None? <==> wire != null && |code| > 0 && |msgId| > 0
      ensures err.None? ==>
        wire.sent == old(wire.sent) + [ExecuteRequest(code, msgId, supply(old(draws)))] &&
        draws == old(draws) + 1
      ensures err.Some? ==> draws == old(draws) && (wire != null ==> wire.sent == old(wire.sent))
      ensures wire != null ==> wire.kernelSpec == old(wire.kernelSpec) && wire.kernelStatus == old(wire.kernelStatus)
      ensures wire != null ==> wire.iopubOpen == old(wire.iopubOpen) && wire.closedSubscribers == old(wire.closedSubscribers)
    {
      if wire == null {
        return Some("TypeError");
      }
      var request := ConstructExecuteRequest(code, msgId, None, supply(draws));
      if request.Err? {
        return Some(request.error);
      }
      draws := draws + 1;
      wire.SendShellMessage(request.value);
      err := None;
    }

    /** `requestKernelStatus()`: a `kernel_info_request` under a fresh uuid. */
    method RequestKernelStatus() returns (err: Option<string>)
      modifies this, wire
      ensures wire == old(wire) && sessionId == old(sessionId) && docker == old(docker)
      ensures err.None? <==> wire != null
      ensures err.None? ==>
        wire.sent == old(wire.sent) + [ConstructMessage("kernel_info_request", None, None, supply(old(draws))).value] &&
        draws == old(draws) + 1
      ensures err.Some? ==> draws == old(draws)
      ensures wire != null ==> wire.kernelSpec == old(wire.kernelSpec) && wire.kernelStatus == old(wire.kernelStatus)
      ensures wire != null ==> wire.iopubOpen == old(wire.iopubOpen) && wire.closedSubscribers == old(wire.closedSubscribers)
    {
      if wire == null {
        return Some("TypeError");
      }
      var request := ConstructMessage("kernel_info_request", None, None, supply(draws));
      draws := draws + 1;
      wire.SendShellMessage(request.value);
      err := None;
    }

    /** `eval({code, podId, namespace})`: the language's evaluation text, correlated by the pod id. */
    method Eval(code: string, podId: string, namespace: string) returns (err: Option<string>)
      modifies this, wire
      ensures wire == old(wire) && sessionId == old(sessionId) && docker == old(docker)
      ensures err.None? <==> wire != null && |podId| > 0
      ensures err.None? ==>
        wire.sent == old(wire.sent) + [ExecuteRequest(MapEval(lang, code, namespace, None), podId, supply(old(draws)))]
      ensures err.Some? ==> wire != null ==> wire.sent == old(wire.sent)
      ensures err.None? ==> draws == old(draws) + 1
      ensures err.Some? ==> draws == old(draws)
      ensures wire != null ==> wire.kernelSpec == old(wire.kernelSpec) && wire.kernelStatus == old(wire.kernelStatus)
      ensures wire != null ==> wire.iopubOpen == old(wire.iopubOpen) && wire.closedSubscribers == old(wire.closedSubscribers)
    {
      err := RunCode(MapEval(lang, code, namespace, None), podId);
    }

    /** `evalRaw({code, podId})`: the code itself, correlated by the pod id. */
    method EvalRaw(code: string, podId: string) returns (err: Option<string>)
      modifies this, wire
      ensures wire == old(wire) && sessionId == old(sessionId) && docker == old(docker)
      ensures err.None? <==> wire != null && |code| > 0 && |podId| > 0
      ensures err.None? ==>
        wire.sent == old(wire.sent) + [ExecuteRequest(code, podId, supply(old(draws)))]
      ensures err.Some? ==> wire != null ==> wire.sent == old(wire.sent)
      ensures err.None? ==> draws == old(draws) + 1
      ensures err.Some? ==> draws == old(draws)
      ensures wire != null ==> wire.kernelSpec == old(wire.kernelSpec) && wire.kernelStatus == old(wire.kernelStatus)
      ensures wire != null ==> wire.iopubOpen == old(wire.iopubOpen) && wire.closedSubscribers == old(wire.closedSubscribers)
    {
      err := RunCode(code, podId);
    }

    /** `addImport({id, from, to, name})`: the language's import text, correlated by `id#name`. */
    method AddImport(id: string, from: string, to: string, name: string) returns (err: Option<string>)
      modifies this, wire
      ensures wire == old(wire) && sessionId == old(sessionId) && docker == old(docker)
      ensures err.None? <==> wire != null
      ensures err.None? ==>
        wire.sent == old(wire.sent) + [ExecuteRequest(MapAddImport(lang, from, to, name), ImportId(id, name), supply(old(draws)))]
      ensures err.Some? ==> wire != null ==> wire.sent == old(wire.sent)
      ensures err.None? ==> draws == old(draws) + 1
      ensures err.Some? ==> draws == old(draws)
      ensures wire != null ==> wire.kernelSpec == old(wire.kernelSpec) && wire.kernelStatus == old(wire.kernelStatus)
      ensures wire != null ==> wire.iopubOpen == old(wire.iopubOpen) && wire.closedSubscribers == old(wire.closedSubscribers)
    {
      err := RunCode(MapAddImport(lang, from, to, name), ImportId(id, name));
    }

    /** `deleteImport({id, ns, name})`: the language's delete text, correlated by `id#name`. */
    method DeleteImport(id: string, ns: string, name: string) returns (err: Option<string>)
      modifies this, wire
      ensures wire == old(wire) && sessionId == old(sessionId) && docker == old(docker)
      ensures err.None? <==> wire != null
      ensures err.None? ==>
        wire.sent == old(wire.sent) + [ExecuteRequest(MapDeleteImport(lang, ns, name), ImportId(id, name), supply(old(draws)))]
      ensures err.Some? ==> wire != null ==> wire.sent == old(wire.sent)
      ensures err.None? ==> draws == old(draws) + 1
      ensures err.Some? ==> draws == old(draws)
      ensures wire != null ==> wire.kernelSpec == old(wire.kernelSpec) && wire.kernelStatus == old(wire.kernelStatus)
      ensures wire != null ==> wire.iopubOpen == old(wire.iopubOpen) && wire.closedSubscribers == old(wire.closedSubscribers)
    {
      err := RunCode(MapDeleteImport(lang, ns, name), ImportId(id, name));
    }

    /**
      `ensureImports({id, from, to, names})`: one import request per name, in order, each
      correlated by `id#name`. Only Python defines `mapEnsureImports`; elsewhere the first
      name makes the call throw before anything is sent, and an empty list sends nothing.
    */
    method EnsureImports(id: string, from: string, to: string, names: seq<string>) returns (err: Option<string>)
      modifies this, wire
      ensures wire == old(wire) && sessionId == old(sessionId) && docker == old(docker)
      ensures err.None? <==> names == [] || (lang == Python && wire != null)
      ensures err.None? && wire != null ==>
        wire.sent == old(wire.sent) + EnsureRequests(id, from, to, names, supply, old(draws))
      ensures err.Some? ==> wire != null ==> wire.sent == old(wire.sent)
      ensures err.None? ==> draws == old(draws) + |names|
      ensures err.Some? ==> draws == old(draws)
      ensures wire != null ==> wire.kernelSpec == old(wire.kernelSpec) && wire.kernelStatus == old(wire.kernelStatus)
      ensures wire != null ==> wire.iopubOpen == old(wire.iopubOpen) && wire.closedSubscribers == old(wire.closedSubscribers)
    {
      if names == [] {
        assert EnsureRequests(id, from, to, names, supply, draws) == [];
        return None;
      }
      if lang != Python {
        return Some("TypeError");
      }
      if wire == null {
        return Some("TypeError");
      }
      ghost var requests := EnsureRequests(id, from, to, names, supply, draws);
      var i := 0;
      while i < |names|
        invariant 0 <= i <= |names|
        invariant wire == old(wire) && sessionId == old(sessionId) && docker == old(docker)
        invariant draws == old(draws) + i
        invariant wire.sent == old(wire.sent) + requests[..i]
        invariant wire.kernelSpec == old(wire.kernelSpec) && wire.kernelStatus == old(wire.kernelStatus)
        invariant wire.iopubOpen == old(wire.iopubOpen) && wire.closedSubscribers == old(wire.closedSubscribers)
      {
        var code := MapEnsureImports(lang, from, to, names[i]).value;
        assert requests[i] == ExecuteRequest(code, ImportId(id, names[i]), supply(draws));
        var e := RunCode(code, ImportId(id, names[i]));
        assert e.None?;
        assert requests[..i + 1] == requests[..i] + [requests[i]];
        i := i + 1;
      }
      assert requests[..i] == requests;
      err := None;
    }
  }

  /**
    `createKernel({lang, sessionId})`: "julia", "js", "racket" and "python" select a kernel,
    which is initialised; any other language gives `undefined`. `files` and `connSpecs` give
    the contents of the files the kernel reads, `ip` the address of its container.
  */
  method CreateKernel(lang: string, sessionId: string, ip: string, files: string -> string,
                      connSpecs: string -> ConnSpec, supply: nat -> Entropy, mac: Mac)
    returns (k: CodePodKernel?, err: Option<string>)
    ensures k == null <==> LangOf(lang).None?
    ensures k == null ==> err.None?
    ensures k != null ==>
      fresh(k) && k.Valid() && k.lang == LangOf(lang).value && k.sessionId == Some(sessionId) &&
      k.docker == [Remove(ContainerName(sessionId, k.lang)), Create(Image(k.lang), ContainerName(sessionId, k.lang))] &&
      (err.None? <==> |files(StartupFile(k.lang))| > 0)
    ensures k != null ==>
      k.wire != null && fresh(k.wire) && k.wire.mac == mac &&
      k.wire.kernelSpec == (var spec := connSpecs(ConnFile(k.lang)); if |ip| > 0 then spec.(ip := ip) else spec) &&
      (err.None? ==> k.wire.sent == [ExecuteRequest(files(StartupFile(k.lang)), "CODEPOD", supply(0))] && k.draws == 1) &&
      (err.Some? ==> k.wire.sent == [] && k.draws == 0)
  {
    var l := LangOf(lang);
    if l.None? {
      return null, None;
    }
    k := new CodePodKernel(l.value, supply);
    err := k.Init(sessionId, ip, files, connSpecs, mac);
  }

  // ---------------------------------------------------------------------------
  // What the kernel receives
  // ---------------------------------------------------------------------------

  /**
    An evaluation request reaches the kernel under the pod's id, carrying the evaluation text
    as its code; inside that text the kernel receives the pod's code as written exactly when
    it is `Verbatim` (Racket, Julia, JavaScript), and for Python whenever the code holds no
    backslash and no carriage return.
  */
  lemma EvalReachesKernel(l: Lang, code: string, podId: string, namespace: string, e: Entropy, key: string, mac: Mac)
    requires |podId| > 0 && podId != Delimiter
    ensures var text := MapEval(l, code, namespace, None);
      |text| > 0 &&
      var d := Decode(Serialize(ExecuteRequest(text, podId, e), key, mac), Some(key), mac);
      d.Decoded? && d.msg.idents == [podId] &&
      Get(d.msg.header, "msg_id") == Some(JStr(podId)) &&
      Get(d.msg.content, "code") == Some(JStr(text)) &&
      (l != Python ==> (ReadsBack(l, code, namespace, None) <==> Verbatim(l, code))) &&
      (l == Python && '\\' !in code && '\r' !in code ==> ReadsBack(l, code, namespace, None))
  {
    var text := MapEval(l, code, namespace, None);
    assert |EvalPrefix(l)| > 0;
    ExecuteRequestOnTheWire(text, podId, e, key, mac);
    MapEvalReadsBack(l, code, namespace, None);
  }

  /** A message the handler receives as decoded came with exactly the identities before the delimiter. */
  lemma ListenedIdents(incoming: seq<Incoming>, key: string, mac: Mac, k: nat)
    requires k < |Listen(incoming, key, mac).delivered|
    requires Listen(incoming, key, mac).delivered[k].msg.Some?
    ensures var m := Listen(incoming, key, mac).delivered[k].msg.value;
      var f := incoming[k].frames;
      |m.idents| < |f| && f[..|m.idents|] == m.idents && f[|m.idents|] == Delimiter && Delimiter !in m.idents
  {
    ListenDelivers(incoming, key, mac);
    AsWrittenAgrees(incoming[k].frames, Some(key), mac);
    DecodedIdents(incoming[k].frames, Some(key), mac);
  }
}
