/** The dispatch server of src/ipc/server.cpp: handshake, then one response per request frame. */
module Server {
  import opened Common
  import opened JsonValue
  import opened JsonText
  import opened JsonRoundTrip
  import opened JsonMachine
  import opened Frame

  // ----- messages

  const PROTOCOL_VERSION: int := 1

  /** What a method handler leaves behind; a non-empty `code` is a failure. */
  datatype Outcome<S> = Outcome(state: S, result: Value, code: string, msg: string)

  /** Handlers act on a state of the engine that they share. */
  type Handlers<!S> = map<string, (S, Value) -> Outcome<S>>

  function Hello(version: string): Value {
    Obj(map["kind" := Str("hello"), "protocolVersion" := Num(PROTOCOL_VERSION as real),
            "engineVersion" := Str(version)])
  }

  /** A frame that `run` answers: a JSON object whose kind is "req". */
  predicate IsRequest(raw: string) {
    var m := Parse(raw);
    m.Some? && m.value.Obj? && m.value.GetStr("kind") == "req"
  }

  /** The peer's hello, with its version number truncated to an int. */
  predicate IsHello(raw: string) {
    var m := Parse(raw);
    && m.Some? && m.value.Obj? && m.value.GetStr("kind") == "hello"
    && CastInt(m.value.GetNum("protocolVersion", -1.0)) == PROTOCOL_VERSION
  }

  const UINT64_LIMIT: int := 0x1_0000_0000_0000_0000

  /** `static_cast<uint64_t>` of a double: truncation. Outside the range of uint64_t the C++ cast is
      undefined, and so is what this model says of it. */
  function CastUint64(x: real): nat {
    if 0.0 <= x < UINT64_LIMIT as real then x.Floor else 0
  }

  function CastInt(x: real): int {
    if x >= 0.0 then x.Floor else -((-x).Floor)
  }

  function RequestId(msg: Value): nat {
    CastUint64(msg.GetNum("id"))
  }

  function Dispatch<S>(hs: Handlers<S>, st: S, msg: Value): Outcome<S> {
    var name := msg.GetStr("method");
    var params := msg.Find("params");
    if name !in hs then Outcome(st, Null, "unsupported_method", "unknown method: " + name)
    else hs[name](st, if params.Some? then params.value else Obj(map[]))
  }

  function Response<S>(id: nat, o: Outcome<S>): Value {
    if o.code == "" then
      Obj(map["kind" := Str("res"), "id" := Num(id as real), "ok" := Bool(true), "result" := o.result])
    else
      Obj(map["kind" := Str("res"), "id" := Num(id as real), "ok" := Bool(false),
              "error" := Obj(map["code" := Str(o.code), "message" := Str(o.msg)])])
  }

  /** The responses to a list of frames and the state after them. */
  datatype Served<S> = Served(state: S, responses: seq<Value>)

  function Serve<S>(hs: Handlers<S>, st: S, frames: seq<string>): Served<S>
    decreases |frames|
  {
    if frames == [] then Served(st, [])
    else if !IsRequest(frames[0]) then Serve(hs, st, frames[1..])
    else
      var msg := Parse(frames[0]).value;
      var o := Dispatch(hs, st, msg);
      var tail := Serve(hs, o.state, frames[1..]);
      Served(tail.state, [Response(RequestId(msg), o)] + tail.responses)
  }

  // ----- what the responses say

  function Requests(frames: seq<string>): (r: seq<Value>)
    ensures |r| <= |frames|
  {
    if frames == [] then []
    else if IsRequest(frames[0]) then [Parse(frames[0]).value] + Requests(frames[1..])
    else Requests(frames[1..])
  }

  /** The engine state in which the i-th request is handled. */
  function StateBefore<S>(hs: Handlers<S>, st: S, reqs: seq<Value>, i: nat): S
    requires i <= |reqs|
    decreases i
  {
    if i == 0 then st else Dispatch(hs, StateBefore(hs, st, reqs, i - 1), reqs[i - 1]).state
  }

  /** `res` answers `req` with the outcome `o`. */
  ghost predicate Answers<S>(res: Value, req: Value, o: Outcome<S>) {
    && res.Obj? && res.GetStr("kind") == "res"
    && res.Find("id") == Some(Num(RequestId(req) as real))
    && (o.code == "" ==>
          && res.Find("ok") == Some(Bool(true)) && res.Find("result") == Some(o.result)
          && res.o.Keys == {"kind", "id", "ok", "result"})
    && (o.code != "" ==>
          && res.Find("ok") == Some(Bool(false))
          && res.Find("error") == Some(Obj(map["code" := Str(o.code), "message" := Str(o.msg)]))
          && res.o.Keys == {"kind", "id", "ok", "error"})
  }

  lemma ResponseAnswers<S>(req: Value, o: Outcome<S>)
    ensures Answers(Response(RequestId(req), o), req, o)
  {
  }

  lemma {:induction false} StateShift<S>(hs: Handlers<S>, st: S, reqs: seq<Value>, i: nat)
    requires i < |reqs|
    ensures StateBefore(hs, st, reqs, i + 1) == StateBefore(hs, Dispatch(hs, st, reqs[0]).state, reqs[1..], i)
  {
    hide Dispatch;
    if i > 0 {
      StateShift(hs, st, reqs, i - 1);
    }
  }

  /** Request by request, each answered in the state the earlier ones left. */
  ghost predicate Answered<S>(hs: Handlers<S>, st: S, reqs: seq<Value>, rs: seq<Value>)
    decreases |reqs|
  {
    && |rs| == |reqs|
    && (reqs != [] ==>
          var o := Dispatch(hs, st, reqs[0]);
          Answers(rs[0], reqs[0], o) && Answered(hs, o.state, reqs[1..], rs[1..]))
  }

  lemma {:induction false} ServeAnswered<S>(hs: Handlers<S>, st: S, frames: seq<string>)
    ensures Answered(hs, st, Requests(frames), Serve(hs, st, frames).responses)
    ensures Serve(hs, st, frames).state == StateBefore(hs, st, Requests(frames), |Requests(frames)|)
    decreases |frames|
  {
    hide Parse, Dispatch, Response, Answers;
    if frames != [] {
      if IsRequest(frames[0]) {
        var msg := Parse(frames[0]).value;
        var o := Dispatch(hs, st, msg);
        ServeAnswered(hs, o.state, frames[1..]);
        ResponseAnswers(msg, o);
        var reqs, rs := Requests(frames), Serve(hs, st, frames).responses;
        assert reqs[1..] == Requests(frames[1..]);
        assert rs[1..] == Serve(hs, o.state, frames[1..]).responses;
        StateShift(hs, st, reqs, |reqs| - 1);
      } else {
        ServeAnswered(hs, st, frames[1..]);
      }
    }
  }

  lemma {:induction false} AnsweredAt<S>(hs: Handlers<S>, st: S, reqs: seq<Value>, rs: seq<Value>, i: nat)
    requires Answered(hs, st, reqs, rs) && i < |reqs|
    ensures Answers(rs[i], reqs[i], Dispatch(hs, StateBefore(hs, st, reqs, i), reqs[i]))
    decreases i
  {
    hide Dispatch, Answers;
    if i > 0 {
      AnsweredAt(hs, Dispatch(hs, st, reqs[0]).state, reqs[1..], rs[1..], i - 1);
      StateShift(hs, st, reqs, i - 1);
    }
  }

  /** Exactly one response per request, in request order, each echoing its request's id and carrying
      what its handler made of the state the earlier requests left. */
  lemma ServeAnswers<S>(hs: Handlers<S>, st: S, frames: seq<string>)
    ensures
      var reqs, s := Requests(frames), Serve(hs, st, frames);
      && |s.responses| == |reqs|
      && s.state == StateBefore(hs, st, reqs, |reqs|)
      && forall i :: 0 <= i < |reqs| ==>
        Answers(s.responses[i], reqs[i], Dispatch(hs, StateBefore(hs, st, reqs, i), reqs[i]))
  {
    hide Serve, Requests, Dispatch, Answers, StateBefore;
    var reqs, s := Requests(frames), Serve(hs, st, frames);
    ServeAnswered(hs, st, frames);
    forall i | 0 <= i < |reqs|
      ensures Answers(s.responses[i], reqs[i], Dispatch(hs, StateBefore(hs, st, reqs, i), reqs[i]))
    {
      AnsweredAt(hs, st, reqs, s.responses, i);
    }
  }

  // ----- end to end

  function Texts(vs: seq<Value>, g: RealFormat): (r: seq<string>)
    ensures |r| == |vs| && forall i :: 0 <= i < |vs| ==> r[i] == Dump(vs[i], g)
  {
    seq(|vs|, i requires 0 <= i < |vs| => Dump(vs[i], g))
  }

  /** What the launcher decodes from a stream: every frame parsed. */
  function Received(bytes: string): seq<Option<Value>> {
    var fs := Decode(bytes).frames;
    seq(|fs|, i requires 0 <= i < |fs| => Parse(fs[i]))
  }

  ghost predicate AllPrint(vs: seq<Value>) {
    forall i :: 0 <= i < |vs| ==> Printable(vs[i])
  }

  lemma PrintsFirst(v: Value, vs: seq<Value>)
    requires Printable(v) && AllPrint(vs)
    ensures AllPrint([v] + vs)
  {
  }

  lemma ReceivedIsSent(vs: seq<Value>, g: RealFormat)
    requires Fit(Texts(vs, g)) && AllPrint(vs)
    ensures Received(EncodeAll(Texts(vs, g))) == seq(|vs|, i requires 0 <= i < |vs| => Some(vs[i]))
  {
    DecodeEncoded(Texts(vs, g));
    forall i | 0 <= i < |vs| ensures Parse(Texts(vs, g)[i]) == Some(vs[i]) {
      ParseDump(vs[i], g);
    }
  }

  /** The launcher's side of a session: ids are integers in [0, 9e15) and the handlers' results print. */
  ghost predicate WellBehaved<S>(hs: Handlers<S>, st: S, frames: seq<string>)
    decreases |frames|
  {
    if frames == [] then true
    else if !IsRequest(frames[0]) then WellBehaved(hs, st, frames[1..])
    else
      var msg := Parse(frames[0]).value;
      var x := msg.GetNum("id");
      var o := Dispatch(hs, st, msg);
      && 0.0 <= x && IsPrintableInt(x) && Printable(o.result) && WellBehaved(hs, o.state, frames[1..])
  }

  lemma {:induction false} ResponsesPrint<S>(hs: Handlers<S>, st: S, frames: seq<string>)
    requires WellBehaved(hs, st, frames)
    ensures AllPrint(Serve(hs, st, frames).responses)
    decreases |frames|
  {
    hide Parse, Dispatch, Response, Printable;
    if frames != [] {
      if IsRequest(frames[0]) {
        var msg := Parse(frames[0]).value;
        var o := Dispatch(hs, st, msg);
        ResponsesPrint(hs, o.state, frames[1..]);
        ResponsePrints(msg, o);
        PrintsFirst(Response(RequestId(msg), o), Serve(hs, o.state, frames[1..]).responses);
      } else {
        ResponsesPrint(hs, st, frames[1..]);
        assert Serve(hs, st, frames) == Serve(hs, st, frames[1..]);
      }
    }
  }

  lemma ResponsePrints<S>(msg: Value, o: Outcome<S>)
    requires 0.0 <= msg.GetNum("id") && IsPrintableInt(msg.GetNum("id")) && Printable(o.result)
    ensures Printable(Response(RequestId(msg), o))
    ensures RequestId(msg) as real == msg.GetNum("id")
  {
    var x := msg.GetNum("id");
    assert x.Floor as real == x;
    assert CastUint64(x) == x.Floor;
  }

  /** Everything the engine sends in a session with these frames. */
  function Sent<S>(hs: Handlers<S>, st: S, version: string, frames: seq<string>): seq<Value> {
    [Hello(version)] + Serve(hs, st, frames).responses
  }

  /** Each response carries the id that its request carried. */
  ghost predicate EchoesIds(reqs: seq<Value>, rs: seq<Value>) {
    |rs| == |reqs| && forall i :: 0 <= i < |rs| ==> rs[i].Find("id") == Some(Num(reqs[i].GetNum("id")))
  }

  lemma EchoFirst(req: Value, res: Value, reqs: seq<Value>, rs: seq<Value>)
    requires EchoesIds(reqs, rs) && res.Find("id") == Some(Num(req.GetNum("id")))
    ensures EchoesIds([req] + reqs, [res] + rs)
  {
  }

  lemma {:induction false} IdsAreEchoed<S>(hs: Handlers<S>, st: S, frames: seq<string>)
    requires WellBehaved(hs, st, frames)
    ensures EchoesIds(Requests(frames), Serve(hs, st, frames).responses)
    decreases |frames|
  {
    hide Parse, Dispatch, Response, Printable, EchoesIds, RequestId, IsPrintableInt;
    if frames == [] {
      assert EchoesIds([], []) by { NoEchoes(); }
    } else if IsRequest(frames[0]) {
      var msg := Parse(frames[0]).value;
      var o := Dispatch(hs, st, msg);
      IdsAreEchoed(hs, o.state, frames[1..]);
      ResponsePrints(msg, o);
      ResponseId(RequestId(msg), o);
      EchoFirst(msg, Response(RequestId(msg), o), Requests(frames[1..]), Serve(hs, o.state, frames[1..]).responses);
    } else {
      IdsAreEchoed(hs, st, frames[1..]);
    }
  }

  lemma NoEchoes()
    ensures EchoesIds([], [])
  {
  }

  lemma ResponseId<S>(id: nat, o: Outcome<S>)
    ensures Response(id, o).Find("id") == Some(Num(id as real))
  {
  }

  lemma HelloPrints(version: string)
    ensures Printable(Hello(version))
  {
    assert (1.0).Floor == 1;
  }

  /** Through framing and JSON and back, the launcher receives one hello and then the responses. */
  lemma EndToEnd<S>(hs: Handlers<S>, st: S, version: string, frames: seq<string>, g: RealFormat)
    requires WellBehaved(hs, st, frames) && Fit(Texts(Sent(hs, st, version, frames), g))
    ensures
      var rs := Serve(hs, st, frames).responses;
      var got := Received(EncodeAll(Texts(Sent(hs, st, version, frames), g)));
      && |got| == 1 + |Requests(frames)| == 1 + |rs|
      && got[0] == Some(Hello(version))
      && Answered(hs, st, Requests(frames), rs) && EchoesIds(Requests(frames), rs)
      && forall i :: 0 <= i < |rs| ==> got[i + 1] == Some(rs[i])
  {
    hide EchoesIds;
    IdsAreEchoed(hs, st, frames);
    hide Texts, Fit, EncodeAll, Serve, Requests, WellBehaved, Hello, Received;
    SentReceived(hs, st, version, frames, g);
    ServeAnswered(hs, st, frames);
    var rs := Serve(hs, st, frames).responses;
    var got := Received(EncodeAll(Texts(Sent(hs, st, version, frames), g)));
    HelloFirst(Hello(version), rs, got);
  }

  lemma HelloFirst(hello: Value, rs: seq<Value>, got: seq<Option<Value>>)
    requires |got| == |[hello] + rs| && forall i :: 0 <= i < |[hello] + rs| ==> got[i] == Some(([hello] + rs)[i])
    ensures |got| == 1 + |rs| && got[0] == Some(hello) && forall i :: 0 <= i < |rs| ==> got[i + 1] == Some(rs[i])
  {
    forall i | 0 <= i < |rs| ensures got[i + 1] == Some(rs[i]) {
      assert rs[i] == ([hello] + rs)[i + 1];
    }
  }

  lemma SentReceived<S>(hs: Handlers<S>, st: S, version: string, frames: seq<string>, g: RealFormat)
    requires WellBehaved(hs, st, frames) && Fit(Texts(Sent(hs, st, version, frames), g))
    ensures
      var sent := Sent(hs, st, version, frames);
      var got := Received(EncodeAll(Texts(sent, g)));
      |got| == |sent| && forall i :: 0 <= i < |sent| ==> got[i] == Some(sent[i])
  {
    hide Texts, Fit, EncodeAll, Serve, WellBehaved, AllPrint, Hello, Received;
    var vs := Sent(hs, st, version, frames);
    ResponsesPrint(hs, st, frames);
    HelloPrints(version);
    PrintsFirst(Hello(version), Serve(hs, st, frames).responses);
    ReceivedIsSent(vs, g);
  }

  // ----- what a launcher's own messages become

  /** The field of an object is this string. */
  ghost predicate HasString(v: Value, k: string, s: string) {
    v.Obj? && k in v.o && v.o[k] == Str(s)
  }

  /** A frame is answered exactly if it parses to an object whose "kind" is "req". */
  lemma AnsweredFrames(raw: string)
    ensures IsRequest(raw) <==> exists v :: Parse(raw) == Some(v) && HasString(v, "kind", "req")
  {
    hide Parse;
    assert "req" != "";
  }

  /** An object whose "kind" is "hello" and whose "protocolVersion" is a number that truncates to 1. */
  ghost predicate Greets(v: Value) {
    && HasString(v, "kind", "hello")
    && "protocolVersion" in v.o && v.o["protocolVersion"].Num? && 1.0 <= v.o["protocolVersion"].n < 2.0
  }

  ghost predicate Greeting(raw: string) {
    exists v :: Parse(raw) == Some(v) && Greets(v)
  }

  /** Exactly these frames are taken for a hello. */
  lemma AcceptedHellos(raw: string)
    ensures IsHello(raw) <==> Greeting(raw)
  {
    hide Parse;
    assert "hello" != "";
    if Parse(raw).Some? {
      var v := Parse(raw).value;
      if v.Obj? && "protocolVersion" in v.o && v.o["protocolVersion"].Num? {
        TruncatesToOne(v.o["protocolVersion"].n);
      } else {
        TruncatesToOne(-1.0);
      }
      hide CastInt;
      assert IsHello(raw) <==> Greets(v);
    }
  }

  lemma PrintedHellos(v: Value, g: RealFormat)
    requires Printable(v)
    ensures Greeting(Dump(v, g)) <==> Greets(v)
  {
    hide Parse, Dump, Greets;
    ParseDump(v, g);
  }

  lemma TruncatesToOne(x: real)
    ensures CastInt(x) == 1 <==> 1.0 <= x < 2.0
  {
    if x >= 0.0 {
      var f := x.Floor;
      assert f as real <= x < f as real + 1.0;
    } else {
      assert (-x).Floor >= 0;
    }
  }

  /** The engine's own messages, field by field. */
  lemma EngineMessages(version: string, event: string, data: Value)
    ensures
      var h := Hello(version);
      && HasString(h, "kind", "hello") && HasString(h, "engineVersion", version)
      && h.Find("protocolVersion") == Some(Num(1.0)) && h.o.Keys == {"kind", "engineVersion", "protocolVersion"}
    ensures
      var e := EventValue(event, data);
      && HasString(e, "kind", "event") && HasString(e, "event", event)
      && e.Find("data") == Some(data) && e.o.Keys == {"kind", "event", "data"}
  {
  }

  /** A request as a launcher writes it. */
  function RequestValue(id: nat, name: string, params: Option<Value>): Value {
    var m := map["kind" := Str("req"), "id" := Num(id as real), "method" := Str(name)];
    Obj(if params.Some? then m["params" := params.value] else m)
  }

  /** Its frame is a request, with its id and method; the handler of that name gets its parameters, or
      an empty object; without one the state stays and the error names the method. */
  lemma RequestIsHandled<S>(hs: Handlers<S>, st: S, id: nat, name: string, params: Option<Value>, g: RealFormat)
    requires id < INT_LIMIT && (params.Some? ==> Printable(params.value))
    ensures
      var req := RequestValue(id, name, params);
      var o := Dispatch(hs, st, req);
      && Parse(Dump(req, g)) == Some(req) && IsRequest(Dump(req, g)) && RequestId(req) == id
      && (name in hs ==> o == hs[name](st, if params.Some? then params.value else Obj(map[])))
      && (name !in hs ==> o.state == st && o.code == "unsupported_method" && o.msg == "unknown method: " + name)
  {
    hide Parse, Dump, RequestValue, Printable;
    RequestParts(id, name, params);
    ParseDump(RequestValue(id, name, params), g);
  }

  lemma RequestParts(id: nat, name: string, params: Option<Value>)
    requires id < INT_LIMIT && (params.Some? ==> Printable(params.value))
    ensures
      var req := RequestValue(id, name, params);
      && req.Obj? && Printable(req) && RequestId(req) == id
      && req.GetStr("kind") == "req" && req.GetStr("method") == name && req.Find("params") == params
  {
    assert (id as real).Floor == id;
  }

  /** The engine's hello passes the test that the engine applies to the launcher's. */
  lemma HelloIsHello(version: string, g: RealFormat)
    ensures Greeting(Dump(Hello(version), g))
  {
    hide Parse, Dump, Printable, Hello;
    HelloPrints(version);
    EngineMessages(version, "", Null);
    PrintedHellos(Hello(version), g);
  }

  /** An unsolicited event, as `emit` builds it. */
  function EventValue(event: string, data: Value): Value {
    Obj(map["kind" := Str("event"), "event" := Str(event), "data" := data])
  }

  lemma EventPrints(event: string, data: Value)
    requires Printable(data)
    ensures Printable(EventValue(event, data)) && EventValue(event, data).GetStr("kind") == "event"
  {
  }

  // ----- the server as it runs

  class Server<S> {
    const t: Transport
    const handlers: Handlers<S>
    const version: string
    const g: RealFormat
    var state: S

    constructor (t: Transport, hs: Handlers<S>, st: S, version: string, g: RealFormat)
      ensures this.t == t && handlers == hs && state == st && this.version == version && this.g == g
    {
      this.t, this.handlers, this.state, this.version, this.g := t, hs, st, version, g;
    }

    /** Sends the hello, then accepts exactly a hello of the same protocol version. */
    method Handshake() returns (ok: bool)
      modifies t
      ensures
        var hello := Dump(Hello(version), g);
        var written := |hello| <= MAX_FRAME && 4 + |hello| <= old(t.room);
        var next := Next(old(t.input));
        && (ok <==> written && next.Got? && Greeting(next.payload))
        && (written ==> t.output == old(t.output) + Encode(hello) && t.room == old(t.room) - 4 - |hello|)
        && (!written ==> t.output == old(t.output) + (if |hello| > MAX_FRAME then "" else Encode(hello)[..old(t.room)]))
        && (ok ==> t.input == next.rest)
    {
      hide Dump, Parse, Next, Encode, Greets;
      var text := DumpText(Hello(version), g);
      var err := WriteFrame(t, text);
      if err.Some? { return false; }
      var got, raw, rerr := ReadFrame(t);
      if !got { return false; }
      AcceptedHellos(raw);
      var peer := ParseText(raw);
      if peer.None? || !peer.value.Obj? { return false; }
      if peer.value.GetStr("kind") != "hello" { return false; }
      ok := CastInt(peer.value.GetNum("protocolVersion", -1.0)) == PROTOCOL_VERSION;
    }

    /** The outcome of `run` when nothing fails to be written: every response framed in order, and
        success exactly at a clean end of input. */
    ghost predicate RanThrough(frames: Stream, st: S, before: string, ok: bool)
      reads this, t
    {
      var s := Serve(handlers, st, frames.frames);
      var texts := Texts(s.responses, g);
      && Fit(texts) && t.output == before + EncodeAll(texts) && state == s.state
      && ok == frames.err.None?
    }

    method Run() returns (ok: bool)
      modifies this, t
      ensures
        var frames := Decode(old(t.input));
        var texts := Texts(Serve(handlers, old(state), frames.frames).responses, g);
        Fit(texts) && |EncodeAll(texts)| <= old(t.room)
        ==> RanThrough(frames, old(state), old(t.output), ok)
      ensures ok ==> RanThrough(Decode(old(t.input)), old(state), old(t.output), ok)
      ensures
        var frames := Decode(old(t.input));
        var texts := Texts(Serve(handlers, old(state), frames.frames).responses, g);
        && t.output == old(t.output) + Delivered(texts, old(t.room))
        && (ok <==> Fit(texts) && |EncodeAll(texts)| <= old(t.room) && frames.err.None?)
    {
      hide Dump, Parse, Encode, EncodeAll, Next, Response, RequestId, Dispatch, Decode, Serve, Fit, Delivered;
      ghost var sent: seq<Value> := [];
      assert Texts(sent, g) == [];
      assert Fit([]) by { NoFrames(); }
      assert EncodeAll([]) == "" by { NoFrames(); }
      ghost var frames := Decode(t.input);
      ghost var all := Serve(handlers, state, frames.frames).responses;
      while true
        invariant Fit(Texts(sent, g))
        invariant t.output == old(t.output) + EncodeAll(Texts(sent, g))
        invariant t.room == old(t.room) - |EncodeAll(Texts(sent, g))|
        invariant
          var rest := Serve(handlers, state, Decode(t.input).frames);
          all == sent + rest.responses && rest.state == Serve(handlers, old(state), frames.frames).state
        invariant Decode(t.input).err == frames.err
        decreases |t.input|
      {
        DecodeNext(t.input);
        var got, raw, rerr := ReadFrame(t);
        if !got {
          ServeNone(handlers, state);
          assert sent + [] == sent;
          DeliveredAll(Texts(sent, g), old(t.room));
          return rerr.None?;
        }
        ghost var later := Decode(t.input).frames;
        var msg := ParseText(raw);
        ServeFirst(handlers, state, raw, later);
        if msg.None? || !msg.value.Obj? || msg.value.GetStr("kind") != "req" {
          continue;
        }
        var o := Dispatch(handlers, state, msg.value);
        state := o.state;
        var res := Response(RequestId(msg.value), o);
        var text := DumpText(res, g);
        var werr := WriteFrame(t, text);
        ghost var rest := Serve(handlers, state, later).responses;
        assert sent + ([res] + rest) == (sent + [res]) + rest;
        if werr.Some? {
          TextsAround(sent, res, rest, g);
          DeliveredUpTo(Texts(sent, g), text, Texts(rest, g), old(t.room));
          return false;
        }
        SentOneMore(sent, res, g);
        sent := sent + [res];
      }
    }

    /** Handshake and loop. From a launcher that opens with a hello, behaves well and takes every
        byte, decoding the output gives one hello and then the response to each request in turn. */
    method Session() returns (ok: bool)
      requires t.output == ""
      modifies this, t
      ensures
        var next := Next(old(t.input));
        next.Got? && Greeting(next.payload) ==>
          var frames := Decode(next.rest);
          var sent := Sent(handlers, old(state), version, frames.frames);
          && t.output == Delivered(Texts(sent, g), old(t.room))
          && (WellBehaved(handlers, old(state), frames.frames) && Fit(Texts(sent, g))
              && |EncodeAll(Texts(sent, g))| <= old(t.room)
              ==> && ok == frames.err.None?
                  && t.output == EncodeAll(Texts(sent, g))
                  && Received(t.output) == seq(|sent|, i requires 0 <= i < |sent| => Some(sent[i])))
    {
      hide Dump, Encode, EncodeAll, Next, Decode, Serve, WellBehaved, Hello, Received, Printable, Greeting, Delivered;
      ghost var next := Next(t.input);
      SessionBytes(Dump(Hello(version), g), t.room);
      ok := Handshake();
      if next.Got? && Greeting(next.payload) {
        ghost var frames := Decode(next.rest).frames;
        ghost var rs := Serve(handlers, state, frames).responses;
        TextsConcat([Hello(version)], rs, g);
        assert Texts([Hello(version)], g) == [Dump(Hello(version), g)];
        if WellBehaved(handlers, state, frames) && Fit(Texts([Hello(version)] + rs, g)) {
          SentTexts(Hello(version), rs, g);
          SentReceived(handlers, state, version, frames, g);
        }
      }
      if ok {
        ok := Run();
      }
    }
  }

  /** A session's bytes, by what becomes of the hello. */
  lemma SessionBytes(hello: string, room: nat)
    ensures forall texts ::
      Delivered([hello] + texts, room)
      == if |hello| <= MAX_FRAME && 4 + |hello| <= room then Encode(hello) + Delivered(texts, room - 4 - |hello|)
         else if |hello| > MAX_FRAME then "" else Encode(hello)[..room]
  {
    hide Encode, Delivered;
    forall texts
      ensures Delivered([hello] + texts, room)
           == if |hello| <= MAX_FRAME && 4 + |hello| <= room then Encode(hello) + Delivered(texts, room - 4 - |hello|)
              else if |hello| > MAX_FRAME then "" else Encode(hello)[..room]
    {
      if |hello| <= MAX_FRAME && 4 + |hello| <= room {
        DeliveredThen(hello, texts, room);
      } else {
        assert EncodeAll([]) == "" by { NoFrames(); }
        assert [] + ([hello] + texts) == [hello] + texts;
        DeliveredUpTo([], hello, texts, room);
      }
    }
  }

  lemma SentTexts(hello: Value, rs: seq<Value>, g: RealFormat)
    requires Fit(Texts([hello] + rs, g))
    ensures |Dump(hello, g)| <= MAX_FRAME && Fit(Texts(rs, g))
    ensures EncodeAll(Texts([hello] + rs, g)) == Encode(Dump(hello, g)) + EncodeAll(Texts(rs, g))
  {
    hide Dump, Encode;
    var all := Texts([hello] + rs, g);
    assert all[0] == Dump(hello, g) && all[1..] == Texts(rs, g);
    assert forall i :: 0 <= i < |rs| ==> Texts(rs, g)[i] == all[i + 1];
  }

  lemma DecodeNext(s: string)
    ensures match Next(s)
            case Got(p, rest) => Decode(s).frames == [p] + Decode(rest).frames && Decode(s).err == Decode(rest).err
            case Eof => Decode(s) == Stream([], None)
            case Bad(e) => Decode(s) == Stream([], Some(e))
  {
    hide Next;
  }

  lemma ServeNone<S>(hs: Handlers<S>, st: S)
    ensures Serve(hs, st, []) == Served(st, [])
  {
  }

  lemma ServeFirst<S>(hs: Handlers<S>, st: S, raw: string, later: seq<string>)
    ensures !IsRequest(raw) ==> Serve(hs, st, [raw] + later) == Serve(hs, st, later)
    ensures IsRequest(raw) ==>
      var msg := Parse(raw).value;
      var o := Dispatch(hs, st, msg);
      var tail := Serve(hs, o.state, later);
      Serve(hs, st, [raw] + later) == Served(tail.state, [Response(RequestId(msg), o)] + tail.responses)
  {
    hide Parse, Dispatch, Response, RequestId;
    assert ([raw] + later)[1..] == later;
  }

  lemma NoFrames()
    ensures Fit([]) && EncodeAll([]) == ""
  {
  }

  lemma TextsConcat(a: seq<Value>, b: seq<Value>, g: RealFormat)
    ensures Texts(a + b, g) == Texts(a, g) + Texts(b, g)
  {
  }

  lemma SentOneMore(sent: seq<Value>, res: Value, g: RealFormat)
    requires Fit(Texts(sent, g)) && |Dump(res, g)| <= MAX_FRAME
    ensures Fit(Texts(sent + [res], g))
    ensures EncodeAll(Texts(sent + [res], g)) == EncodeAll(Texts(sent, g)) + Encode(Dump(res, g))
  {
    hide Dump, Encode;
    var one := [Dump(res, g)];
    assert Texts(sent + [res], g) == Texts(sent, g) + one;
    assert one[1..] == [];
    assert EncodeAll(one) == Encode(Dump(res, g));
    EncodeAllConcat(Texts(sent, g), one);
  }

  lemma TextsAround(sent: seq<Value>, res: Value, rest: seq<Value>, g: RealFormat)
    ensures Texts(sent + ([res] + rest), g) == Texts(sent, g) + ([Dump(res, g)] + Texts(rest, g))
  {
    hide Dump;
    TextsConcat(sent, [res] + rest, g);
    TextsConcat([res], rest, g);
    assert Texts([res], g) == [Dump(res, g)];
  }

  /** However the connection breaks, the launcher decodes a first part of what was to be sent. */
  lemma ReceivedIsPrefix(vs: seq<Value>, g: RealFormat, room: nat)
    requires AllPrint(vs)
    ensures
      var got := Received(Delivered(Texts(vs, g), room));
      |got| <= |vs| && forall i :: 0 <= i < |got| ==> got[i] == Some(vs[i])
  {
    hide Decode, Delivered, Printable, Parse, Dump;
    var fs := Decode(Delivered(Texts(vs, g), room)).frames;
    DeliveredIsPrefix(Texts(vs, g), room);
    forall i | 0 <= i < |fs| ensures Parse(fs[i]) == Some(vs[i]) {
      assert fs[i] == Texts(vs, g)[i];
      ParseDump(vs[i], g);
    }
  }
}
