/** Responses and events on one wire: whatever the interleaving of the session's writes with `emit`, a
    launcher that sets the events aside gets the hello and the responses, all of them, in order. */
module EventStream {
  import opened Common
  import opened JsonValue
  import opened JsonText
  import opened JsonRoundTrip
  import opened Frame
  import opened WriteLock
  import opened Server

  predicate IsReply(m: Option<Value>) {
    m.Some? && m.value.GetStr("kind") != "event"
  }

  /** The received messages that are not events. */
  function Select(ms: seq<Option<Value>>): seq<Value> {
    if ms == [] then []
    else
      var m := ms[|ms| - 1];
      Select(ms[..|ms| - 1]) + (if IsReply(m) then [m.value] else [])
  }

  function ParseAll(ps: seq<string>): (r: seq<Option<Value>>)
    ensures |r| == |ps|
  {
    seq(|ps|, i requires 0 <= i < |ps| => Parse(ps[i]))
  }

  /** The thread of `handshake` and `run`; all others emit. */
  const RUN: nat := 0

  /** Every logged payload was passed in by its thread. */
  lemma {:induction false} LoggedWasCalled(log: seq<Entry>, t: nat, i: nat)
    requires i < |log| && log[i].thread == t
    ensures log[i].payload in By(log, t)
  {
    var n := |log| - 1;
    if i < n {
      LoggedWasCalled(log[..n], t, i);
    }
  }

  lemma {:induction false} FittingIsPart(ps: seq<string>, p: string)
    requires p in Fitting(ps)
    ensures p in ps
  {
    if ps != [] {
      var q := ps[|ps| - 1];
      if p in Fitting(ps[..|ps| - 1]) {
        FittingIsPart(ps[..|ps| - 1], p);
      }
    }
  }

  lemma {:induction false} AllFit(ps: seq<string>)
    requires Fit(ps)
    ensures Fitting(ps) == ps
  {
    if ps != [] {
      AllFit(ps[..|ps| - 1]);
      assert ps == ps[..|ps| - 1] + [ps[|ps| - 1]];
    }
  }

  /** Setting the events of a log aside keeps what its run thread wrote. */
  lemma {:induction false} SelectIsRun(log: seq<Entry>)
    requires forall i :: 0 <= i < |log| ==> (IsReply(Parse(log[i].payload)) <==> log[i].thread == RUN)
    ensures Select(ParseAll(Payloads(log))) == Values(By(log, RUN))
  {
    hide Parse;
    if log != [] {
      var n := |log| - 1;
      var ms := ParseAll(Payloads(log));
      SelectIsRun(log[..n]);
      assert ms[..n] == ParseAll(Payloads(log[..n]));
      assert ms[n] == Parse(log[n].payload);
      if log[n].thread == RUN {
        ValuesSnoc(By(log[..n], RUN), log[n].payload);
      } else {
        assert By(log[..n], RUN) + [] == By(log[..n], RUN);
      }
    }
  }

  /** The parsed texts that parse. */
  function Values(ps: seq<string>): seq<Value> {
    if ps == [] then []
    else
      var v := Parse(ps[|ps| - 1]);
      Values(ps[..|ps| - 1]) + (if v.Some? then [v.value] else [])
  }

  lemma ValuesSnoc(ps: seq<string>, p: string)
    ensures Values(ps + [p]) == Values(ps) + (if Parse(p).Some? then [Parse(p).value] else [])
  {
    hide Parse;
    assert (ps + [p])[..|ps|] == ps;
  }

  lemma {:induction false} ValuesOfTexts(vs: seq<Value>, g: RealFormat)
    requires AllPrint(vs)
    ensures Values(Texts(vs, g)) == vs
  {
    hide Parse, Dump, Printable;
    if vs != [] {
      var n := |vs| - 1;
      ValuesOfTexts(vs[..n], g);
      ParseDump(vs[n], g);
      assert Texts(vs, g)[..n] == Texts(vs[..n], g);
      assert vs == vs[..n] + [vs[n]];
    }
  }

  /** What each thread wrote: the session's thread these messages, every other thread events. */
  ghost predicate Wrote(s: WriteLock.State, rs: seq<Value>, g: RealFormat) {
    && s.Calls(RUN) == Texts(rs, g) && Fit(Texts(rs, g))
    && AllPrint(rs) && AllReplies(rs)
    && forall t: nat, p :: t != RUN && p in s.Calls(t) ==> IsEventText(p, g)
  }

  ghost predicate IsEventText(p: string, g: RealFormat) {
    exists event, data :: Printable(data) && p == Dump(EventValue(event, data), g)
  }

  lemma EventIsNoReply(p: string, g: RealFormat)
    requires IsEventText(p, g)
    ensures !IsReply(Parse(p))
  {
    hide Parse, Dump;
    var event, data :| Printable(data) && p == Dump(EventValue(event, data), g);
    EventPrints(event, data);
    ParseDump(EventValue(event, data), g);
    hide EventValue;
  }

  lemma TextIsReply(p: string, rs: seq<Value>, g: RealFormat)
    requires p in Texts(rs, g) && AllPrint(rs) && AllReplies(rs)
    ensures IsReply(Parse(p))
  {
    hide Parse, Dump, Printable;
    var i :| 0 <= i < |rs| && Texts(rs, g)[i] == p;
    ParseDump(rs[i], g);
  }

  lemma LoggedKinds(s: WriteLock.State, rs: seq<Value>, g: RealFormat, i: nat)
    requires Wrote(s, rs, g) && i < |s.log|
    requires forall t: nat :: By(s.log, t) == Fitting(s.Calls(t))
    ensures IsReply(Parse(s.log[i].payload)) <==> s.log[i].thread == RUN
  {
    hide Parse, Dump, Texts;
    var e := s.log[i];
    LoggedWasCalled(s.log, e.thread, i);
    FittingIsPart(s.Calls(e.thread), e.payload);
    if e.thread == RUN {
      TextIsReply(e.payload, rs, g);
    } else {
      EventIsNoReply(e.payload, g);
    }
  }

  /** In every interleaving, once no thread is writing, the messages received beside the events are the
      messages the session sent. */
  lemma ResponsesSurvive(s: WriteLock.State, steps: seq<WriteLock.Step>, rs: seq<Value>, g: RealFormat)
    requires Reaches(s, steps) && (forall t: nat :: s.Status(t).Idle?) && Wrote(s, rs, g)
    ensures Select(Received(s.bytes)) == rs
  {
    InterleavedFrames(s, steps);
    NobodyHolds(s);
    hide Parse, Dump, Texts, Reaches, Printable, Decode;
    forall i | 0 <= i < |s.log|
      ensures IsReply(Parse(s.log[i].payload)) <==> s.log[i].thread == RUN
    {
      LoggedKinds(s, rs, g, i);
    }
    SelectIsRun(s.log);
    assert Received(s.bytes) == ParseAll(Payloads(s.log));
    AllFit(Texts(rs, g));
    assert By(s.log, RUN) == Texts(rs, g);
    ValuesOfTexts(rs, g);
  }

  /** The whole of a session: in every interleaving of its writes with any events, a launcher that sets
      the events aside has the hello, then one answer per request, in request order, with its id. */
  lemma SessionAmongEvents<S>(
    s: WriteLock.State, steps: seq<WriteLock.Step>, hs: Handlers<S>, st: S, version: string, frames: seq<string>, g: RealFormat)
    requires Reaches(s, steps) && forall t: nat :: s.Status(t).Idle?
    requires WellBehaved(hs, st, frames)
    requires s.Calls(RUN) == Texts(Sent(hs, st, version, frames), g) && Fit(Texts(Sent(hs, st, version, frames), g))
    requires forall t: nat, p :: t != RUN && p in s.Calls(t) ==> IsEventText(p, g)
    ensures
      var rs := Serve(hs, st, frames).responses;
      && Select(Received(s.bytes)) == [Hello(version)] + rs
      && Answered(hs, st, Requests(frames), rs) && EchoesIds(Requests(frames), rs)
  {
    hide Texts, Fit, Serve, Requests, WellBehaved, Received, Reaches, EchoesIds, Answered, Select;
    var rs := Serve(hs, st, frames).responses;
    ServeAnswered(hs, st, frames);
    IdsAreEchoed(hs, st, frames);
    ResponsesPrint(hs, st, frames);
    ResponsesAreReplies(hs, st, frames);
    HelloPrints(version);
    HelloKind(version);
    SentKinds(Hello(version), rs);
    ResponsesSurvive(s, steps, Sent(hs, st, version, frames), g);
  }

  ghost predicate AllReplies(vs: seq<Value>) {
    forall i :: 0 <= i < |vs| ==> vs[i].GetStr("kind") != "event"
  }

  lemma SentKinds(hello: Value, rs: seq<Value>)
    requires Printable(hello) && AllPrint(rs) && hello.GetStr("kind") != "event" && AllReplies(rs)
    ensures AllPrint([hello] + rs) && AllReplies([hello] + rs)
  {
    hide Printable;
  }

  lemma HelloKind(version: string)
    ensures Hello(version).GetStr("kind") != "event"
  {
    assert "hello" != "event";
  }

  lemma ResponsesAreReplies<S>(hs: Handlers<S>, st: S, frames: seq<string>)
    ensures AllReplies(Serve(hs, st, frames).responses)
  {
    hide Serve, Requests, Dispatch, StateBefore;
    ServeAnswers(hs, st, frames);
    var rs := Serve(hs, st, frames).responses;
    assert "res" != "event";
    forall i | 0 <= i < |rs| ensures rs[i].GetStr("kind") != "event" {
      var req := Requests(frames)[i];
      AnswerKind(rs[i], req, Dispatch(hs, StateBefore(hs, st, Requests(frames), i), req));
    }
  }

  lemma AnswerKind<S>(res: Value, req: Value, o: Outcome<S>)
    requires Answers(res, req, o)
    ensures res.GetStr("kind") == "res"
  {
  }

  lemma NobodyHolds(s: WriteLock.State)
    requires BytesOk(s) && forall t: nat :: s.Status(t).Idle?
    ensures s.lock.None?
  {
    forall t: nat ensures s.lock != Some(t) {
      assert s.Status(t).Holding? <==> s.lock == Some(t);
    }
  }
}
