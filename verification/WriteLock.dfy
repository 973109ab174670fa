/** Concurrent writers over one transport: `run`'s responses and any number of `emit` calls, each
    taking the write mutex around one frame. Steps may interleave at every byte. */
module WriteLock {
  import opened Common
  import opened Frame

  /** Where a thread is in `write_locked`. `sent` counts the bytes of the frame already written. */
  datatype Status = Idle | Waiting(payload: string) | Holding(payload: string, sent: nat)

  datatype Entry = Entry(thread: nat, payload: string)

  /** `calls` records what each thread passed to `write_locked`, `log` the frames in the order in which
      the lock was held for them. */
  datatype State = State(bytes: string, lock: Option<nat>, threads: map<nat, Status>,
                         calls: map<nat, seq<string>>, log: seq<Entry>)
  {
    function Status(t: nat): Status {
      if t in threads then threads[t] else Idle
    }

    function Calls(t: nat): seq<string> {
      if t in calls then calls[t] else []
    }
  }

  const INIT := State("", None, map[], map[], [])

  datatype Step =
    | Call(t: nat, payload: string)
    | Acquire(t: nat)
    | Write(t: nat, n: nat)
    | Release(t: nat)

  predicate Enabled(s: State, a: Step) {
    var st := s.Status(a.t);
    match a
    case Call(_, _) => st.Idle?
    case Acquire(_) => st.Waiting? && s.lock.None?
    case Write(_, n) => st.Holding? && |st.payload| <= MAX_FRAME && 0 < n && st.sent + n <= 4 + |st.payload|
    case Release(_) => st.Holding? && (|st.payload| > MAX_FRAME || st.sent == 4 + |st.payload|)
  }

  function Apply(s: State, a: Step): State
    requires Enabled(s, a)
  {
    var st := s.Status(a.t);
    match a
    case Call(t, p) => s.(threads := s.threads[t := Waiting(p)], calls := s.calls[t := s.Calls(t) + [p]])
    case Acquire(t) => s.(threads := s.threads[t := Holding(st.payload, 0)], lock := Some(t))
    case Write(t, n) =>
      s.(threads := s.threads[t := Holding(st.payload, st.sent + n)],
         bytes := s.bytes + Encode(st.payload)[st.sent..st.sent + n])
    case Release(t) =>
      s.(threads := s.threads[t := Idle], lock := None,
         log := if |st.payload| > MAX_FRAME then s.log else s.log + [Entry(t, st.payload)])
  }

  /** The states that some interleaving of steps reaches. */
  ghost predicate Reaches(s: State, steps: seq<Step>)
    decreases |steps|
  {
    if steps == [] then s == INIT
    else
      var a := steps[|steps| - 1];
      exists r :: Reaches(r, steps[..|steps| - 1]) && Enabled(r, a) && s == Apply(r, a)
  }

  /** A thread that waits can take a free lock, and one that holds it can write what is left of its
      frame at once and then let go. */
  lemma ThreadsMove(s: State, t: nat)
    ensures s.Status(t).Idle? ==> forall p :: Enabled(s, Call(t, p))
    ensures s.Status(t).Waiting? && s.lock.None? ==> Enabled(s, Acquire(t))
    ensures s.Status(t).Holding? && |s.Status(t).payload| <= 0x80_0000 && s.Status(t).sent < 4 + |s.Status(t).payload| ==>
      Enabled(s, Write(t, 4 + |s.Status(t).payload| - s.Status(t).sent))
    ensures s.Status(t).Holding? && (|s.Status(t).payload| > 0x80_0000 || s.Status(t).sent == 4 + |s.Status(t).payload|) ==>
      Enabled(s, Release(t))
  {
  }

  // ----- the invariant

  function Payloads(log: seq<Entry>): (r: seq<string>)
    ensures |r| == |log|
  {
    seq(|log|, i requires 0 <= i < |log| => log[i].payload)
  }

  function By(log: seq<Entry>, t: nat): seq<string> {
    if log == [] then []
    else
      var e := log[|log| - 1];
      By(log[..|log| - 1], t) + (if e.thread == t then [e.payload] else [])
  }

  function Fitting(ps: seq<string>): seq<string> {
    if ps == [] then []
    else
      var p := ps[|ps| - 1];
      Fitting(ps[..|ps| - 1]) + (if |p| <= MAX_FRAME then [p] else [])
  }

  /** The part of the holder's frame that is already on the wire. */
  function Partial(s: State): string
    requires s.lock.Some? ==> s.Status(s.lock.value).Holding?
  {
    if s.lock.None? then ""
    else
      var st := s.Status(s.lock.value);
      if |st.payload| > MAX_FRAME || st.sent > 4 + |st.payload| then "" else Encode(st.payload)[..st.sent]
  }

  /** What a thread has called for and not yet finished. */
  function Unfinished(st: Status): seq<string> {
    if st.Idle? then [] else [st.payload]
  }

  ghost predicate LockOk(s: State) {
    forall t: nat :: s.Status(t).Holding? <==> s.lock == Some(t)
  }

  ghost predicate SentOk(s: State) {
    s.lock.Some? ==>
      var st := s.Status(s.lock.value);
      st.Holding? && (if |st.payload| > MAX_FRAME then st.sent == 0 else st.sent <= 4 + |st.payload|)
  }

  /** Whole frames in lock order, then at most one partial frame, owned by the lock holder. */
  ghost predicate BytesOk(s: State) {
    && LockOk(s) && SentOk(s) && Fit(Payloads(s.log))
    && s.bytes == EncodeAll(Payloads(s.log)) + Partial(s)
  }

  /** Each thread's frames are on record in its own call order, none lost and none repeated. */
  ghost predicate OrderOk(s: State) {
    forall t: nat :: ThreadOk(s, t)
  }

  ghost predicate ThreadOk(s: State, t: nat) {
    Fitting(s.Calls(t)) == By(s.log, t) + Fitting(Unfinished(s.Status(t)))
  }

  lemma FittingSnoc(ps: seq<string>, p: string)
    ensures Fitting(ps + [p]) == Fitting(ps) + Fitting([p])
  {
    assert (ps + [p])[..|ps|] == ps;
    assert [p][..0] == [];
  }

  lemma BySnoc(log: seq<Entry>, e: Entry, t: nat)
    ensures By(log + [e], t) == By(log, t) + (if e.thread == t then [e.payload] else [])
  {
    assert (log + [e])[..|log|] == log;
  }

  lemma StepKeepsLock(s: State, a: Step)
    requires LockOk(s) && SentOk(s) && Enabled(s, a)
    ensures LockOk(Apply(s, a)) && SentOk(Apply(s, a))
  {
    hide Encode;
    assert s.Status(a.t).Holding? <==> s.lock == Some(a.t);
  }

  lemma StepKeepsBytes(s: State, a: Step)
    requires BytesOk(s) && Enabled(s, a)
    ensures BytesOk(Apply(s, a))
  {
    hide Encode, EncodeAll;
    StepKeepsLock(s, a);
    var s' := Apply(s, a);
    var st := s.Status(a.t);
    assert st.Holding? <==> s.lock == Some(a.t);
    match a
    case Call(_, _) =>
      assert Partial(s') == Partial(s);
    case Acquire(_) =>
    case Write(_, n) =>
      var f := Encode(st.payload);
      assert f[..st.sent] + f[st.sent..st.sent + n] == f[..st.sent + n];
    case Release(_) =>
      if |st.payload| <= MAX_FRAME {
        assert Payloads(s'.log) == Payloads(s.log) + [st.payload];
        assert Encode(st.payload)[..st.sent] == Encode(st.payload);
        OneMore(Payloads(s.log), st.payload);
      }
  }

  lemma OneMore(ps: seq<string>, p: string)
    requires Fit(ps) && |p| <= MAX_FRAME
    ensures Fit(ps + [p]) && EncodeAll(ps + [p]) == EncodeAll(ps) + Encode(p)
  {
    hide Encode;
    EncodeAllConcat(ps, [p]);
    assert [p][1..] == [];
    assert EncodeAll([p]) == Encode(p);
  }

  lemma StepKeepsThread(s: State, a: Step, t: nat)
    requires ThreadOk(s, t) && Enabled(s, a)
    ensures ThreadOk(Apply(s, a), t)
  {
    hide Fitting, By, Encode;
    var p := s.Status(a.t);
    assert Fitting([]) == [] by { NothingFits(); }
    if a.Call? && t == a.t {
      FittingSnoc(s.Calls(t), a.payload);
      assert By(s.log, t) + [] == By(s.log, t);
    }
    if a.Release? {
      BySnoc(s.log, Entry(a.t, p.payload), t);
      FittingOne(p.payload);
      assert By(s.log, t) + [] == By(s.log, t);
    }
  }

  lemma NothingFits()
    ensures Fitting([]) == []
  {
  }

  lemma FittingOne(p: string)
    ensures Fitting([p]) == if |p| <= MAX_FRAME then [p] else []
  {
    assert [p][..0] == [];
  }

  lemma StepKeepsOrder(s: State, a: Step)
    requires OrderOk(s) && Enabled(s, a)
    ensures OrderOk(Apply(s, a))
  {
    hide Apply, Enabled;
    forall t: nat ensures ThreadOk(Apply(s, a), t) {
      assert ThreadOk(s, t);
      StepKeepsThread(s, a, t);
    }
  }

  lemma {:induction false} ReachableOk(s: State, steps: seq<Step>)
    requires Reaches(s, steps)
    ensures BytesOk(s) && OrderOk(s)
    decreases |steps|
  {
    if steps != [] {
      var a := steps[|steps| - 1];
      var r :| Reaches(r, steps[..|steps| - 1]) && Enabled(r, a) && s == Apply(r, a);
      ReachableOk(r, steps[..|steps| - 1]);
      StepKeepsBytes(r, a);
      StepKeepsOrder(r, a);
    }
  }

  /** In every interleaving the reader sees whole frames in lock order; whenever no thread is inside
      `write_locked` it sees every frame that fits the cap, each thread's in its own order. */
  lemma InterleavedFrames(s: State, steps: seq<Step>)
    requires Reaches(s, steps)
    ensures BytesOk(s)
    ensures Payloads(s.log) <= Decode(s.bytes).frames
    ensures s.lock.None? ==> Decode(s.bytes) == Stream(Payloads(s.log), None)
    ensures (forall t: nat :: s.Status(t).Idle?) ==> forall t: nat :: By(s.log, t) == Fitting(s.Calls(t))
  {
    ReachableOk(s, steps);
    DecodeThen(Payloads(s.log), Partial(s));
    if s.lock.None? {
      assert Payloads(s.log) + Decode("").frames == Payloads(s.log);
    }
    if forall t: nat :: s.Status(t).Idle? {
      forall t: nat ensures By(s.log, t) == Fitting(s.Calls(t)) {
        assert ThreadOk(s, t);
      }
    }
  }

  /** Bytes that do not belong to a finished frame are a proper or whole prefix of the holder's. */
  lemma PartialIsHolders(s: State, steps: seq<Step>)
    requires Reaches(s, steps)
    ensures |Decode(s.bytes).frames| <= |s.log| + 1
    ensures |Decode(s.bytes).frames| == |s.log| + 1 ==>
      && s.lock.Some? && s.Status(s.lock.value).Holding?
      && s.Status(s.lock.value).sent == 4 + |s.Status(s.lock.value).payload|
      && Decode(s.bytes).frames[|s.log|] == s.Status(s.lock.value).payload
  {
    ReachableOk(s, steps);
    var tail := Partial(s);
    DecodeThen(Payloads(s.log), tail);
    if s.lock.Some? {
      var st := s.Status(s.lock.value);
      if |st.payload| <= MAX_FRAME {
        var one := [st.payload];
        assert one[1..] == [] && EncodeAll(one) == Encode(st.payload);
        DecodeCut(one, st.sent);
        assert Encode(st.payload)[..st.sent] == EncodeAll(one)[..st.sent];
        var m := WholeFrames(one, st.sent);
        assert Decode(tail).frames == one[..m];
        assert m <= 1;
        assert m == 1 ==> st.sent == 4 + |st.payload|;
      }
    }
  }
}
