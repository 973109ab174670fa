/** The life cycle of src/client/stream_session.cpp as interleaved steps of the control thread, which
    calls `start` and `stop`, of the worker thread, and of the connection library's threads, which call
    back into the renderers, on both build paths. */
module StreamSession {
  import opened Common

  /** How the engine was built: with window and decoder, and then perhaps with audio. */
  datatype Build = Headless | Renderer(audio: bool)

  /** Where the control thread is. */
  datatype Control =
    | CIdle
    | Checked          // start: not running, inputs usable
    | SinkSet          // start: g_sink = onState_
    | MarkedRunning    // start: running_ = true
    | Armed            // start: stopRequested_ = false; next is the assignment of worker_
    | Stopping         // stop: stopRequested_ = true
    | Joining          // stop: worker_ was joinable
    | Joined           // stop: after the join, or there was nothing to join
    | Unmarked         // stop: running_ is false; next is g_sink = nullptr

  /** Where the worker is. `Ended` is a finished thread that has not been joined. */
  datatype Worker =
    | NoWorker
    | Spawned
    | Ready            // window tried, g_video and g_audio set
    | Connecting       // inside LiStartConnection
    | Failing          // it failed
    | FailUnmarked     // running_ = false
    | FailNoVideo      // g_video = nullptr
    | FailNoAudio      // g_audio = nullptr
    | Looping          // present loop
    | Leaving          // loop left
    | Disconnected     // LiStopConnection returned
    | NoVideo          // g_video = nullptr
    | VideoClean       // renderer.cleanup()
    | NoAudio          // g_audio = nullptr
    | AudioClean       // audio.cleanup()
    | Finishing        // running_ = false
    | Ended

  /** Where a library thread is in a callback: it tests the global pointer, reads it again to call the
      renderer, and is then inside the renderer. */
  datatype Callback = Outside | Tested | Inside

  /** Calls that matter to the connection library, in order. */
  datatype Call = Started | StoppedConn

  datatype State = State(
    control: Control, worker: Worker,
    running: bool, stopRequested: bool, joinable: bool, sink: bool,
    connected: bool, calls: seq<Call>,
    video: bool, videoAlive: bool, audio: bool, audioAlive: bool,
    inVideo: Callback, inAudio: Callback,
    selfEnded: bool, crashed: bool)

  const INIT := State(CIdle, NoWorker, false, false, false, false, false, [], false, false, false, false,
                      Outside, Outside, false, false)

  datatype ControlStep =
    | StartRefused | StartChecked | SetSink | MarkRunning | Arm | Spawn
    | StopBegin | StopJoinable | StopNothing | Join | StopConnection | FinishStop

  datatype WorkerStep =
    | Prepare(window: bool) | Connect | ConnectOk | ConnectFail
    | Unmark | DropVideo | DropAudio | FailExit
    | Leave(closed: bool) | Disconnect | DropVideoAfter | CleanVideo | DropAudioAfter | CleanAudio | UnmarkAfter | Exit

  datatype CallbackStep = TestVideo | UseVideo | LeaveVideo | TestAudio | UseAudio | LeaveAudio

  datatype Step = C(c: ControlStep) | W(w: WorkerStep) | B(k: CallbackStep)

  /** The library's threads run from LiStartConnection on, until it fails or LiStopConnection returns. */
  predicate LibraryAlive(s: State) {
    s.worker.Connecting? || s.connected
  }

  /** Both calls end those threads, and so wait for callbacks to return. */
  predicate Quiet(s: State) {
    s.inVideo.Outside? && s.inAudio.Outside?
  }

  predicate ControlEnabled(s: State, a: ControlStep) {
    match a
    case StartRefused => s.control.CIdle?
    case StartChecked => s.control.CIdle? && !s.running
    case SetSink => s.control.Checked?
    case MarkRunning => s.control.SinkSet?
    case Arm => s.control.MarkedRunning?
    case Spawn => s.control.Armed?
    case StopBegin => s.control.CIdle?
    case StopJoinable => s.control.Stopping? && s.joinable
    case StopNothing => s.control.Stopping? && !s.joinable
    case Join => s.control.Joining? && s.worker.Ended?
    case StopConnection => s.control.Joined? && Quiet(s)
    case FinishStop => s.control.Unmarked?
  }

  predicate WorkerEnabled(s: State, a: WorkerStep) {
    match a
    case Prepare(_) => s.worker.Spawned?
    case Connect => s.worker.Ready?
    case ConnectOk => s.worker.Connecting?
    case ConnectFail => s.worker.Connecting? && Quiet(s)
    case Unmark => s.worker.Failing?
    case DropVideo => s.worker.FailUnmarked?
    case DropAudio => s.worker.FailNoVideo?
    case FailExit => s.worker.FailNoAudio?
    case Leave(closed) => s.worker.Looping? && (closed || s.stopRequested)
    case Disconnect => s.worker.Leaving? && Quiet(s)
    case DropVideoAfter => s.worker.Disconnected?
    case CleanVideo => s.worker.NoVideo?
    case DropAudioAfter => s.worker.VideoClean?
    case CleanAudio => s.worker.NoAudio?
    case UnmarkAfter => s.worker.AudioClean?
    case Exit => s.worker.Finishing?
  }

  predicate CallbackEnabled(s: State, a: CallbackStep) {
    match a
    case TestVideo => LibraryAlive(s) && s.inVideo.Outside?
    case UseVideo => s.inVideo.Tested?
    case LeaveVideo => s.inVideo.Inside?
    case TestAudio => LibraryAlive(s) && s.inAudio.Outside?
    case UseAudio => s.inAudio.Tested?
    case LeaveAudio => s.inAudio.Inside?
  }

  predicate Enabled(s: State, a: Step) {
    && !s.crashed
    && match a
       case C(c) => ControlEnabled(s, c)
       case W(w) => WorkerEnabled(s, w)
       case B(k) => CallbackEnabled(s, k)
  }

  predicate OfStart(a: ControlStep) {
    a.StartRefused? || a.StartChecked? || a.SetSink? || a.MarkRunning? || a.Arm? || a.Spawn?
  }

  function ControlMove(b: Build, s: State, a: ControlStep): State {
    if OfStart(a) then StartMove(s, a) else StopMove(b, s, a)
  }

  function Begin(s: State): State {
    s.(control := CIdle, worker := Spawned, joinable := true, selfEnded := false)
  }

  function StartMove(s: State, a: ControlStep): State
    requires OfStart(a)
  {
    match a
    case StartRefused => s
    case StartChecked => s.(control := Checked)
    case SetSink => s.(control := SinkSet, sink := true)
    case MarkRunning => s.(control := MarkedRunning, running := true)
    case Arm => s.(control := Armed, stopRequested := false)
    case Spawn =>
      // assigning over a joinable std::thread ends the process
      if s.joinable then s.(crashed := true) else Begin(s)
  }

  function StopMove(b: Build, s: State, a: ControlStep): State
    requires !OfStart(a)
  {
    match a
    case StopBegin => s.(control := Stopping, stopRequested := true)
    case StopJoinable => s.(control := Joining)
    case StopNothing => s.(control := Joined)
    case Join => s.(control := Joined, worker := NoWorker, joinable := false, selfEnded := false)
    case StopConnection =>
      var ends := s.running && b.Headless?;
      s.(control := Unmarked, running := false, connected := s.connected && !ends,
         calls := if ends then s.calls + [StoppedConn] else s.calls)
    case FinishStop => s.(control := CIdle, sink := false)
  }

  /** A thread's locals go when it ends. */
  function EndWorker(s: State): State {
    s.(worker := Ended, videoAlive := false, audioAlive := false)
  }

  /** Up to the present loop, or to the end when the connection fails. */
  predicate OfSetup(a: WorkerStep) {
    a.Prepare? || a.Connect? || a.ConnectOk? || a.ConnectFail? || a.Unmark? || a.DropVideo? || a.DropAudio? || a.FailExit?
  }

  function WorkerMove(b: Build, s: State, a: WorkerStep): State {
    if OfSetup(a) then SetupMove(b, s, a) else CloseMove(s, a)
  }

  function SetupMove(b: Build, s: State, a: WorkerStep): State
    requires OfSetup(a)
  {
    match a
    case Prepare(window) =>
      if b.Headless? then s.(worker := Ready)
      else s.(worker := Ready, videoAlive := true, video := window, audioAlive := b.audio, audio := b.audio)
    case Connect => s.(worker := Connecting)
    case ConnectOk =>
      var t := s.(connected := true, calls := s.calls + [Started]);
      if b.Headless? then EndWorker(t) else t.(worker := Looping)
    case ConnectFail => s.(worker := Failing)
    case Unmark => s.(worker := FailUnmarked, running := false, selfEnded := true)
    case DropVideo => s.(worker := FailNoVideo, video := false)
    case DropAudio => s.(worker := FailNoAudio, audio := false)
    case FailExit => EndWorker(s)
  }

  function CloseMove(s: State, a: WorkerStep): State
    requires !OfSetup(a)
  {
    match a
    case Leave(_) => s.(worker := Leaving)
    case Disconnect => s.(worker := Disconnected, connected := false, calls := s.calls + [StoppedConn])
    case DropVideoAfter => s.(worker := NoVideo, video := false)
    case CleanVideo => s.(worker := VideoClean, videoAlive := false)
    case DropAudioAfter => s.(worker := NoAudio, audio := false)
    case CleanAudio => s.(worker := AudioClean, audioAlive := false)
    case UnmarkAfter => s.(worker := Finishing, running := false, selfEnded := true)
    case Exit => EndWorker(s)
  }

  function CallbackMove(s: State, a: CallbackStep): State {
    match a
    case TestVideo => s.(inVideo := if s.video then Tested else Outside)
    case UseVideo => s.(inVideo := Inside)
    case LeaveVideo => s.(inVideo := Outside)
    case TestAudio => s.(inAudio := if s.audio then Tested else Outside)
    case UseAudio => s.(inAudio := Inside)
    case LeaveAudio => s.(inAudio := Outside)
  }

  function Apply(b: Build, s: State, a: Step): State {
    match a
    case C(c) => ControlMove(b, s, c)
    case W(w) => WorkerMove(b, s, w)
    case B(k) => CallbackMove(s, k)
  }

  function RunAll(b: Build, steps: seq<Step>): Option<State> {
    if steps == [] then Some(INIT)
    else
      var s := RunAll(b, steps[..|steps| - 1]);
      var a := steps[|steps| - 1];
      if s.Some? && Enabled(s.value, a) then Some(Apply(b, s.value, a)) else None
  }

  // ----- the invariant

  predicate Starting(c: Control) {
    c.Checked? || c.SinkSet? || c.MarkedRunning? || c.Armed?
  }

  /** The worker has cleared `running_` by itself. */
  predicate Tail(w: Worker) {
    w.FailUnmarked? || w.FailNoVideo? || w.FailNoAudio? || w.Finishing?
  }

  /** The worker between its spawn and the clearing of `running_`. */
  predicate Active(w: Worker) {
    !w.NoWorker? && !w.Ended? && !Tail(w)
  }

  /** Where each path can be. */
  predicate OnPath(b: Build, w: Worker) {
    b.Headless? ==> !(w.Looping? || w.Leaving? || w.Disconnected? || w.NoVideo? || w.VideoClean?
                     || w.NoAudio? || w.AudioClean? || w.Finishing?)
  }

  ghost predicate ThreadsOk(b: Build, s: State) {
    && OnPath(b, s.worker)
    && (s.joinable <==> !s.worker.NoWorker?)
    && (Starting(s.control) ==> s.worker.NoWorker? || s.selfEnded)
    && (s.control.Joining? ==> s.joinable)
    && (s.control.Joined? || s.control.Unmarked? ==> s.worker.NoWorker?)
    && (Active(s.worker) ==> !s.selfEnded && s.running)
    && (Tail(s.worker) ==> s.selfEnded)
    && (s.worker.NoWorker? ==> !s.selfEnded)
    && (s.selfEnded ==> (s.running <==> s.control.MarkedRunning? || s.control.Armed?))
    && (s.worker.NoWorker? && !s.control.Joined? ==> (s.running <==> s.control.MarkedRunning? || s.control.Armed?))
  }

  /** The connection is up exactly in the present loop, or, headless, from the worker's end to `stop`. */
  ghost predicate ConnectionOk(b: Build, s: State) {
    && (s.worker.Looping? || s.worker.Leaving? ==> s.connected)
    && (Active(s.worker) && !s.worker.Looping? && !s.worker.Leaving? ==> !s.connected)
    && (Tail(s.worker) ==> !s.connected)
    && (s.worker.Ended? ==> (s.connected <==> !s.selfEnded))
    && (s.worker.Ended? && s.connected ==> b.Headless? && s.running)
    && (s.worker.NoWorker? ==> (s.connected <==> s.control.Joined? && s.running))
    && (s.control.Joined? && s.connected ==> b.Headless?)
  }

  /** g_video has been cleared, and likewise g_audio. */
  predicate VideoDropped(w: Worker) {
    w.FailNoVideo? || w.NoVideo? || w.VideoClean? || AudioDropped(w)
  }

  predicate AudioDropped(w: Worker) {
    w.FailNoAudio? || w.NoAudio? || w.AudioClean? || w.Finishing?
  }

  /** The renderer has been cleaned up, or its thread has ended or not begun. */
  predicate VideoGone(w: Worker) {
    w.VideoClean? || w.NoAudio? || AudioGone(w)
  }

  predicate AudioGone(w: Worker) {
    w.AudioClean? || w.Finishing? || w.NoWorker? || w.Spawned? || w.Ended?
  }

  /** A pointer that the callbacks see belongs to a live renderer. */
  ghost predicate PointersOk(b: Build, s: State) {
    && (b.Headless? ==> !s.video && !s.audio)
    && (s.video ==> s.videoAlive) && (s.audio ==> s.audioAlive)
    && (!s.inVideo.Outside? ==> LibraryAlive(s) && s.video) && (!s.inAudio.Outside? ==> LibraryAlive(s) && s.audio)
    && (s.worker.NoWorker? || s.worker.Spawned? || s.worker.Ended? ==> !s.video && !s.audio)
    && (VideoDropped(s.worker) ==> !s.video) && (AudioDropped(s.worker) ==> !s.audio)
    && (VideoGone(s.worker) ==> !s.videoAlive) && (AudioGone(s.worker) ==> !s.audioAlive)
  }

  /** Starts and stops alternate, and the last is a start exactly while connected. */
  predicate Alternate(calls: seq<Call>) {
    forall i :: 0 <= i < |calls| ==> (calls[i].Started? <==> i % 2 == 0)
  }

  ghost predicate CallsOk(s: State) {
    Alternate(s.calls) && (s.connected <==> |s.calls| % 2 == 1)
  }

  ghost predicate Inv(b: Build, s: State) {
    ThreadsOk(b, s) && ConnectionOk(b, s) && PointersOk(b, s) && CallsOk(s)
  }

  lemma StartKeeps(b: Build, s: State, a: ControlStep)
    requires Inv(b, s) && OfStart(a) && ControlEnabled(s, a) && !(a.Spawn? && s.joinable)
    ensures var t := StartMove(s, a); ThreadsOk(b, t) && ConnectionOk(b, t) && PointersOk(b, t)
  {
    hide CallsOk;
    match a
    case StartRefused =>
    case StartChecked =>
    case SetSink =>
    case MarkRunning =>
    case Arm =>
    case Spawn =>
  }

  lemma StopKeeps(b: Build, s: State, a: ControlStep)
    requires Inv(b, s) && !OfStart(a) && ControlEnabled(s, a)
    ensures var t := StopMove(b, s, a); ThreadsOk(b, t) && ConnectionOk(b, t) && PointersOk(b, t)
  {
    hide CallsOk;
    match a
    case StopBegin =>
    case StopJoinable =>
    case StopNothing =>
    case Join =>
    case StopConnection =>
    case FinishStop =>
  }

  lemma SetupKeeps(b: Build, s: State, a: WorkerStep)
    requires Inv(b, s) && OfSetup(a) && WorkerEnabled(s, a)
    ensures var t := SetupMove(b, s, a); ThreadsOk(b, t) && ConnectionOk(b, t) && PointersOk(b, t)
  {
    hide CallsOk;
  }

  lemma CloseKeeps(b: Build, s: State, a: WorkerStep)
    requires Inv(b, s) && !OfSetup(a) && WorkerEnabled(s, a)
    ensures var t := CloseMove(s, a); ThreadsOk(b, t) && ConnectionOk(b, t) && PointersOk(b, t)
  {
    hide CallsOk;
  }

  lemma CallbackKeeps(b: Build, s: State, a: CallbackStep)
    requires Inv(b, s) && CallbackEnabled(s, a)
    ensures
      var t := CallbackMove(s, a);
      Inv(b, t)
  {
    hide Alternate;
  }

  lemma AlternateSnoc(calls: seq<Call>, c: Call)
    requires Alternate(calls) && (c.Started? <==> |calls| % 2 == 0)
    ensures Alternate(calls + [c])
  {
  }

  /** Connections open only when none is open, and close only when one is. */
  lemma ControlKeepsCalls(b: Build, s: State, a: ControlStep)
    requires Inv(b, s) && ControlEnabled(s, a)
    ensures CallsOk(ControlMove(b, s, a))
  {
    hide PointersOk, Alternate;
    if a == StopConnection && s.running && b.Headless? {
      assert s.connected;
      AlternateSnoc(s.calls, StoppedConn);
    } else {
      ControlLeavesCalls(b, s, a);
      hide ControlMove;
    }
  }

  lemma WorkerKeepsCalls(b: Build, s: State, a: WorkerStep)
    requires Inv(b, s) && WorkerEnabled(s, a)
    ensures CallsOk(WorkerMove(b, s, a))
  {
    hide PointersOk, Alternate;
    if a == ConnectOk {
      AlternateSnoc(s.calls, Started);
    } else if a == Disconnect {
      AlternateSnoc(s.calls, StoppedConn);
    } else {
      WorkerLeavesCalls(b, s, a);
      hide WorkerMove;
    }
  }

  lemma ControlLeavesCalls(b: Build, s: State, a: ControlStep)
    requires !(a.StopConnection? && s.running && b.Headless?)
    ensures ControlMove(b, s, a).calls == s.calls && ControlMove(b, s, a).connected == s.connected
  {
    hide StartMove, StopMove;
    if OfStart(a) {
      StartLeaves(s, a);
    } else if a == StopConnection {
      NothingToStop(b, s);
    } else {
      StopLeaves(b, s, a);
    }
  }

  lemma StartLeaves(s: State, a: ControlStep)
    requires OfStart(a)
    ensures var t := StartMove(s, a); t.calls == s.calls && t.connected == s.connected
    ensures !a.Spawn? ==> StartMove(s, a).selfEnded == s.selfEnded
  {
    match a
    case StartRefused =>
    case StartChecked =>
    case SetSink =>
    case MarkRunning =>
    case Arm =>
    case Spawn =>
  }

  lemma NothingToStop(b: Build, s: State)
    ensures !(s.running && b.Headless?) ==>
      var t := StopMove(b, s, StopConnection); t.calls == s.calls && t.connected == s.connected
  {
  }

  lemma StopLeaves(b: Build, s: State, a: ControlStep)
    requires !OfStart(a) && !a.StopConnection?
    ensures StopMove(b, s, a).calls == s.calls
    ensures StopMove(b, s, a).connected == s.connected
  {
    match a
    case StopBegin =>
    case StopJoinable =>
    case StopNothing =>
    case Join =>
    case FinishStop =>
  }

  lemma StopLeavesFlag(b: Build, s: State, a: ControlStep)
    requires !OfStart(a) && !a.Join?
    ensures StopMove(b, s, a).selfEnded == s.selfEnded
  {
    match a
    case StopBegin =>
    case StopJoinable =>
    case StopNothing =>
    case StopConnection =>
    case FinishStop =>
  }

  lemma WorkerLeavesCalls(b: Build, s: State, a: WorkerStep)
    requires !a.ConnectOk? && !a.Disconnect?
    ensures WorkerMove(b, s, a).calls == s.calls && WorkerMove(b, s, a).connected == s.connected
  {
    hide SetupMove, CloseMove;
    if OfSetup(a) {
      SetupLeaves(b, s, a);
    } else {
      CloseLeaves(s, a);
    }
  }

  lemma SetupLeaves(b: Build, s: State, a: WorkerStep)
    requires OfSetup(a)
    ensures !a.ConnectOk? ==> var t := SetupMove(b, s, a); t.calls == s.calls && t.connected == s.connected
    ensures SetupMove(b, s, a).selfEnded == (a.Unmark? || s.selfEnded)
  {
    match a
    case Prepare(_) =>
    case Connect =>
    case ConnectOk =>
    case ConnectFail =>
    case Unmark =>
    case DropVideo =>
    case DropAudio =>
    case FailExit =>
  }

  lemma CloseLeaves(s: State, a: WorkerStep)
    requires !OfSetup(a)
    ensures !a.Disconnect? ==> var t := CloseMove(s, a); t.calls == s.calls && t.connected == s.connected
    ensures CloseMove(s, a).selfEnded == (a.UnmarkAfter? || s.selfEnded)
  {
    match a
    case Leave(_) =>
    case Disconnect =>
    case DropVideoAfter =>
    case CleanVideo =>
    case DropAudioAfter =>
    case CleanAudio =>
    case UnmarkAfter =>
    case Exit =>
  }

  lemma StepKeepsInv(b: Build, s: State, a: Step)
    requires Inv(b, s) && Enabled(s, a) && !Apply(b, s, a).crashed
    ensures Inv(b, Apply(b, s, a))
  {
    if a.C? {
      assert !(a.c.Spawn? && s.joinable);
      ControlKeepsCalls(b, s, a.c);
      if OfStart(a.c) {
        StartKeeps(b, s, a.c);
      } else {
        StopKeeps(b, s, a.c);
      }
    } else if a.W? {
      WorkerKeepsCalls(b, s, a.w);
      if OfSetup(a.w) {
        SetupKeeps(b, s, a.w);
      } else {
        CloseKeeps(b, s, a.w);
      }
    } else {
      CallbackKeeps(b, s, a.k);
    }
    hide ThreadsOk, ConnectionOk, PointersOk, CallsOk;
  }

  lemma {:induction false} Reachable(b: Build, steps: seq<Step>)
    requires RunAll(b, steps).Some? && !RunAll(b, steps).value.crashed
    ensures Inv(b, RunAll(b, steps).value)
  {
    if steps != [] {
      hide Inv, Apply;
      var before := steps[..|steps| - 1];
      var r, a := RunAll(b, before).value, steps[|steps| - 1];
      Reachable(b, before);
      StepKeepsInv(b, r, a);
    }
  }

  // ----- what follows, in every interleaving

  /** Every connection that was opened is closed exactly once before the next one is opened. */
  lemma ConnectionsAlternate(b: Build, steps: seq<Step>)
    requires RunAll(b, steps).Some? && !RunAll(b, steps).value.crashed
    ensures var s := RunAll(b, steps).value; Alternate(s.calls) && (s.connected <==> |s.calls| % 2 == 1)
  {
    Reachable(b, steps);
  }

  /** When `stop` returns there is no worker, no connection, no sink and no renderer in reach. */
  lemma StopLeavesNothing(b: Build, steps: seq<Step>)
    requires RunAll(b, steps).Some? && !RunAll(b, steps).value.crashed
    requires ControlEnabled(RunAll(b, steps).value, FinishStop)
    ensures
      var s := ControlMove(b, RunAll(b, steps).value, FinishStop);
      && s.control.CIdle? && s.worker.NoWorker? && !s.joinable && !s.running && !s.sink
      && !s.connected && |s.calls| % 2 == 0 && !s.video && !s.audio && !s.videoAlive && !s.audioAlive
  {
    Reachable(b, steps);
  }

  /** From its test of the pointer until it returns, a callback has a pointer that is not null to a
      renderer that is alive and not cleaned up. */
  lemma CallbacksSeeLiveRenderers(b: Build, steps: seq<Step>)
    requires RunAll(b, steps).Some? && !RunAll(b, steps).value.crashed
    ensures
      var s := RunAll(b, steps).value;
      && (s.video ==> s.videoAlive) && (s.audio ==> s.audioAlive)
      && (!s.inVideo.Outside? ==> s.video && s.videoAlive) && (!s.inAudio.Outside? ==> s.audio && s.audioAlive)
  {
    Reachable(b, steps);
  }

  /** While the library connects or the connection is up, its threads may call back. */
  lemma CallbacksRun(b: Build, steps: seq<Step>)
    requires RunAll(b, steps).Some? && !RunAll(b, steps).value.crashed
    ensures
      var s := RunAll(b, steps).value;
      s.worker.Connecting? || s.worker.Looping? || s.worker.Leaving? ==>
        && (s.inVideo.Outside? ==> Enabled(s, B(TestVideo))) && (s.inAudio.Outside? ==> Enabled(s, B(TestAudio)))
  {
    Reachable(b, steps);
  }

  /** The present loop ends on a request to stop, and when the user closes the window. */
  lemma LoopCanEnd(s: State)
    requires s.worker.Looping? && !s.crashed
    ensures Enabled(s, W(Leave(true))) && (Enabled(s, W(Leave(false))) <==> s.stopRequested)
  {
  }

  /** While `stop` waits for the worker, the worker can move, or a callback that the worker waits for. */
  lemma StopIsNotStuck(b: Build, steps: seq<Step>)
    requires RunAll(b, steps).Some? && !RunAll(b, steps).value.crashed
    ensures
      var s := RunAll(b, steps).value;
      s.control.Joining? ==> Enabled(s, C(Join)) || (exists w :: Enabled(s, W(w))) || (exists k :: Enabled(s, B(k)))
  {
    hide RunAll;
    Reachable(b, steps);
    var s := RunAll(b, steps).value;
    if s.control.Joining? && !s.worker.Ended? {
      if !s.inVideo.Outside? {
        assert Enabled(s, B(if s.inVideo.Tested? then UseVideo else LeaveVideo));
      } else if !s.inAudio.Outside? {
        assert Enabled(s, B(if s.inAudio.Tested? then UseAudio else LeaveAudio));
      } else {
        assert Enabled(s, W(NextMove(s.worker)));
      }
    }
  }

  /** A move of a worker that nothing holds up. */
  function NextMove(w: Worker): WorkerStep {
    match w
    case Spawned => Prepare(false)
    case Ready => Connect
    case Connecting => ConnectOk
    case Failing => Unmark
    case FailUnmarked => DropVideo
    case FailNoVideo => DropAudio
    case FailNoAudio => FailExit
    case Looping => Leave(true)
    case Leaving => Disconnect
    case Disconnected => DropVideoAfter
    case NoVideo => CleanVideo
    case VideoClean => DropAudioAfter
    case NoAudio => CleanAudio
    case AudioClean => UnmarkAfter
    case _ => Exit
  }

  /** At this step a worker says by itself that it is no longer running. */
  predicate EndsItself(a: Step) {
    a == W(Unmark) || a == W(UnmarkAfter)
  }

  /** In this history a worker ended by itself, and since then none was joined or started. */
  ghost predicate EndedAlone(steps: seq<Step>) {
    exists i :: 0 <= i < |steps| && EndsItself(steps[i]) && NoneSince(steps, i)
  }

  ghost predicate NoneSince(steps: seq<Step>, i: nat) {
    forall j :: i < j < |steps| ==> steps[j] != C(Join) && steps[j] != C(Spawn)
  }

  lemma EndedAloneSnoc(steps: seq<Step>, a: Step)
    ensures EndedAlone(steps + [a]) <==> EndsItself(a) || (EndedAlone(steps) && a != C(Join) && a != C(Spawn))
  {
    var more := steps + [a];
    assert more[|steps|] == a;
    if EndsItself(a) {
      assert NoneSince(more, |steps|);
    }
    if EndedAlone(steps) && a != C(Join) && a != C(Spawn) {
      var i :| 0 <= i < |steps| && EndsItself(steps[i]) && NoneSince(steps, i);
      assert more[i] == steps[i] && NoneSince(more, i);
    }
    if EndedAlone(more) && !EndsItself(a) {
      var i :| 0 <= i < |more| && EndsItself(more[i]) && NoneSince(more, i);
      assert forall j :: 0 <= j < |steps| ==> steps[j] == more[j];
      assert NoneSince(steps, i);
    }
  }

  /** The flag of the state is that fact about the history. */
  lemma {:induction false} FlagIsHistory(b: Build, steps: seq<Step>)
    requires RunAll(b, steps).Some? && !RunAll(b, steps).value.crashed
    ensures RunAll(b, steps).value.selfEnded <==> EndedAlone(steps)
  {
    if steps != [] {
      hide Enabled, EndedAlone;
      var before, a := steps[..|steps| - 1], steps[|steps| - 1];
      FlagStep(b, RunAll(b, before).value, a);
      FlagIsHistory(b, before);
      EndedAloneSnoc(before, a);
      assert steps == before + [a];
    }
  }

  lemma FlagStep(b: Build, s: State, a: Step)
    requires Enabled(s, a) && !Apply(b, s, a).crashed
    ensures Apply(b, s, a).selfEnded <==> EndsItself(a) || (s.selfEnded && a != C(Join) && a != C(Spawn))
  {
    hide StartMove, StopMove, SetupMove, CloseMove, CallbackMove, Enabled;
    match a
    case C(c) =>
      JoinClears(b, s);
      SpawnClears(s);
      if OfStart(c) {
        StartLeaves(s, c);
      } else if c != Join {
        StopLeavesFlag(b, s, c);
      }
    case W(w) =>
      if OfSetup(w) {
        SetupLeaves(b, s, w);
      } else {
        CloseLeaves(s, w);
      }
    case B(k) =>
      CallbackFlag(s, k);
  }

  lemma JoinClears(b: Build, s: State)
    ensures !StopMove(b, s, Join).selfEnded
  {
  }

  lemma SpawnClears(s: State)
    ensures StartMove(s, Spawn).crashed || !StartMove(s, Spawn).selfEnded
  {
  }

  lemma CallbackFlag(s: State, a: CallbackStep)
    ensures CallbackMove(s, a).selfEnded == s.selfEnded
  {
    match a
    case TestVideo =>
    case UseVideo =>
    case LeaveVideo =>
    case TestAudio =>
    case UseAudio =>
    case LeaveAudio =>
  }

  /** `start` assigns over a joinable thread exactly when a worker ended by itself and since then none
      was joined, which only `stop` does, or started. */
  lemma CrashExactly(b: Build, steps: seq<Step>)
    requires RunAll(b, steps).Some? && !RunAll(b, steps).value.crashed
    requires ControlEnabled(RunAll(b, steps).value, Spawn)
    ensures ControlMove(b, RunAll(b, steps).value, Spawn).crashed <==> EndedAlone(steps)
  {
    hide RunAll, EndedAlone;
    Reachable(b, steps);
    FlagIsHistory(b, steps);
  }

  /** `start` goes ahead only when nothing is running, and then, after a stop or at first, it is safe. */
  lemma StartAfterStopIsSafe(b: Build, steps: seq<Step>)
    requires RunAll(b, steps).Some?
    ensures
      var now := RunAll(b, steps).value;
      !now.crashed && ControlEnabled(now, Spawn) && now.worker.NoWorker? ==>
        var s := ControlMove(b, now, Spawn);
        !s.crashed && s.worker.Spawned? && s.running && !s.connected
  {
    hide RunAll;
    var now := RunAll(b, steps).value;
    if !now.crashed && ControlEnabled(now, Spawn) && now.worker.NoWorker? {
      Reachable(b, steps);
      SpawnIsSafe(b, now);
    }
  }

  lemma SpawnIsSafe(b: Build, now: State)
    requires Inv(b, now) && !now.crashed && ControlEnabled(now, Spawn) && now.worker.NoWorker?
    ensures var s := ControlMove(b, now, Spawn); !s.crashed && s.worker.Spawned? && s.running && !s.connected
  {
  }

  // ----- it does happen

  ghost predicate CanReach(b: Build, s: State) {
    exists steps :: RunAll(b, steps) == Some(s)
  }

  lemma Extend(b: Build, s: State, a: Step, t: State)
    requires CanReach(b, s) && Enabled(s, a) && Apply(b, s, a) == t
    ensures CanReach(b, t)
  {
    hide Apply, Enabled;
    var steps :| RunAll(b, steps) == Some(s);
    var more := steps + [a];
    assert more[..|more| - 1] == steps;
    assert RunAll(b, more) == Some(t);
  }

  /** A whole `start` from an idle state, up to the assignment of the thread. */
  lemma StartOnce(b: Build, s: State)
    requires CanReach(b, s) && s.control.CIdle? && !s.running && !s.crashed
    ensures CanReach(b, s.(control := Armed, sink := true, running := true, stopRequested := false))
  {
    hide CanReach;
    var s1 := s.(control := Checked);
    var s2 := s1.(control := SinkSet, sink := true);
    var s3 := s2.(control := MarkedRunning, running := true);
    Extend(b, s, C(StartChecked), s1);
    Extend(b, s1, C(SetSink), s2);
    Extend(b, s2, C(MarkRunning), s3);
    Extend(b, s3, C(Arm), s3.(control := Armed, stopRequested := false));
  }

  /** From a fresh worker to one whose connection failed. */
  lemma FailOnce(b: Build, s: State)
    requires CanReach(b, s) && s.worker.Spawned? && !s.crashed && b.Headless? && Quiet(s)
    ensures CanReach(b, s.(worker := FailUnmarked, running := false, selfEnded := true))
  {
    hide CanReach;
    var s1 := s.(worker := Ready);
    var s2 := s1.(worker := Connecting);
    var s3 := s2.(worker := Failing);
    Extend(b, s, W(Prepare(false)), s1);
    Extend(b, s1, W(Connect), s2);
    Extend(b, s2, W(ConnectFail), s3);
    Extend(b, s3, W(Unmark), s3.(worker := FailUnmarked, running := false, selfEnded := true));
  }

  /** A connection that fails, then a second start: the process ends. */
  lemma SecondStartCrashes()
    ensures exists s :: CanReach(Headless, s) && s.crashed
  {
    var b := Headless;
    assert RunAll(b, []) == Some(INIT);
    assert CanReach(b, INIT);
    hide CanReach;
    StartOnce(b, INIT);
    var s1 := INIT.(control := Armed, sink := true, running := true);
    var s2 := s1.(control := CIdle, worker := Spawned, joinable := true);
    Extend(b, s1, C(Spawn), s2);
    FailOnce(b, s2);
    var s3 := s2.(worker := FailUnmarked, running := false, selfEnded := true);
    StartOnce(b, s3);
    var s4 := s3.(control := Armed, sink := true, running := true, stopRequested := false);
    Extend(b, s4, C(Spawn), s4.(crashed := true));
    assert CanReach(b, s4.(crashed := true));
  }
}
