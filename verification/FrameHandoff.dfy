/** The one-slot handoff of decoded frames between the decode thread and the present thread in
    src/client/video_renderer.cpp, step by step, with the cleanup after both have ended. */
module FrameHandoff {
  import opened Common

  /** The decode thread: between frames, holding a CPU frame, or past the lock and about to count. */
  datatype Decode = Idle | Holding(f: nat) | Counting

  /** The present thread: nothing taken, a frame taken, or a frame shown and not yet freed. */
  datatype Present = Empty | Taken(f: nat) | Shown(f: nat)

  /** Frames are numbered as they are allocated. `freed` counts the calls of av_frame_free on each;
      `published` and `shown` record the order of the two events. */
  datatype State = State(
    made: nat, freed: multiset<nat>,
    decode: Decode, pending: Option<nat>, present: Present,
    framesDecoded: nat, framesPresented: nat,
    published: seq<nat>, shown: seq<nat>, cleaned: bool)

  const INIT := State(0, multiset{}, Idle, None, Empty, 0, 0, [], [], false)

  datatype Step =
    | Alloc             // a frame received from the decoder gets a CPU frame
    | TransferFails     // its transfer fails: freed and skipped
    | Publish           // under the lock: a frame still pending is freed, this one takes its place
    | Count             // after the lock: ++framesDecoded_
    | Take              // under the lock: the pending frame is taken
    | Show              // texture updated and presented: ++framesPresented_
    | Free              // the taken frame is freed, shown or not
    | Cleanup           // after the threads have ended

  predicate Enabled(s: State, a: Step) {
    && !s.cleaned
    && match a
       case Alloc => s.decode.Idle?
       case TransferFails => s.decode.Holding?
       case Publish => s.decode.Holding?
       case Count => s.decode.Counting?
       case Take => s.present.Empty? && s.pending.Some?
       case Show => s.present.Taken?
       case Free => !s.present.Empty?
       case Cleanup => s.decode.Idle? && s.present.Empty?
  }

  function FreePending(s: State): multiset<nat> {
    if s.pending.Some? then s.freed + multiset{s.pending.value} else s.freed
  }

  function Apply(s: State, a: Step): State
    requires Enabled(s, a)
  {
    match a
    case Alloc => s.(decode := Holding(s.made), made := s.made + 1)
    case TransferFails => s.(decode := Idle, freed := s.freed + multiset{s.decode.f})
    case Publish =>
      s.(freed := FreePending(s), pending := Some(s.decode.f), published := s.published + [s.decode.f],
         decode := Counting)
    case Count => s.(decode := Idle, framesDecoded := s.framesDecoded + 1)
    case Take => s.(present := Taken(s.pending.value), pending := None)
    case Show =>
      s.(present := Shown(s.present.f), shown := s.shown + [s.present.f], framesPresented := s.framesPresented + 1)
    case Free => s.(present := Empty, freed := s.freed + multiset{s.present.f})
    case Cleanup => s.(freed := FreePending(s), pending := None, cleaned := true)
  }

  function RunAll(steps: seq<Step>): Option<State> {
    if steps == [] then Some(INIT)
    else
      var s := RunAll(steps[..|steps| - 1]);
      var a := steps[|steps| - 1];
      if s.Some? && Enabled(s.value, a) then Some(Apply(s.value, a)) else None
  }

  // ----- conservation

  function Held(s: State, f: nat): nat {
    (if s.decode == Holding(f) then 1 else 0) + (if s.pending == Some(f) then 1 else 0)
    + (if s.present == Taken(f) || s.present == Shown(f) then 1 else 0)
  }

  /** Every allocated frame has been freed exactly once or is held in exactly one place. */
  ghost predicate Conserved(s: State) {
    forall f: nat :: s.freed[f] + Held(s, f) == if f < s.made then 1 else 0
  }

  lemma StepConserves(s: State, a: Step)
    requires Conserved(s) && Enabled(s, a)
    ensures Conserved(Apply(s, a))
  {
    var s' := Apply(s, a);
    forall f: nat ensures s'.freed[f] + Held(s', f) == if f < s'.made then 1 else 0 {
      assert s.freed[f] + Held(s, f) == if f < s.made then 1 else 0;
    }
  }

  // ----- order

  /** `a` can be obtained from `b` by leaving out elements. */
  predicate Subsequence(a: seq<nat>, b: seq<nat>) {
    if a == [] then true
    else if b == [] then false
    else if a[|a| - 1] == b[|b| - 1] then Subsequence(a[..|a| - 1], b[..|b| - 1])
    else Subsequence(a, b[..|b| - 1])
  }

  lemma SubsequenceBoth(a: seq<nat>, b: seq<nat>, x: nat)
    requires Subsequence(a, b)
    ensures Subsequence(a + [x], b + [x])
  {
    assert (a + [x])[..|a|] == a && (b + [x])[..|b|] == b;
  }

  lemma {:induction false} SubsequenceDrop(a: seq<nat>, x: nat, b: seq<nat>)
    requires Subsequence(a + [x], b)
    ensures Subsequence(a, b)
    decreases |b|, 0
  {
    var ax := a + [x];
    assert ax[..|ax| - 1] == a;
    if ax[|ax| - 1] == b[|b| - 1] {
      SubsequenceWider(a, b[..|b| - 1], b[|b| - 1]);
      assert b == b[..|b| - 1] + [b[|b| - 1]];
    } else {
      SubsequenceDrop(a, x, b[..|b| - 1]);
      SubsequenceWider(a, b[..|b| - 1], b[|b| - 1]);
      assert b == b[..|b| - 1] + [b[|b| - 1]];
    }
  }

  lemma {:induction false} SubsequenceWider(a: seq<nat>, b: seq<nat>, y: nat)
    requires Subsequence(a, b)
    ensures Subsequence(a, b + [y])
    decreases |b|, 1
  {
    assert (b + [y])[..|b|] == b;
    if a != [] && a[|a| - 1] == y {
      var a' := a[..|a| - 1];
      assert a == a' + [y];
      SubsequenceDrop(a', y, b);
    }
  }

  lemma {:induction false} SubsequenceLength(a: seq<nat>, b: seq<nat>)
    requires Subsequence(a, b)
    ensures |a| <= |b|
    decreases |b|
  {
    if a != [] {
      if a[|a| - 1] == b[|b| - 1] {
        SubsequenceLength(a[..|a| - 1], b[..|b| - 1]);
      } else {
        SubsequenceLength(a, b[..|b| - 1]);
      }
    }
  }

  function Waiting(p: Option<nat>): seq<nat> {
    if p.Some? then [p.value] else []
  }

  /** A frame taken and not shown. */
  function InHand(p: Present): seq<nat> {
    if p.Taken? then [p.f] else []
  }

  /** What was shown, then what may still be shown, in the order of publication. */
  function Line(s: State): seq<nat> {
    s.shown + InHand(s.present) + Waiting(s.pending)
  }

  ghost predicate InOrder(s: State) {
    Subsequence(Line(s), s.published)
  }

  lemma StepKeepsOrder(s: State, a: Step)
    requires InOrder(s) && Enabled(s, a)
    ensures InOrder(Apply(s, a))
  {
    hide Subsequence;
    var s' := Apply(s, a);
    var line := s.shown + InHand(s.present);
    if a.Publish? {
      if s.pending.Some? {
        assert Line(s) == line + [s.pending.value];
        SubsequenceDrop(line, s.pending.value, s.published);
      } else {
        assert Line(s) == line;
      }
      SubsequenceBoth(line, s.published, s.decode.f);
      assert Line(s') == line + [s.decode.f];
    } else if a.Cleanup? && s.pending.Some? {
      assert Line(s) == line + [s.pending.value] && Line(s') == line;
      SubsequenceDrop(line, s.pending.value, s.published);
    } else if a.Free? && s.present.Taken? {
      DropTaken(s);
      assert Line(s') == s.shown + Waiting(s.pending);
    } else {
      assert Line(s') == Line(s);
    }
  }

  /** A taken frame that could not be shown drops out of the line. */
  lemma DropTaken(s: State)
    requires InOrder(s) && s.present.Taken?
    ensures Subsequence(s.shown + Waiting(s.pending), s.published)
  {
    var f := s.present.f;
    if s.pending.None? {
      assert Line(s) == s.shown + [f] && s.shown + Waiting(s.pending) == s.shown;
      SubsequenceDrop(s.shown, f, s.published);
    } else {
      assert Line(s) == s.shown + [f] + [s.pending.value];
      SubsequenceDropInner(s.shown, f, s.pending.value, s.published);
    }
  }

  lemma {:induction false} SubsequenceDropInner(a: seq<nat>, x: nat, y: nat, b: seq<nat>)
    requires Subsequence(a + [x] + [y], b)
    ensures Subsequence(a + [y], b)
    decreases |b|
  {
    var axy := a + [x] + [y];
    var b' := b[..|b| - 1];
    assert axy[..|axy| - 1] == a + [x];
    assert b == b' + [b[|b| - 1]];
    if y == b[|b| - 1] {
      SubsequenceDrop(a, x, b');
      SubsequenceBoth(a, b', y);
    } else {
      SubsequenceDropInner(a, x, y, b');
      SubsequenceWider(a + [y], b', b[|b| - 1]);
    }
  }

  // ----- counters

  ghost predicate Counted(s: State) {
    && s.framesDecoded + (if s.decode.Counting? then 1 else 0) == |s.published|
    && s.framesPresented == |s.shown|
  }

  // ----- over every interleaving

  lemma {:induction false} Reachable(steps: seq<Step>)
    requires RunAll(steps).Some?
    ensures var s := RunAll(steps).value; Conserved(s) && InOrder(s) && Counted(s)
    ensures var s := RunAll(steps).value; s.cleaned ==> s.decode.Idle? && s.present.Empty? && s.pending.None?
  {
    if steps != [] {
      var before := steps[..|steps| - 1];
      Reachable(before);
      var r, a := RunAll(before).value, steps[|steps| - 1];
      StepConserves(r, a);
      StepKeepsOrder(r, a);
    }
  }

  /** After cleanup every frame that was ever allocated has been freed exactly once. */
  lemma NothingLeaks(steps: seq<Step>)
    requires RunAll(steps).Some? && steps != [] && steps[|steps| - 1] == Cleanup
    ensures var s := RunAll(steps).value; forall f: nat :: s.freed[f] == if f < s.made then 1 else 0
    ensures forall a :: !Enabled(RunAll(steps).value, a)
  {
    Reachable(steps);
    var s := RunAll(steps).value;
    forall f: nat ensures s.freed[f] == if f < s.made then 1 else 0 {
      assert s.freed[f] + Held(s, f) == if f < s.made then 1 else 0;
    }
  }

  /** What is shown is an in-order selection of what was published, and the count of shown frames
      exceeds the count of decoded ones by at most the one publication not yet counted. */
  lemma ShownInOrder(steps: seq<Step>)
    requires RunAll(steps).Some?
    ensures
      var s := RunAll(steps).value;
      && Subsequence(s.shown, s.published)
      && s.framesPresented <= s.framesDecoded + (if s.decode.Counting? then 1 else 0)
  {
    Reachable(steps);
    var s := RunAll(steps).value;
    var line := s.shown + InHand(s.present);
    if s.pending.Some? {
      SubsequenceDrop(line, s.pending.value, s.published);
    } else {
      assert Line(s) == line;
    }
    if s.present.Taken? {
      SubsequenceDrop(s.shown, s.present.f, s.published);
    } else {
      assert line == s.shown;
    }
    SubsequenceLength(s.shown, s.published);
  }

  /** The bound is met: a frame can be shown before its publication is counted. */
  lemma ShownBeforeCounted()
    ensures
      var r := RunAll([Alloc, Publish, Take, Show]);
      r.Some? && r.value.framesPresented == 1 && r.value.framesDecoded == 0
  {
    var all := [Alloc, Publish, Take, Show];
    assert all[..3] == [Alloc, Publish, Take] && all[..3][..2] == [Alloc, Publish];
    assert all[..3][..2][..1] == [Alloc] && all[..3][..2][..1][..0] == [];
    var s1 := Apply(INIT, Alloc);
    assert RunAll([Alloc]) == Some(s1);
    var s2 := Apply(s1, Publish);
    assert RunAll([Alloc, Publish]) == Some(s2);
    var s3 := Apply(s2, Take);
    assert RunAll([Alloc, Publish, Take]) == Some(s3);
    assert RunAll(all) == Some(Apply(s3, Show));
  }
}
