/** The client identity of src/net/identity_store.cpp: three files, written one after the other, where
    any file operation may fail and the process may stop at any point. */
module IdentityStore {
  import opened Common

  datatype Triple = Triple(cert: string, key: string, uid: string)

  /** File name to content. */
  type Files = map<string, string>

  const CERT_FILE := "client.crt"
  const KEY_FILE := "client.key"
  const UID_FILE := "uniqueid"

  // ----- writing one file

  /** What `write_file` meets: whether the temporary file opens, how many bytes reach it by the time it
      is closed, whether the stream was still good before the close, how the renames and the removal of
      the target go, and how many of these operations the process lives to finish. */
  datatype Io = Io(
    opens: bool, stored: nat, good: bool, renames: bool, removes: bool, renamesAgain: bool, steps: nat)

  datatype Status = Ok | Err | Stopped

  /** What becomes of the target: nothing, it is gone, or it holds the bytes that were stored. */
  datatype Effect = Kept | Removed | Placed(stored: nat)

  function EffectOf(io: Io): Effect {
    if io.steps < 3 || !io.opens || !io.good then Kept
    else if io.renames || (io.renamesAgain && io.steps >= 5) then Placed(io.stored)
    else if io.removes && io.steps >= 4 then Removed
    else Kept
  }

  /** The operations of a run that is not stopped. */
  function Operations(io: Io): nat {
    if !io.opens then 1 else if !io.good then 2 else if io.renames then 3 else 5
  }

  function StatusOf(io: Io): Status {
    if io.steps <= Operations(io) then Stopped
    else if io.opens && io.good && (io.renames || io.renamesAgain) then Ok
    else Err
  }

  /** Exactly these outcomes occur. Success says that the file was replaced, not that it is whole: the
      stream is tested before it is flushed and closed. Failure says that it was not replaced, but it
      may be gone. */
  lemma WriteOutcomes(e: Effect, s: Status)
    ensures (exists io :: EffectOf(io) == e && StatusOf(io) == s)
       <==> (s == Ok ==> e.Placed?) && (s == Err ==> !e.Placed?)
  {
    if (s == Ok ==> e.Placed?) && (s == Err ==> !e.Placed?) {
      var n := if e.Placed? then e.stored else 0;
      var steps := if s != Stopped then 6 else if e.Placed? then 3 else 4;
      var io := Io(true, n, true, e.Placed?, e.Removed?, false, steps);
      assert EffectOf(io) == e && StatusOf(io) == s;
    }
  }

  function Cut(data: string, n: nat): string {
    if n < |data| then data[..n] else data
  }

  function FilesAfter(fs: Files, name: string, data: string, io: Io): Files {
    match EffectOf(io)
    case Kept => fs
    case Removed => fs - {name}
    case Placed(n) => fs[name := Cut(data, n)]
  }

  // ----- loading or creating

  /** What one call meets: the identity it would generate (None when generation fails), and how its
      three writes go. */
  datatype Call = Call(minted: Option<Triple>, w1: Io, w2: Io, w3: Io)

  /** A generated identity is complete: generation reports failure otherwise. */
  ghost predicate CallOk(c: Call) {
    c.minted.Some? ==> c.minted.value.cert != "" && c.minted.value.key != "" && c.minted.value.uid != ""
  }

  datatype Outcome = Loaded(t: Triple) | Failed | Interrupted

  datatype After = After(files: Files, outcome: Outcome)

  predicate Present(fs: Files, name: string) {
    name in fs && fs[name] != ""
  }

  predicate Complete(fs: Files) {
    Present(fs, CERT_FILE) && Present(fs, KEY_FILE) && Present(fs, UID_FILE)
  }

  function Stored(fs: Files): Triple
    requires Complete(fs)
  {
    Triple(fs[CERT_FILE], fs[KEY_FILE], fs[UID_FILE])
  }

  function Ended(s: Status): Outcome
    requires s != Ok
  {
    if s == Err then Failed else Interrupted
  }

  /** `load_or_create_identity`. */
  function Load(fs: Files, c: Call): After {
    if Complete(fs) then After(fs, Loaded(Stored(fs)))
    else if c.minted.None? then After(fs, Failed)
    else
      var t := c.minted.value;
      var f1 := FilesAfter(fs, CERT_FILE, t.cert, c.w1);
      if StatusOf(c.w1) != Ok then After(f1, Ended(StatusOf(c.w1)))
      else
        var f2 := FilesAfter(f1, KEY_FILE, t.key, c.w2);
        if StatusOf(c.w2) != Ok then After(f2, Ended(StatusOf(c.w2)))
        else
          var f3 := FilesAfter(f2, UID_FILE, t.uid, c.w3);
          if StatusOf(c.w3) != Ok then After(f3, Ended(StatusOf(c.w3))) else After(f3, Loaded(t))
  }

  /** The status of the write at which the call ends, or of the last. */
  ghost function Deciding(c: Call): Status {
    if StatusOf(c.w1) != Ok then StatusOf(c.w1) else if StatusOf(c.w2) != Ok then StatusOf(c.w2) else StatusOf(c.w3)
  }

  /** A call without a stored identity fails exactly if generation or a write fails, and is cut off exactly
      if the process stops in a write. */
  lemma OutcomeIs(fs: Files, c: Call)
    requires !Complete(fs)
    ensures Load(fs, c).outcome == Failed <==> c.minted.None? || Deciding(c) == Err
    ensures Load(fs, c).outcome == Interrupted <==> c.minted.Some? && Deciding(c) == Stopped
  {
    hide Complete, FilesAfter;
  }

  // ----- histories

  /** The files after a history of calls on an empty directory. */
  function FilesOf(calls: seq<Call>): Files {
    if calls == [] then map[] else Load(FilesOf(calls[..|calls| - 1]), calls[|calls| - 1]).files
  }

  /** The outcome of the i-th call of a history. */
  function OutcomeOf(calls: seq<Call>, i: nat): Outcome
    requires i < |calls|
  {
    Load(FilesOf(calls[..i]), calls[i]).outcome
  }

  ghost predicate CallsOk(calls: seq<Call>) {
    forall i :: 0 <= i < |calls| ==> CallOk(calls[i])
  }

  // ----- one generation

  /** The call gets to replace the uniqueid file, by something that is not empty. */
  predicate PutsUid(fs: Files, c: Call) {
    && !Complete(fs) && c.minted.Some?
    && StatusOf(c.w1) == Ok && StatusOf(c.w2) == Ok && EffectOf(c.w3).Placed? && c.w3.stored > 0
  }

  /** Every byte of the three files is stored. */
  predicate AllWhole(c: Call) {
    c.minted.Some? ==>
      var t := c.minted.value;
      c.w1.stored >= |t.cert| && c.w2.stored >= |t.key| && c.w3.stored >= |t.uid|
  }

  /** The identity generated by the last call that put a uniqueid file in place. */
  function Owner(calls: seq<Call>): Option<Triple> {
    if calls == [] then None
    else
      var before, c := calls[..|calls| - 1], calls[|calls| - 1];
      if PutsUid(FilesOf(before), c) then c.minted else Owner(before)
  }

  /** A non-empty uniqueid file means that all three files hold what was generated with it. */
  ghost predicate OneGeneration(calls: seq<Call>) {
    var fs := FilesOf(calls);
    Present(fs, UID_FILE) ==> Complete(fs) && Owner(calls) == Some(Stored(fs))
  }

  ghost predicate OneGenerationThroughout(calls: seq<Call>) {
    forall k :: 0 <= k <= |calls| ==> OneGeneration(calls[..k])
  }

  /** Whenever the uniqueid file is put in place, all three files of that call are whole. */
  ghost predicate WholeWithUid(calls: seq<Call>) {
    forall k :: 0 <= k < |calls| && PutsUid(FilesOf(calls[..k]), calls[k]) ==> AllWhole(calls[k])
  }

  lemma CutWhole(data: string, n: nat)
    ensures Cut(data, n) == data <==> n >= |data|
    ensures data != "" ==> (Cut(data, n) == "" <==> n == 0)
  {
  }

  /** The files after a call that puts the uniqueid in place. */
  lemma FilesWithUid(fs: Files, c: Call)
    requires PutsUid(fs, c)
    ensures
      var t, fs' := c.minted.value, Load(fs, c).files;
      && CERT_FILE in fs' && fs'[CERT_FILE] == Cut(t.cert, c.w1.stored)
      && KEY_FILE in fs' && fs'[KEY_FILE] == Cut(t.key, c.w2.stored)
      && UID_FILE in fs' && fs'[UID_FILE] == Cut(t.uid, c.w3.stored)
  {
    hide Complete, Cut;
    assert CERT_FILE != UID_FILE && KEY_FILE != UID_FILE && CERT_FILE != KEY_FILE;
  }

  lemma NoUidStays(fs: Files, c: Call)
    requires !Present(fs, UID_FILE) && !PutsUid(fs, c)
    ensures !Present(Load(fs, c).files, UID_FILE)
  {
    assert CERT_FILE != UID_FILE && KEY_FILE != UID_FILE && CERT_FILE != KEY_FILE;
  }

  /** One call: the first two writes happen only while there is no uniqueid, which the third creates. */
  lemma CallKeepsGeneration(calls: seq<Call>)
    requires calls != [] && CallOk(calls[|calls| - 1]) && OneGeneration(calls[..|calls| - 1])
    ensures
      var c := calls[|calls| - 1];
      OneGeneration(calls) <==> (PutsUid(FilesOf(calls[..|calls| - 1]), c) ==> AllWhole(c))
  {
    hide Load;
    var fs, c := FilesOf(calls[..|calls| - 1]), calls[|calls| - 1];
    if Complete(fs) {
      CompleteIsKept(fs, c);
    } else if PutsUid(fs, c) {
      FilesWithUid(fs, c);
      var t := c.minted.value;
      CutWhole(t.cert, c.w1.stored);
      CutWhole(t.key, c.w2.stored);
      CutWhole(t.uid, c.w3.stored);
    } else {
      NoUidStays(fs, c);
    }
  }

  lemma CompleteIsKept(fs: Files, c: Call)
    requires Complete(fs)
    ensures Load(fs, c) == After(fs, Loaded(Stored(fs)))
  {
  }

  lemma {:induction false} GenerationUpTo(calls: seq<Call>, k: nat)
    requires CallsOk(calls) && WholeWithUid(calls) && k <= |calls|
    ensures OneGeneration(calls[..k])
  {
    hide OneGeneration;
    if k == 0 {
      NoGeneration();
      assert calls[..0] == [];
    } else {
      GenerationUpTo(calls, k - 1);
      assert calls[..k][..k - 1] == calls[..k - 1];
      CallKeepsGeneration(calls[..k]);
    }
  }

  lemma NoGeneration()
    ensures OneGeneration([])
  {
  }

  /** Over every history from an empty directory: at every point a non-empty uniqueid file stands with
      the certificate and key generated with it, if and only if no call puts it in place with one of its
      three files short. */
  lemma OneGenerationExactly(calls: seq<Call>)
    requires CallsOk(calls)
    ensures OneGenerationThroughout(calls) <==> WholeWithUid(calls)
  {
    hide OneGeneration, PutsUid, AllWhole;
    if WholeWithUid(calls) {
      forall k | 0 <= k <= |calls| ensures OneGeneration(calls[..k]) {
        GenerationUpTo(calls, k);
      }
    }
    if OneGenerationThroughout(calls) {
      forall k | 0 <= k < |calls| && PutsUid(FilesOf(calls[..k]), calls[k]) ensures AllWhole(calls[k]) {
        assert calls[..k + 1][..k] == calls[..k];
        assert OneGeneration(calls[..k]) && OneGeneration(calls[..k + 1]);
        CallKeepsGeneration(calls[..k + 1]);
      }
    }
  }

  // ----- stability

  lemma {:induction false} CompleteStays(calls: seq<Call>, i: nat, j: nat)
    requires i <= j <= |calls| && Complete(FilesOf(calls[..i]))
    ensures FilesOf(calls[..j]) == FilesOf(calls[..i])
    decreases j
  {
    if i < j {
      CompleteStays(calls, i, j - 1);
      assert calls[..j][..j - 1] == calls[..j - 1];
    }
  }

  /** The three files read back as the identity that the last call returned. */
  ghost predicate ReadsBack(calls: seq<Call>, t: Triple) {
    Complete(FilesOf(calls)) && Stored(FilesOf(calls)) == t
  }

  /** A call that returns an identity leaves it in the files exactly if it was there already or every
      byte of the three new files is stored. */
  lemma ReturnedIsStored(fs: Files, c: Call)
    requires Load(fs, c).outcome.Loaded? && CallOk(c)
    ensures
      var after := Load(fs, c);
      (Complete(after.files) && Stored(after.files) == after.outcome.t) <==> Complete(fs) || AllWhole(c)
  {
    hide Load;
    if Complete(fs) {
      CompleteIsKept(fs, c);
    } else {
      ReturnedIsMinted(fs, c);
      var t := c.minted.value;
      CutWhole(t.cert, c.w1.stored);
      CutWhole(t.key, c.w2.stored);
      CutWhole(t.uid, c.w3.stored);
    }
  }

  lemma ReturnedIsMinted(fs: Files, c: Call)
    requires !Complete(fs) && Load(fs, c).outcome.Loaded?
    ensures
      var after := Load(fs, c);
      && c.minted == Some(after.outcome.t)
      && CERT_FILE in after.files && after.files[CERT_FILE] == Cut(c.minted.value.cert, c.w1.stored)
      && KEY_FILE in after.files && after.files[KEY_FILE] == Cut(c.minted.value.key, c.w2.stored)
      && UID_FILE in after.files && after.files[UID_FILE] == Cut(c.minted.value.uid, c.w3.stored)
  {
    hide Complete, Cut;
    assert CERT_FILE != UID_FILE && KEY_FILE != UID_FILE && CERT_FILE != KEY_FILE;
  }

  /** Once the returned identity is in the files, every later call returns it, whatever would have been
      generated and however its writes would have gone. */
  lemma StoredIsReturned(calls: seq<Call>, more: seq<Call>, t: Triple, j: nat)
    requires ReadsBack(calls, t) && |calls| <= j < |calls| + |more|
    ensures OutcomeOf(calls + more, j) == Loaded(t)
  {
    hide Load;
    assert (calls + more)[..|calls|] == calls;
    CompleteStays(calls + more, |calls|, j);
    CompleteIsKept(FilesOf(calls), (calls + more)[j]);
  }

  /** Every later call of every continuation returns this identity. */
  ghost predicate AlwaysReturned(calls: seq<Call>, t: Triple) {
    forall more: seq<Call> :: CallsOk(more) ==> ReturnedIn(calls, more, t)
  }

  ghost predicate ReturnedIn(calls: seq<Call>, more: seq<Call>, t: Triple) {
    forall j :: |calls| <= j < |calls| + |more| ==> OutcomeOf(calls + more, j) == Loaded(t)
  }

  /** A write on which nothing goes wrong, given its size. */
  function Smooth(size: nat): Io {
    Io(true, size, true, true, true, true, 6)
  }

  function SmoothCall(t: Triple): Call {
    Call(Some(t), Smooth(|t.cert|), Smooth(|t.key|), Smooth(|t.uid|))
  }

  lemma SmoothCreates(fs: Files, t: Triple)
    requires !Complete(fs)
    ensures Load(fs, SmoothCall(t)).outcome == Loaded(t)
  {
    hide Complete;
  }

  /** If the files do not read back, the next call can return another identity. */
  lemma UnstableOtherwise(calls: seq<Call>, t: Triple)
    requires !ReadsBack(calls, t)
    ensures !AlwaysReturned(calls, t)
  {
    hide Load, Complete;
    var other := Triple(t.cert + "x", t.key + "x", t.uid + "x");
    assert |other.cert| == |t.cert| + 1;
    var next := SmoothCall(other);
    var more := [next];
    assert CallsOk(more);
    assert (calls + more)[..|calls|] == calls && (calls + more)[|calls|] == next;
    if Complete(FilesOf(calls)) {
      CompleteIsKept(FilesOf(calls), next);
    } else {
      SmoothCreates(FilesOf(calls), other);
    }
    assert OutcomeOf(calls + more, |calls|) != Loaded(t);
    assert !ReturnedIn(calls, more, t);
  }

  /** Over every history: the identity a call returns is returned by every later call of every
      continuation, if and only if it was loaded or every byte of its three files is stored; and that
      can be seen by reading the files back. */
  lemma IdentityIsStable(calls: seq<Call>, c: Call)
    requires CallOk(c) && Load(FilesOf(calls), c).outcome.Loaded?
    ensures
      var t := Load(FilesOf(calls), c).outcome.t;
      && (AlwaysReturned(calls + [c], t) <==> Complete(FilesOf(calls)) || AllWhole(c))
      && (AlwaysReturned(calls + [c], t) <==> ReadsBack(calls + [c], t))
  {
    hide AlwaysReturned, Load, Complete, AllWhole;
    var all, t := calls + [c], Load(FilesOf(calls), c).outcome.t;
    assert all[..|all| - 1] == calls;
    ReturnedIsStored(FilesOf(calls), c);
    if ReadsBack(all, t) {
      StableIfStored(all, t);
    } else {
      UnstableOtherwise(all, t);
    }
  }

  lemma StableIfStored(calls: seq<Call>, t: Triple)
    requires ReadsBack(calls, t)
    ensures AlwaysReturned(calls, t)
  {
    hide ReadsBack;
    forall more: seq<Call> | CallsOk(more) ensures ReturnedIn(calls, more, t) {
      forall j | |calls| <= j < |calls| + |more| ensures OutcomeOf(calls + more, j) == Loaded(t) {
        StoredIsReturned(calls, more, t, j);
      }
    }
  }

  /** On an empty directory a call on which nothing goes wrong leaves exactly these files. */
  lemma CreatedFiles(t: Triple)
    ensures
      var after := Load(map[], SmoothCall(t));
      && after.outcome == Loaded(t)
      && after.files == map["client.crt" := t.cert, "client.key" := t.key, "uniqueid" := t.uid]
  {
    assert CERT_FILE != UID_FILE && KEY_FILE != UID_FILE && CERT_FILE != KEY_FILE;
  }

  // ----- it does happen

  /** A write reported as good whose bytes are all lost at the close. */
  const LOST: Io := Smooth(0)

  /** A write during which the process stops before anything is done. */
  const STOPPED: Io := Smooth(0).(steps := 0)

  /** The uniqueid is lost at the close: the next call returns another identity. */
  lemma LostUidChangesIdentity(t: Triple, other: Triple)
    ensures
      var calls := [SmoothCall(t).(w3 := LOST), SmoothCall(other)];
      OutcomeOf(calls, 0) == Loaded(t) && OutcomeOf(calls, 1) == Loaded(other)
  {
    var first := SmoothCall(t).(w3 := LOST);
    var calls := [first, SmoothCall(other)];
    assert calls[..0] == [] && calls[..1] == [first] && [first][..0] == [];
    ReturnedIsMinted(map[], first);
    assert !Complete(Load(map[], first).files);
    SmoothCreates(Load(map[], first).files, other);
  }

  /** The certificate is lost at the close, and the next call stops after writing a new one: from then
      on the store returns the certificate of one generation with the key of another. */
  lemma LostCertificateMixes(t: Triple, other: Triple, c: Call)
    requires t.cert != "" && t.key != "" && t.uid != "" && other.cert != ""
    ensures
      var calls := [SmoothCall(t).(w1 := LOST), SmoothCall(other).(w2 := STOPPED), c];
      OutcomeOf(calls, 2) == Loaded(Triple(other.cert, t.key, t.uid))
  {
    var first, second := SmoothCall(t).(w1 := LOST), SmoothCall(other).(w2 := STOPPED);
    var calls := [first, second, c];
    var fs := Load(map[], first).files;
    assert calls[..2][..1] == [first] && calls[..2][1] == second && [first][..0] == [];
    ReturnedIsMinted(map[], first);
    assert !Complete(fs);
    CertOnly(fs, second);
    hide Load;
    assert FilesOf([first]) == fs;
    assert FilesOf(calls[..2]) == Load(fs, second).files;
    assert CERT_FILE != UID_FILE && KEY_FILE != UID_FILE && CERT_FILE != KEY_FILE;
    CompleteIsKept(FilesOf(calls[..2]), c);
  }

  lemma CertOnly(fs: Files, c: Call)
    requires !Complete(fs) && c.minted.Some? && StatusOf(c.w1) == Ok && c.w2 == STOPPED
    ensures Load(fs, c).files == fs[CERT_FILE := Cut(c.minted.value.cert, c.w1.stored)]
  {
    hide Complete, Cut;
  }

  // ----- the store as it runs

  class Store {
    var files: Files

    /** The sibling files with the ending .tmp, under the names of their targets. */
    var temps: Files

    constructor ()
      ensures files == map[] && temps == map[]
    {
      files := map[];
      temps := map[];
    }

    method ReadFile(name: string) returns (have: bool, data: string)
      ensures have == (name in files) && (have ==> data == files[name])
    {
      have := name in files;
      data := if have then files[name] else "";
    }

    method Rename(name: string)
      requires name in temps
      modifies this
      ensures files == old(files)[name := old(temps)[name]] && temps == old(temps) - {name}
    {
      files := files[name := temps[name]];
      temps := temps - {name};
    }

    /** Success leaves no temporary file behind. */
    method WriteFile(name: string, data: string, io: Io) returns (s: Status)
      modifies this
      ensures files == FilesAfter(old(files), name, data, io) && s == StatusOf(io)
      ensures temps - {name} == old(temps) - {name} && (s == Ok ==> name !in temps)
    {
      if io.steps == 0 { return Stopped; }
      if io.opens { temps := temps[name := ""]; }
      if io.steps == 1 { return Stopped; }
      if !io.opens { return Err; }
      temps := temps[name := Cut(data, io.stored)];
      if io.steps == 2 { return Stopped; }
      if !io.good { return Err; }
      if io.renames { Rename(name); }
      if io.steps == 3 { return Stopped; }
      if !io.renames {
        if io.removes { files := files - {name}; }
        if io.steps == 4 { return Stopped; }
        if io.renamesAgain { Rename(name); }
        if io.steps == 5 { return Stopped; }
        if !io.renamesAgain { return Err; }
      }
      return Ok;
    }

    method LoadOrCreate(c: Call) returns (out: Outcome)
      modifies this
      ensures After(files, out) == Load(old(files), c)
    {
      var haveCert, cert := ReadFile(CERT_FILE);
      var haveKey, key := ReadFile(KEY_FILE);
      var haveUid, uid := ReadFile(UID_FILE);
      if haveCert && haveKey && haveUid && cert != "" && key != "" && uid != "" {
        return Loaded(Triple(cert, key, uid));
      }
      if c.minted.None? { return Failed; }
      var made := c.minted.value;
      var s := WriteFile(CERT_FILE, made.cert, c.w1);
      if s != Ok { return Ended(s); }
      s := WriteFile(KEY_FILE, made.key, c.w2);
      if s != Ok { return Ended(s); }
      s := WriteFile(UID_FILE, made.uid, c.w3);
      if s != Ok { return Ended(s); }
      out := Loaded(made);
    }
  }
}
