// Create-only release refs on a shared remote: any number of recorders look the ref up, push it on the
// condition that it does not exist, and read it back. Their steps interleave in any way, and any git
// command can fail, even a push that has reached the remote.
module ReleaseRefs {
  import opened CodeUnits
  import opened Wrappers

  type Ref = Text
  type Sha = Text

  // What a recorder has to record, and how far it has got.
  datatype Progress =
    | Started
    | Available
    | Pushed
    | Created
    | AlreadyRecorded
    | Refused

  datatype Recorder = Recorder(ref: Ref, sha: Sha, progress: Progress) {
    predicate Succeeded() {
      progress == Created || progress == AlreadyRecorded
    }
  }

  datatype System = System(remote: map<Ref, Sha>, recorders: seq<Recorder>)

  // readRemoteRef; a failed lookup is an error of its own.
  function Lookup(remote: map<Ref, Sha>, ref: Ref): Option<Sha> {
    if ref in remote then Some(remote[ref]) else None
  }

  datatype Status = IsAvailable | IsAlreadyRecorded | IsTaken

  // The answer of preflightMobileReleaseRef.
  function Preflight(remote: map<Ref, Sha>, ref: Ref, sha: Sha): Status {
    match Lookup(remote, ref)
    case None => IsAvailable
    case Some(existing) => if existing == sha then IsAlreadyRecorded else IsTaken
  }

  // What a push under the lease "the ref does not exist" does to the remote, and whether it can succeed:
  // an absent ref is created, a ref that already has the value is up to date, any other is rejected.
  function Push(remote: map<Ref, Sha>, ref: Ref, sha: Sha): (map<Ref, Sha>, bool) {
    match Lookup(remote, ref)
    case None => (remote[ref := sha], true)
    case Some(existing) => (remote, existing == sha)
  }

  // `arrives` is whether the command reaches the remote, `reports` whether its success is reported.
  datatype Step =
    | Join(ref: Ref, sha: Sha)
    | DoPreflight(k: nat, reports: bool)
    | DoPush(k: nat, arrives: bool, reports: bool)
    | DoReadBack(k: nat, reports: bool)

  predicate Enabled(s: System, step: Step) {
    match step
    case Join(_, _) => true
    case DoPreflight(k, _) => k < |s.recorders| && s.recorders[k].progress == Started
    case DoPush(k, _, _) => k < |s.recorders| && s.recorders[k].progress == Available
    case DoReadBack(k, _) => k < |s.recorders| && s.recorders[k].progress == Pushed
  }

  function Advance(s: System, k: nat, progress: Progress): System
    requires k < |s.recorders|
  {
    s.(recorders := s.recorders[k := s.recorders[k].(progress := progress)])
  }

  function Apply(s: System, step: Step): System
    requires Enabled(s, step)
  {
    match step
    case Join(ref, sha) => s.(recorders := s.recorders + [Recorder(ref, sha, Started)])
    case DoPreflight(k, reports) =>
      var r := s.recorders[k];
      Advance(s, k,
        if !reports then Refused
        else match Preflight(s.remote, r.ref, r.sha)
             case IsAvailable => Available
             case IsAlreadyRecorded => AlreadyRecorded
             case IsTaken => Refused)
    case DoPush(k, arrives, reports) =>
      var r := s.recorders[k];
      var (remote, accepted) := if arrives then Push(s.remote, r.ref, r.sha) else (s.remote, false);
      Advance(s, k, if accepted && reports then Pushed else Refused).(remote := remote)
    case DoReadBack(k, reports) =>
      var r := s.recorders[k];
      Advance(s, k, if reports && Lookup(s.remote, r.ref) == Some(r.sha) then Created else Refused)
  }

  // From state to state, starting with any remote and no recorders.
  ghost predicate IsRun(states: seq<System>, steps: seq<Step>) {
    && |states| == |steps| + 1
    && states[0].recorders == []
    && forall j | 0 <= j < |steps| :: Enabled(states[j], steps[j]) && states[j + 1] == Apply(states[j], steps[j])
  }

  // A ref that is set keeps its value.
  predicate Extends(a: map<Ref, Sha>, b: map<Ref, Sha>) {
    forall ref | ref in a :: ref in b && b[ref] == a[ref]
  }

  // Whoever has pushed or succeeded finds its commit at the ref.
  predicate Invariant(s: System) {
    forall k | 0 <= k < |s.recorders| ::
      var r := s.recorders[k];
      r.Succeeded() || r.progress == Pushed ==> Lookup(s.remote, r.ref) == Some(r.sha)
  }

  lemma StepExtends(s: System, step: Step)
    requires Enabled(s, step)
    ensures Extends(s.remote, Apply(s, step).remote)
  {
  }

  // A step moves one recorder, never changes what a recorder is for, and never undoes a success.
  lemma StepMoves(s: System, step: Step, k: nat)
    requires Enabled(s, step) && k < |s.recorders|
    ensures var r, r' := s.recorders[k], Apply(s, step).recorders[k];
            k < |Apply(s, step).recorders| && r'.ref == r.ref && r'.sha == r.sha && (r.Succeeded() ==> r' == r)
  {
  }

  lemma StepKeepsInvariant(s: System, step: Step)
    requires Invariant(s) && Enabled(s, step)
    ensures Invariant(Apply(s, step))
  {
    StepExtends(s, step);
  }

  lemma {:induction false} RunKeepsInvariant(states: seq<System>, steps: seq<Step>, j: nat)
    requires IsRun(states, steps) && j < |states|
    ensures Invariant(states[j]) && Extends(states[0].remote, states[j].remote)
  {
    if j > 0 {
      RunKeepsInvariant(states, steps, j - 1);
      StepKeepsInvariant(states[j - 1], steps[j - 1]);
      StepExtends(states[j - 1], steps[j - 1]);
    }
  }

  // Once set, a ref never changes, whoever runs.
  lemma {:induction false} RefsNeverChange(states: seq<System>, steps: seq<Step>, i: nat, j: nat)
    requires IsRun(states, steps) && i <= j < |states|
    ensures Extends(states[i].remote, states[j].remote)
    decreases j
  {
    if i < j {
      RefsNeverChange(states, steps, i, j - 1);
      StepExtends(states[j - 1], steps[j - 1]);
    }
  }

  lemma {:induction false} SuccessStays(states: seq<System>, steps: seq<Step>, i: nat, j: nat, k: nat)
    requires IsRun(states, steps) && i <= j < |states|
    requires k < |states[i].recorders| && states[i].recorders[k].Succeeded()
    ensures k < |states[j].recorders| && states[j].recorders[k] == states[i].recorders[k]
    decreases j
  {
    if i < j {
      SuccessStays(states, steps, i, j - 1, k);
      StepMoves(states[j - 1], steps[j - 1], k);
    }
  }

  // Two recorders that both report success for the same ref, at whatever moments, recorded the same commit.
  lemma SuccessesAgree(states: seq<System>, steps: seq<Step>, i: nat, j: nat, k: nat, l: nat)
    requires IsRun(states, steps) && i < |states| && j < |states|
    requires k < |states[i].recorders| && states[i].recorders[k].Succeeded()
    requires l < |states[j].recorders| && states[j].recorders[l].Succeeded()
    requires states[i].recorders[k].ref == states[j].recorders[l].ref
    ensures states[i].recorders[k].sha == states[j].recorders[l].sha
  {
    var last := if i <= j then j else i;
    SuccessStays(states, steps, i, last, k);
    SuccessStays(states, steps, j, last, l);
    RunKeepsInvariant(states, steps, last);
  }

  // After a success every later resolve of the ref gives its commit, and a later record of the same
  // commit is told at once that it is already recorded, while any other commit is refused.
  lemma SuccessIsVisible(states: seq<System>, steps: seq<Step>, i: nat, j: nat, k: nat, sha: Sha)
    requires IsRun(states, steps) && i <= j < |states|
    requires k < |states[i].recorders| && states[i].recorders[k].Succeeded()
    ensures var r := states[i].recorders[k];
            && Lookup(states[j].remote, r.ref) == Some(r.sha)
            && Preflight(states[j].remote, r.ref, sha) == (if sha == r.sha then IsAlreadyRecorded else IsTaken)
  {
    RunKeepsInvariant(states, steps, i);
    RefsNeverChange(states, steps, i, j);
  }

  // ---------- Which steps refuse, and who sets a ref ----------

  predicate IsOf(step: Step, k: nat) {
    match step
    case Join(_, _) => false
    case DoPreflight(l, _) => l == k
    case DoPush(l, _, _) => l == k
    case DoReadBack(l, _) => l == k
  }

  // The command does not reach the remote, or its result does not come back.
  predicate Fails(step: Step) {
    match step
    case Join(_, _) => false
    case DoPreflight(_, reports) => !reports
    case DoPush(_, arrives, reports) => !arrives || !reports
    case DoReadBack(_, reports) => !reports
  }

  predicate HoldsAnother(remote: map<Ref, Sha>, r: Recorder) {
    r.ref in remote && remote[r.ref] != r.sha
  }

  // A recorder is refused exactly by a command of its own that fails or finds another commit at the ref.
  lemma RefusedExactly(states: seq<System>, steps: seq<Step>, j: nat, k: nat)
    requires IsRun(states, steps) && j < |steps| && k < |states[j].recorders|
    requires states[j].recorders[k].progress != Refused
    ensures k < |states[j + 1].recorders|
    ensures states[j + 1].recorders[k].progress == Refused
       <==> IsOf(steps[j], k) && (Fails(steps[j]) || HoldsAnother(states[j].remote, states[j].recorders[k]))
  {
    RunKeepsInvariant(states, steps, j);
  }

  predicate HasChecked(progress: Progress, existed: bool) {
    if existed then progress == AlreadyRecorded || progress == Refused
    else progress != Started && progress != AlreadyRecorded
  }

  // A success is `already-recorded` when the ref existed at the preflight, and `created` when it did not.
  lemma {:induction false} PreflightDecides(states: seq<System>, steps: seq<Step>, i: nat, j: nat, k: nat)
    requires IsRun(states, steps) && i < j < |states|
    requires steps[i].DoPreflight? && steps[i].k == k
    ensures k < |states[i].recorders| && k < |states[j].recorders|
    ensures states[j].recorders[k].ref == states[i].recorders[k].ref
    ensures HasChecked(states[j].recorders[k].progress, states[i].recorders[k].ref in states[i].remote)
    decreases j
  {
    assert Enabled(states[i], steps[i]);
    if i < j - 1 {
      PreflightDecides(states, steps, i, j - 1, k);
      StepMoves(states[j - 1], steps[j - 1], k);
      CheckedStays(states[j - 1], steps[j - 1], k, states[i].recorders[k].ref in states[i].remote);
    }
  }

  lemma CheckedStays(s: System, step: Step, k: nat, existed: bool)
    requires Enabled(s, step) && k < |s.recorders| && HasChecked(s.recorders[k].progress, existed)
    ensures HasChecked(Apply(s, step).recorders[k].progress, existed)
  {
  }

  // A push for the ref that reaches the remote.
  predicate Arrives(s: System, step: Step, ref: Ref) {
    step.DoPush? && step.arrives && step.k < |s.recorders| && s.recorders[step.k].ref == ref
  }

  ghost predicate ArrivesFirst(states: seq<System>, steps: seq<Step>, i: nat, ref: Ref)
    requires i < |steps| < |states|
  {
    Arrives(states[i], steps[i], ref) && forall h | 0 <= h < i :: !Arrives(states[h], steps[h], ref)
  }

  // A ref has a commit exactly when it had it in the beginning, or did not exist then and the first push
  // for it that reached the remote was for that commit.
  lemma {:induction false} FirstPushWins(states: seq<System>, steps: seq<Step>, j: nat, ref: Ref, sha: Sha)
    requires IsRun(states, steps) && j < |states|
    ensures Lookup(states[j].remote, ref) == Some(sha) <==>
              || Lookup(states[0].remote, ref) == Some(sha)
              || (ref !in states[0].remote && exists i | 0 <= i < j ::
                    ArrivesFirst(states, steps, i, ref) && states[i].recorders[steps[i].k].sha == sha)
    ensures ref !in states[j].remote <==>
              ref !in states[0].remote && forall i | 0 <= i < j :: !Arrives(states[i], steps[i], ref)
  {
    if j > 0 {
      FirstPushWins(states, steps, j - 1, ref, sha);
      PushSets(states[j - 1], steps[j - 1], ref);
    }
  }

  lemma PushSets(s: System, step: Step, ref: Ref)
    requires Enabled(s, step)
    ensures Lookup(Apply(s, step).remote, ref)
         == if ref !in s.remote && Arrives(s, step, ref) then Some(s.recorders[step.k].sha) else Lookup(s.remote, ref)
  {
  }

  // A recorder that is alone succeeds when its commands are reported, unless the ref is already taken.
  lemma LoneRecorder(remote: map<Ref, Sha>, ref: Ref, sha: Sha)
    ensures var s0 := System(remote, [Recorder(ref, sha, Started)]);
            var s1 := Apply(s0, DoPreflight(0, true));
            match Preflight(remote, ref, sha)
            case IsTaken => s1.recorders[0].progress == Refused && s1.remote == remote
            case IsAlreadyRecorded => s1.recorders[0].progress == AlreadyRecorded && s1.remote == remote
            case IsAvailable =>
              && Enabled(s1, DoPush(0, true, true))
              && var s2 := Apply(s1, DoPush(0, true, true));
              && Enabled(s2, DoReadBack(0, true))
              && var s3 := Apply(s2, DoReadBack(0, true));
              s3.recorders[0].progress == Created && s3.remote == remote[ref := sha]
  {
  }
}
