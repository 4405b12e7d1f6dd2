// Probing an endpoint over a restart of the process behind it.
module RestartProbe {
  import opened CodeUnits
  import opened Wrappers

  // An answer with a status, or a request that failed for some reason. The script keys a state by the
  // status and the error kind, and both are determined by this value and determine it.
  datatype Attempt = Answered(status: int) | Failed(kind: Text) {
    predicate Succeeded() {
      this == Answered(200)
    }

    function Status(): Option<int> {
      match this
      case Answered(s) => Some(s)
      case Failed(_) => None
    }
  }

  // What one round of the loop meets: the clock when it begins, the two flags of the caller, the outcome
  // of the request and the clock when it is there.
  datatype Round = Round(begins: real, processDone: bool, done: bool, attempt: Attempt, ends: real)

  datatype Transition = Transition(ms: real, attempt: Attempt)

  datatype ProbeResult = ProbeResult(
    downtimeMs: Option<real>,
    firstError: Option<Attempt>,
    firstRecoveryMs: Option<real>,
    ms: Option<real>,
    status: Option<int>,
    transitions: seq<Transition>,
    unavailableMs: Option<real>)

  predicate Monotone(rounds: seq<Round>) {
    forall i, j | 0 <= i <= j < |rounds| :: rounds[i].ends <= rounds[j].ends
  }

  // The position of the first of the first n attempts that did not succeed.
  function FirstFailure(rounds: seq<Round>, n: nat): (r: Option<nat>)
    requires n <= |rounds|
    ensures r.None? <==> forall i | 0 <= i < n :: rounds[i].attempt.Succeeded()
    ensures r.Some? ==> r.value < n && !rounds[r.value].attempt.Succeeded()
                        && forall i | 0 <= i < r.value :: rounds[i].attempt.Succeeded()
  {
    if n == 0 then None
    else
      var before := FirstFailure(rounds, n - 1);
      if before.Some? then before
      else if rounds[n - 1].attempt.Succeeded() then None else Some(n - 1)
  }

  // Among the first n attempts, one succeeded after another had not.
  ghost predicate Recovered(rounds: seq<Round>, n: nat)
    requires n <= |rounds|
  {
    exists i, j :: 0 <= i < j < n && !rounds[i].attempt.Succeeded() && rounds[j].attempt.Succeeded()
  }

  // After n attempts, the next round makes no attempt.
  predicate Stops(rounds: seq<Round>, deadline: real, n: nat)
    requires n <= |rounds|
  {
    n < |rounds| ==>
      || rounds[n].begins >= deadline
      || rounds[n].processDone
      || (rounds[n].done && n > 0 && FirstFailure(rounds, n).None?)
  }

  // The attempts of the history that are made: up to the first recovery or the first round that stops.
  ghost predicate AreMade(rounds: seq<Round>, deadline: real, n: nat)
    requires n <= |rounds|
  {
    && (forall i | 0 <= i < n :: !Stops(rounds, deadline, i) && !Recovered(rounds, i))
    && (Recovered(rounds, n) || Stops(rounds, deadline, n))
  }

  // One transition for each attempt whose outcome differs from that of the attempt before.
  function Transitions(rounds: seq<Round>, n: nat, signalSentAt: real): seq<Transition>
    requires n <= |rounds|
  {
    if n == 0 then []
    else
      var round := rounds[n - 1];
      Transitions(rounds, n - 1, signalSentAt)
      + (if n == 1 || rounds[n - 2].attempt != round.attempt
         then [Transition(round.ends - signalSentAt, round.attempt)] else [])
  }

  // Neighbouring transitions have different outcomes, and the last one has the outcome of the last attempt.
  lemma {:induction false} TransitionsChange(rounds: seq<Round>, n: nat, signalSentAt: real)
    requires n <= |rounds|
    ensures var t := Transitions(rounds, n, signalSentAt);
            && (t != [] <==> n > 0)
            && (n > 0 ==> t[|t| - 1].attempt == rounds[n - 1].attempt)
            && forall i, j | 0 <= i < j < |t| && j == i + 1 :: t[i].attempt != t[j].attempt
  {
    if n > 0 {
      TransitionsChange(rounds, n - 1, signalSentAt);
    }
  }

  // The k-th attempt is the first one or has another outcome than the one before.
  predicate Changes(rounds: seq<Round>, k: nat)
    requires k < |rounds|
  {
    k == 0 || rounds[k - 1].attempt != rounds[k].attempt
  }

  // The transitions are exactly the attempts whose outcome differs from the one before, with the time
  // since the signal at which the answer was there.
  lemma {:induction false} TransitionsMeaning(rounds: seq<Round>, n: nat, signalSentAt: real, t: Transition)
    requires n <= |rounds|
    ensures t in Transitions(rounds, n, signalSentAt) <==> exists k | 0 <= k < n ::
              Changes(rounds, k) && t == Transition(rounds[k].ends - signalSentAt, rounds[k].attempt)
  {
    if n > 0 {
      TransitionsMeaning(rounds, n - 1, signalSentAt, t);
      TransitionsStep(rounds, n - 1, signalSentAt);
      assert Changes(rounds, n - 1) <==> n == 1 || rounds[n - 2].attempt != rounds[n - 1].attempt;
      hide Transitions, Changes;
    }
  }

  // A history determines how many attempts are made.
  lemma MadeIsUnique(rounds: seq<Round>, deadline: real, m: nat, n: nat)
    requires m <= |rounds| && n <= |rounds|
    requires AreMade(rounds, deadline, m) && AreMade(rounds, deadline, n)
    ensures m == n
  {
  }

  // What the result says about the attempts that were made.
  ghost predicate IsResult(rounds: seq<Round>, signalSentAt: real, n: nat, r: ProbeResult)
    requires n <= |rounds|
  {
    var failure := FirstFailure(rounds, n);
    // The first failure sets the time of unavailability and the first error.
    && r.unavailableMs == (if failure.Some? then Some(rounds[failure.value].ends - signalSentAt) else None)
    && r.firstError == (if failure.Some? then Some(rounds[failure.value].attempt) else None)
    // A downtime is reported exactly after a recovery, and lasts from the first failure to the success.
    && (r.downtimeMs.Some? <==> Recovered(rounds, n))
    && (r.downtimeMs.Some? ==>
        && n > 0 && failure.Some? && rounds[n - 1].attempt.Succeeded()
        && r.downtimeMs.value == rounds[n - 1].ends - rounds[failure.value].ends)
    && r.firstRecoveryMs == (if Recovered(rounds, n) && n > 0 then Some(rounds[n - 1].ends - signalSentAt) else None)
    // A time to readiness needs a success that is not followed by a failure.
    && (r.ms.Some? <==> n > 0 && rounds[n - 1].attempt.Succeeded() && (failure.None? || Recovered(rounds, n)))
    && (r.ms.Some? ==> r.ms.value == rounds[n - 1].ends - signalSentAt && r.status == Some(200))
    // The status is that of the last answer, and there is none without an answer.
    && (r.status.Some? <==> n > 0 && rounds[n - 1].attempt.Answered?)
    && (r.status.Some? ==> rounds[n - 1].attempt == Answered(r.status.value))
    && r.transitions == Transitions(rounds, n, signalSentAt)
  }

  // Every downtime is the difference of two readings of the clock in order.
  lemma DowntimeIsNotNegative(rounds: seq<Round>, signalSentAt: real, n: nat, r: ProbeResult)
    requires n <= |rounds| && Monotone(rounds) && IsResult(rounds, signalSentAt, n, r) && r.downtimeMs.Some?
    ensures r.downtimeMs.value >= 0.0
  {
    hide Recovered, Transitions;
    var i := FirstFailure(rounds, n).value;
    assert rounds[i].ends <= rounds[n - 1].ends;
  }

  lemma RecoveryStep(rounds: seq<Round>, n: nat)
    requires n < |rounds| && !Recovered(rounds, n)
    ensures Recovered(rounds, n + 1) <==> rounds[n].attempt.Succeeded() && FirstFailure(rounds, n).Some?
  {
    if rounds[n].attempt.Succeeded() && FirstFailure(rounds, n).Some? {
      assert !rounds[FirstFailure(rounds, n).value].attempt.Succeeded();
    }
  }

  method WaitForRestartProbe(rounds: seq<Round>, deadline: real, signalSentAt: real)
      returns (result: ProbeResult)
    ensures exists made: nat | made <= |rounds| ::
              AreMade(rounds, deadline, made) && IsResult(rounds, signalSentAt, made, result)
  {
    hide Transitions, Recovered;
    var firstError: Option<Attempt> := None;
    var lastStatus: Option<int> := None;
    var lastState: Option<Attempt> := None;
    var lastSuccessMs: Option<real> := None;
    var unavailableMs: Option<real> := None;
    var transitions: seq<Transition> := [];
    var i := 0;
    NothingYet(rounds, signalSentAt);
    while i < |rounds| && rounds[i].begins < deadline
      invariant i <= |rounds|
      invariant forall k | 0 <= k < i :: !Stops(rounds, deadline, k) && !Recovered(rounds, k)
      invariant !Recovered(rounds, i)
      invariant lastState == if i > 0 then Some(rounds[i - 1].attempt) else None
      invariant lastStatus == if i > 0 then rounds[i - 1].attempt.Status() else None
      invariant transitions == Transitions(rounds, i, signalSentAt)
      invariant unavailableMs == var f := FirstFailure(rounds, i);
                                 if f.Some? then Some(rounds[f.value].ends - signalSentAt) else None
      invariant firstError == var f := FirstFailure(rounds, i);
                              if f.Some? then Some(rounds[f.value].attempt) else None
      invariant FirstFailure(rounds, i).None? ==>
                  lastSuccessMs == if i > 0 then Some(rounds[i - 1].ends - signalSentAt) else None
    {
      var round := rounds[i];
      if round.processDone {
        break;
      }
      if round.done && unavailableMs.None? && lastSuccessMs.Some? {
        result := ProbeResult(None, firstError, None, lastSuccessMs, Some(200), transitions, None);
        assert AreMade(rounds, deadline, i) && IsResult(rounds, signalSentAt, i, result);
        return;
      }
      var elapsedMs := round.ends - signalSentAt;
      lastStatus := round.attempt.Status();
      TransitionsStep(rounds, i, signalSentAt);
      RecoveryStep(rounds, i);
      if lastState != Some(round.attempt) {
        transitions := transitions + [Transition(elapsedMs, round.attempt)];
        lastState := Some(round.attempt);
      }
      if !round.attempt.Succeeded() && firstError.None? {
        firstError := Some(round.attempt);
      }
      if !round.attempt.Succeeded() && unavailableMs.None? {
        unavailableMs := Some(elapsedMs);
      }
      if round.attempt.Succeeded() {
        lastSuccessMs := Some(elapsedMs);
      }
      i := i + 1;
      if round.attempt.Succeeded() && unavailableMs.Some? {
        result := ProbeResult(Some(elapsedMs - unavailableMs.value), firstError, Some(elapsedMs), Some(elapsedMs),
                              lastStatus, transitions, unavailableMs);
        assert AreMade(rounds, deadline, i) && IsResult(rounds, signalSentAt, i, result);
        return;
      }
    }
    result := ProbeResult(None, firstError, None, if unavailableMs.None? then lastSuccessMs else None,
                          lastStatus, transitions, unavailableMs);
    assert AreMade(rounds, deadline, i) && IsResult(rounds, signalSentAt, i, result);
  }

  lemma NothingYet(rounds: seq<Round>, signalSentAt: real)
    ensures !Recovered(rounds, 0) && Transitions(rounds, 0, signalSentAt) == []
  {
  }

  lemma TransitionsStep(rounds: seq<Round>, n: nat, signalSentAt: real)
    requires n < |rounds|
    ensures Transitions(rounds, n + 1, signalSentAt)
         == Transitions(rounds, n, signalSentAt)
            + (if n == 0 || rounds[n - 1].attempt != rounds[n].attempt
               then [Transition(rounds[n].ends - signalSentAt, rounds[n].attempt)] else [])
  {
  }
}
