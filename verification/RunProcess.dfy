// Any number of child processes run side by side, each with an output capture, a timeout, a kill grace
// period and handlers that relay the parent's termination signals. The signal is raised again, against
// the parent itself, once every child has been dealt with.
//
// Every `runProcess` call is an instance; its captured variables are the fields of a record, its
// callbacks are the events. POSIX only: children are process group leaders.
module RunProcess {
  import opened CodeUnits
  import opened ProcessOutput
  import opened Wrappers

  datatype Signal = SIGINT | SIGTERM | SIGHUP

  // What a kill timer will do: finish a timed out child, or finish a child and re-raise a signal.
  datatype Grace = AfterTimeout | AfterSignal(signal: Signal)

  // The two output captures; `written` is everything the child wrote to stdout.
  datatype Output = Output(stdout: Capture, stderr: Capture, maxChars: Limit, written: Text)

  // The variables that steer the timers, and the timers that are really pending: the timeout, a kill
  // timer set by the timeout, a kill timer set by a signal.
  datatype Timers = Timers(
    waitingForKillGrace: bool,
    killTimer: Option<Grace>,
    timeoutPending: bool,
    timeoutKillPending: bool,
    signalKillPending: Option<Signal>)

  // The instance's entry in the set that all instances share, while it is a member.
  datatype Entry = Entry(member: bool, signal: Option<Signal>, done: bool)

  datatype Outcome =
    | Resolved(code: int, stdout: Text, stderr: Capture)
    | RejectedTimeout
    | RejectedFailure
    | RejectedTruncated
    | RejectedError

  // `seenDead` records a liveness probe that found no process group, `killSent` a SIGKILL. `late` tells
  // that the instance was started when another one had already received a signal. The close listener
  // is registered once, and `closed` tells that it has run.
  datatype Instance = Instance(
    hasPid: bool,
    rejectOnFailure: bool,
    output: Output,
    timedOut: bool,
    childClosed: Option<Option<int>>,
    parentSignalPending: Option<Signal>,
    timers: Timers,
    entry: Entry,
    handlers: bool,
    outcome: Option<Outcome>,
    seenDead: bool,
    killSent: bool,
    late: bool,
    closed: bool)

  function Started(hasPid: bool, rejectOnFailure: bool, maxChars: Limit, late: bool): Instance {
    Instance(hasPid, rejectOnFailure, Output(Capture([], 0), Capture([], 0), maxChars, []),
             false, None, None, Timers(false, None, true, false, None), Entry(true, None, false),
             true, None, false, false, late, false)
  }

  // ---------- The callbacks of one instance ----------

  // Sending a signal can at most add a complaint to the captured stderr.
  function Complain(o: Output, complaint: Text): Output {
    o.(stderr := AppendBounded(o.stderr, complaint, o.maxChars))
  }

  // A child without a process id counts as dead.
  predicate GroupIsAlive(i: Instance, probe: bool) {
    i.hasPid && probe
  }

  function ClearKillTimer(t: Timers): Timers {
    match t.killTimer
    case None => t
    case Some(AfterTimeout) => t.(timeoutKillPending := false)
    case Some(AfterSignal(s)) => if t.signalKillPending == Some(s) then t.(signalKillPending := None) else t
  }

  // settle: only the first call counts.
  function Settle(i: Instance, outcome: Outcome): Instance {
    if i.outcome.Some? then i
    else
      var signalled := i.parentSignalPending.Some?;
      var timers := i.timers.(timeoutPending := false);
      i.(outcome := Some(outcome), timers := if signalled then timers else ClearKillTimer(timers),
         entry := if signalled then i.entry else i.entry.(member := false), handlers := false)
  }

  function CloseOutcome(i: Instance, code: Option<int>): Outcome {
    var exitCode := match code case None => 1 case Some(c) => c;
    if i.timedOut then RejectedTimeout
    else if exitCode != 0 && i.rejectOnFailure then RejectedFailure
    else if exitCode == 0 && i.output.stdout.truncatedChars > 0 then RejectedTruncated
    else Resolved(exitCode, i.output.stdout.text, i.output.stderr)
  }

  function FinishClose(i: Instance, code: Option<int>): Instance {
    Settle(i, CloseOutcome(i, code))
  }

  function OnData(i: Instance, onStdout: bool, chunk: Text): Instance {
    var o := i.output;
    if onStdout then
      i.(output := o.(stdout := AppendBounded(o.stdout, chunk, o.maxChars), written := o.written + chunk))
    else i.(output := o.(stderr := AppendBounded(o.stderr, chunk, o.maxChars)))
  }

  function ScheduleKill(t: Timers): Timers {
    if t.waitingForKillGrace then t
    else t.(waitingForKillGrace := true, killTimer := Some(AfterTimeout), timeoutKillPending := true)
  }

  function OnTimeout(i: Instance, complaint: Text): Instance {
    i.(timedOut := true, output := Complain(i.output, complaint),
       timers := ScheduleKill(i.timers.(timeoutPending := false)))
  }

  function KillTimerFired(i: Instance, complaint: Text): Instance {
    i.(timers := i.timers.(waitingForKillGrace := false, killTimer := None),
       output := Complain(i.output, complaint), killSent := true)
  }

  function OnTimeoutKill(i: Instance, complaint: Text): Instance {
    var j := KillTimerFired(i.(timers := i.timers.(timeoutKillPending := false)), complaint);
    if j.childClosed.Some? then FinishClose(j, j.childClosed.value) else j
  }

  function OnSignalKill(i: Instance, complaint: Text): Instance {
    var j := KillTimerFired(i.(timers := i.timers.(signalKillPending := None)), complaint);
    j.(entry := j.entry.(done := true))
  }

  function OnRelay(i: Instance, signal: Signal, probe: bool, complaint: Text): Instance {
    var j := i.(parentSignalPending := Some(signal), output := Complain(i.output, complaint), handlers := false);
    if !GroupIsAlive(i, probe) then j.(seenDead := true, entry := i.entry.(signal := Some(signal), done := true))
    else
      var t := ClearKillTimer(i.timers);
      j.(entry := i.entry.(signal := Some(signal)),
         timers := t.(waitingForKillGrace := true, killTimer := Some(AfterSignal(signal)),
                      signalKillPending := Some(signal)))
  }

  function OnClose(i: Instance, code: Option<int>, probe: bool): Instance {
    if i.parentSignalPending.Some? then
      if GroupIsAlive(i, probe) then i.(childClosed := Some(code))
      else
        i.(timers := ClearKillTimer(i.timers).(killTimer := None), seenDead := true,
           entry := i.entry.(done := true))
    else if i.timers.waitingForKillGrace && GroupIsAlive(i, probe) then i.(childClosed := Some(code))
    else FinishClose(i, code)
  }

  // ---------- What the callbacks of an instance keep ----------

  predicate SignalsSound(i: Instance) {
    && i.parentSignalPending == i.entry.signal
    && (i.handlers <==> i.outcome.None? && i.entry.signal.None?)
    && (i.entry.member <==> i.outcome.None? || i.entry.signal.Some?)
    && (i.entry.done ==> i.entry.signal.Some? && (i.seenDead || i.killSent))
  }

  // A pending kill timer is the one the variable names, so at most one is pending; a signalled instance
  // is done or will be when its kill timer fires; a settled instance that was not signalled leaves no
  // timer behind.
  predicate TimersSound(i: Instance) {
    var t := i.timers;
    && (t.timeoutKillPending ==> t.killTimer == Some(AfterTimeout) && t.waitingForKillGrace)
    && (t.signalKillPending.Some? ==> t.killTimer == Some(AfterSignal(t.signalKillPending.value))
                                      && t.waitingForKillGrace && t.signalKillPending == i.entry.signal)
    && (i.entry.signal.Some? && !i.entry.done ==> t.signalKillPending == i.entry.signal)
    && (i.entry.done ==> t.signalKillPending.None?)
    && (i.outcome.Some? ==> !t.timeoutPending)
    && (i.outcome.Some? && i.entry.signal.None? ==> !t.timeoutKillPending && t.signalKillPending.None?)
  }

  predicate OutputSound(i: Instance) {
    Captures(i.output.stdout, i.output.written, i.output.maxChars)
  }

  predicate Sound(i: Instance) {
    SignalsSound(i) && TimersSound(i) && OutputSound(i)
  }

  lemma OnlyOutputChanges(i: Instance, o: Output)
    ensures SignalsSound(i.(output := o)) == SignalsSound(i) && TimersSound(i.(output := o)) == TimersSound(i)
    ensures i.(output := o).output == o
  {
  }

  lemma DataSound(i: Instance, onStdout: bool, chunk: Text)
    requires Sound(i)
    ensures Sound(OnData(i, onStdout, chunk))
  {
    AppendKeepsTail(i.output.stdout, i.output.written, chunk, i.output.maxChars);
    hide Captures, AppendBounded, SignalsSound, TimersSound;
    OnlyOutputChanges(i, OnData(i, onStdout, chunk).output);
    assert OnData(i, onStdout, chunk) == i.(output := OnData(i, onStdout, chunk).output);
  }

  lemma SettleSound(i: Instance, outcome: Outcome)
    requires Sound(i)
    ensures Sound(Settle(i, outcome))
  {
  }

  lemma TimeoutSound(i: Instance, complaint: Text)
    requires Sound(i) && i.timers.timeoutPending
    ensures Sound(OnTimeout(i, complaint))
  {
  }

  lemma TimeoutKillSound(i: Instance, complaint: Text)
    requires Sound(i) && i.timers.timeoutKillPending
    ensures Sound(OnTimeoutKill(i, complaint))
  {
    hide Settle, Captures, AppendBounded, CloseOutcome;
    var j := KillTimerFired(i.(timers := i.timers.(timeoutKillPending := false)), complaint);
    assert Sound(j);
    if j.childClosed.Some? {
      SettleSound(j, CloseOutcome(j, j.childClosed.value));
    }
  }

  lemma SignalKillSound(i: Instance, complaint: Text)
    requires Sound(i) && i.timers.signalKillPending.Some?
    ensures Sound(OnSignalKill(i, complaint))
  {
  }

  lemma RelaySound(i: Instance, signal: Signal, probe: bool, complaint: Text)
    requires Sound(i) && i.handlers
    ensures Sound(OnRelay(i, signal, probe, complaint))
  {
  }

  lemma CloseSound(i: Instance, code: Option<int>, probe: bool)
    requires Sound(i)
    ensures Sound(OnClose(i, code, probe))
  {
    hide Captures, CloseOutcome, Settle;
    SettleSound(i, CloseOutcome(i, code));
    if i.parentSignalPending.Some? && !GroupIsAlive(i, probe) {
      SignalledCloseSound(i, code, probe);
    }
  }

  lemma SignalledCloseSound(i: Instance, code: Option<int>, probe: bool)
    requires Sound(i) && i.parentSignalPending.Some? && !GroupIsAlive(i, probe)
    ensures Sound(OnClose(i, code, probe))
  {
    hide Captures, CloseOutcome, Settle;
  }

  // The handler of a signal, data on a pipe, the timers, and the child's error and close events, which
  // may come in any order; the close event comes once. A probe is what the kernel says about the process
  // group.
  datatype Callback =
    | Relay(signal: Signal, probe: bool, complaint: Text)
    | Data(onStdout: bool, chunk: Text)
    | Timeout(complaint: Text)
    | TimeoutKill(complaint: Text)
    | SignalKill(complaint: Text)
    | Fail
    | Close(code: Option<int>, probe: bool)

  predicate Due(i: Instance, c: Callback) {
    match c
    case Relay(_, _, _) => i.handlers
    case Timeout(_) => i.timers.timeoutPending
    case TimeoutKill(_) => i.timers.timeoutKillPending
    case SignalKill(_) => i.timers.signalKillPending.Some?
    case Close(_, _) => !i.closed
    case _ => true
  }

  function Run(i: Instance, c: Callback): Instance {
    match c
    case Relay(signal, probe, complaint) => OnRelay(i, signal, probe, complaint)
    case Data(onStdout, chunk) => OnData(i, onStdout, chunk)
    case Timeout(complaint) => OnTimeout(i, complaint)
    case TimeoutKill(complaint) => OnTimeoutKill(i, complaint)
    case SignalKill(complaint) => OnSignalKill(i, complaint)
    case Fail => Settle(i, RejectedError)
    case Close(code, probe) => OnClose(i, code, probe).(closed := true)
  }

  // The signal for which the callback calls maybeReraiseRunProcessParentSignal, if it does.
  function Asks(i: Instance, c: Callback): Option<Signal> {
    match c
    case Relay(signal, probe, _) => if GroupIsAlive(i, probe) then None else Some(signal)
    case SignalKill(_) => i.timers.signalKillPending
    case Close(_, probe) => if GroupIsAlive(i, probe) then None else i.parentSignalPending
    case _ => None
  }

  lemma ClosedSound(i: Instance)
    requires Sound(i)
    ensures Sound(i.(closed := true))
  {
    hide Captures;
  }

  lemma RunSound(i: Instance, c: Callback)
    requires Sound(i) && Due(i, c)
    ensures Sound(Run(i, c))
  {
    hide Sound, OnRelay, OnData, OnTimeout, OnTimeoutKill, OnSignalKill, Settle, OnClose;
    match c
    case Relay(signal, probe, complaint) => RelaySound(i, signal, probe, complaint);
    case Data(onStdout, chunk) => DataSound(i, onStdout, chunk);
    case Timeout(complaint) => TimeoutSound(i, complaint);
    case TimeoutKill(complaint) => TimeoutKillSound(i, complaint);
    case SignalKill(complaint) => SignalKillSound(i, complaint);
    case Fail => SettleSound(i, RejectedError);
    case Close(code, probe) =>
      CloseSound(i, code, probe);
      ClosedSound(OnClose(i, code, probe));
  }

  // Only the signal handler marks an instance as signalled, and it takes its listeners away; only a
  // callback that asks for the re-raise marks it as done.
  predicate EntryMoves(i: Instance, j: Instance, relays: bool, asks: bool) {
    && (if relays then j.entry.signal.Some? && !j.handlers else j.entry.signal == i.entry.signal)
    && (j.handlers ==> i.handlers) && (j.entry.member ==> i.entry.member) && j.late == i.late
    && (!asks && j.entry.done ==> i.entry.done && !relays) && (!relays && i.entry.done ==> j.entry.done)
    && (i.closed ==> j.closed)
  }

  lemma RelayEntry(i: Instance, signal: Signal, probe: bool, complaint: Text)
    requires SignalsSound(i) && i.handlers
    ensures EntryMoves(i, OnRelay(i, signal, probe, complaint), true, !GroupIsAlive(i, probe))
  {
    hide Complain;
  }

  lemma SettleEntry(i: Instance, outcome: Outcome)
    ensures EntryMoves(i, Settle(i, outcome), false, false)
  {
    hide ClearKillTimer;
  }

  lemma TimeoutKillEntry(i: Instance, complaint: Text)
    ensures EntryMoves(i, OnTimeoutKill(i, complaint), false, false)
  {
    hide Settle, Complain, CloseOutcome;
    var j := KillTimerFired(i.(timers := i.timers.(timeoutKillPending := false)), complaint);
    if j.childClosed.Some? {
      SettleEntry(j, CloseOutcome(j, j.childClosed.value));
    }
  }

  lemma CloseEntry(i: Instance, code: Option<int>, probe: bool)
    ensures EntryMoves(i, OnClose(i, code, probe), false, i.parentSignalPending.Some? && !GroupIsAlive(i, probe))
  {
    hide Settle, CloseOutcome, ClearKillTimer;
    SettleEntry(i, CloseOutcome(i, code));
  }

  lemma RunEntry(i: Instance, c: Callback)
    requires Sound(i) && Due(i, c)
    ensures EntryMoves(i, Run(i, c), c.Relay?, Asks(i, c).Some?)
  {
    hide TimersSound, OutputSound, OnRelay, OnTimeoutKill, OnClose, Settle, Complain, AppendBounded, GroupIsAlive;
    match c
    case Relay(signal, probe, complaint) => RelayEntry(i, signal, probe, complaint);
    case TimeoutKill(complaint) => TimeoutKillEntry(i, complaint);
    case Fail => SettleEntry(i, RejectedError);
    case Close(code, probe) => CloseEntry(i, code, probe);
    case _ =>
  }

  // ---------- All instances together ----------

  // `relaying` are the instances whose handler for the signal being delivered has still to run; the
  // event loop runs them one after the other before anything else.
  datatype World = World(
    instances: map<nat, Instance>,
    relaying: seq<nat>,
    delivered: Signal,
    reraised: seq<Signal>)

  const INITIAL := World(map[], [], SIGINT, [])

  predicate SomeSignalled(w: World) {
    exists id | id in w.instances :: w.instances[id].entry.signal.Some?
  }

  predicate Finished(i: Instance) {
    i.entry.member ==> i.entry.signal.Some? && i.entry.done
  }

  // The test of maybeReraiseRunProcessParentSignal over the shared set.
  predicate AllFinished(w: World) {
    forall id | id in w.instances :: Finished(w.instances[id])
  }

  function MaybeReraise(w: World, signal: Option<Signal>): World {
    if signal.Some? && AllFinished(w) then w.(reraised := w.reraised + [signal.value]) else w
  }

  datatype Event =
    | Start(id: nat, hasPid: bool, rejectOnFailure: bool, maxChars: Limit)
    | Arrive(signal: Signal, listeners: seq<nat>)
    | Happen(id: nat, callback: Callback)

  predicate Listening(w: World, id: nat) {
    id in w.instances && w.instances[id].handlers
  }

  ghost predicate Enabled(w: World, e: Event) {
    match e
    case Start(id, _, _, _) => w.relaying == [] && id !in w.instances
    case Arrive(_, listeners) =>
      && w.relaying == [] && listeners != []
      && (forall j, k | 0 <= j < k < |listeners| :: listeners[j] != listeners[k])
      && (forall id :: id in listeners <==> Listening(w, id))
    case Happen(id, c) =>
      && id in w.instances && Due(w.instances[id], c)
      && if w.relaying == [] then !c.Relay? else c.Relay? && c.signal == w.delivered && id == w.relaying[0]
  }

  ghost function Apply(w: World, e: Event): World
    requires Enabled(w, e)
  {
    match e
    case Start(id, hasPid, rejectOnFailure, maxChars) =>
      w.(instances := w.instances[id := Started(hasPid, rejectOnFailure, maxChars, SomeSignalled(w))])
    case Arrive(signal, listeners) => w.(relaying := listeners, delivered := signal)
    case Happen(id, c) => MaybeReraise(Ran(w, id, c), Asks(w.instances[id], c))
  }

  function Ran(w: World, id: nat, c: Callback): World
    requires id in w.instances
  {
    w.(instances := w.instances[id := Run(w.instances[id], c)],
       relaying := if w.relaying == [] then [] else w.relaying[1..])
  }

  // ---------- What every step keeps ----------

  // The instances about to run their handler are exactly those that still listen.
  ghost predicate RelayingSound(w: World) {
    && (forall j, k | 0 <= j < k < |w.relaying| :: w.relaying[j] != w.relaying[k])
    && (forall id | id in w.relaying :: Listening(w, id))
    && (w.relaying != [] ==> forall id | Listening(w, id) :: id in w.relaying)
  }

  // A signal that has been delivered has reached every member of the shared set that was started before.
  ghost predicate Reached(w: World) {
    forall id | id in w.instances && w.instances[id].entry.member ::
      w.instances[id].entry.signal.Some? || w.instances[id].late
  }

  ghost predicate AllSound(w: World) {
    forall id | id in w.instances :: Sound(w.instances[id])
  }

  ghost predicate Invariant(w: World) {
    && AllSound(w)
    && RelayingSound(w)
    && (w.relaying == [] && SomeSignalled(w) ==> Reached(w))
  }

  lemma StartKeepsInvariant(w: World, e: Event)
    requires Invariant(w) && Enabled(w, e) && e.Start?
    ensures Invariant(Apply(w, e))
  {
    var v := Apply(w, e);
    StartSignals(w, e);
    forall id | SomeSignalled(v) && id in v.instances && v.instances[id].entry.member
      ensures v.instances[id].entry.signal.Some? || v.instances[id].late
    {
      assert id != e.id ==> v.instances[id] == w.instances[id];
    }
  }

  lemma StartSignals(w: World, e: Event)
    requires Enabled(w, e) && e.Start?
    ensures SomeSignalled(Apply(w, e)) == SomeSignalled(w)
  {
    var v := Apply(w, e);
    if SomeSignalled(w) {
      var id :| id in w.instances && w.instances[id].entry.signal.Some?;
      assert v.instances[id] == w.instances[id];
    }
    if SomeSignalled(v) {
      var id :| id in v.instances && v.instances[id].entry.signal.Some?;
      assert v.instances[id] == w.instances[id];
    }
  }

  lemma ArriveKeepsInvariant(w: World, e: Event)
    requires Invariant(w) && Enabled(w, e) && e.Arrive?
    ensures Invariant(Apply(w, e))
  {
    var v := Apply(w, e);
    assert forall id :: Listening(v, id) <==> Listening(w, id);
  }

  lemma RanKeepsSound(w: World, id: nat, c: Callback)
    requires AllSound(w) && id in w.instances && Due(w.instances[id], c)
    ensures AllSound(Ran(w, id, c))
  {
    RunSound(w.instances[id], c);
    hide Sound, Run;
  }

  lemma RanKeepsRelaying(w: World, id: nat, c: Callback)
    requires AllSound(w) && RelayingSound(w) && Enabled(w, Happen(id, c))
    ensures RelayingSound(Ran(w, id, c))
  {
    RunEntry(w.instances[id], c);
    hide Run, Sound;
    var v := Ran(w, id, c);
    assert forall k | 0 <= k < |v.relaying| :: v.relaying[k] == w.relaying[k + 1];
    forall x | x in v.relaying ensures Listening(v, x) && x != id {
      assert x in w.relaying;
    }
    forall x | v.relaying != [] && Listening(v, x) ensures x in v.relaying {
      assert Listening(w, x) && x != id;
      assert x in w.relaying;
    }
  }

  lemma RanKeepsReached(w: World, id: nat, c: Callback)
    requires Invariant(w) && Enabled(w, Happen(id, c))
    requires Ran(w, id, c).relaying == [] && SomeSignalled(Ran(w, id, c))
    ensures Reached(Ran(w, id, c))
  {
    hide Reached, Run, Sound, Due, SomeSignalled;
    if w.relaying == [] {
      SameSignals(w, id, c);
      QuietlyReached(w, id, c);
    } else {
      LastIsReached(w, id, c);
    }
  }

  lemma QuietlyReached(w: World, id: nat, c: Callback)
    requires AllSound(w) && Reached(w) && Enabled(w, Happen(id, c)) && w.relaying == []
    ensures Reached(Ran(w, id, c))
  {
    RunEntry(w.instances[id], c);
    hide Run, Sound, Due;
    var v := Ran(w, id, c);
    forall x | x in v.instances && v.instances[x].entry.member
      ensures v.instances[x].entry.signal.Some? || v.instances[x].late
    {
      assert x in w.instances && (x != id ==> v.instances[x] == w.instances[x]);
    }
  }

  lemma LastIsReached(w: World, id: nat, c: Callback)
    requires Invariant(w) && Enabled(w, Happen(id, c)) && |w.relaying| == 1
    ensures Reached(Ran(w, id, c))
  {
    RunEntry(w.instances[id], c);
    RanKeepsSound(w, id, c);
    hide Run, Sound, Due;
    var v := Ran(w, id, c);
    assert w.relaying == [id];
    assert forall x :: Listening(w, x) ==> x == id;
    forall x | x in v.instances && v.instances[x].entry.member
      ensures v.instances[x].entry.signal.Some?
    {
      MemberListensOrIsSignalled(v, x);
      assert Listening(v, x) ==> Listening(w, x);
    }
  }

  lemma MemberListensOrIsSignalled(w: World, id: nat)
    requires AllSound(w) && id in w.instances && w.instances[id].entry.member
    ensures w.instances[id].entry.signal.Some? || Listening(w, id)
  {
    assert Sound(w.instances[id]);
  }

  lemma SameSignals(w: World, id: nat, c: Callback)
    requires AllSound(w) && Enabled(w, Happen(id, c)) && !c.Relay?
    ensures SomeSignalled(Ran(w, id, c)) ==> SomeSignalled(w)
  {
    RunEntry(w.instances[id], c);
    hide Run, Sound;
    var v := Ran(w, id, c);
    if SomeSignalled(v) {
      var x :| x in v.instances && v.instances[x].entry.signal.Some?;
      assert w.instances[x].entry.signal.Some?;
    }
  }

  lemma StepKeepsInvariant(w: World, e: Event)
    requires Invariant(w) && Enabled(w, e)
    ensures Invariant(Apply(w, e))
  {
    hide Invariant, Apply, Enabled;
    match e
    case Start(_, _, _, _) => StartKeepsInvariant(w, e);
    case Arrive(_, _) => ArriveKeepsInvariant(w, e);
    case Happen(id, c) => HappenKeepsInvariant(w, id, c);
  }

  lemma HappenKeepsInvariant(w: World, id: nat, c: Callback)
    requires Invariant(w) && Enabled(w, Happen(id, c))
    ensures Invariant(Apply(w, Happen(id, c)))
  {
    RanKeepsSound(w, id, c);
    RanKeepsRelaying(w, id, c);
    var v := Ran(w, id, c);
    if v.relaying == [] && SomeSignalled(v) {
      RanKeepsReached(w, id, c);
    }
    ReraiseChangesNothingElse(v, Asks(w.instances[id], c));
    hide Run, Asks, AllSound, RelayingSound, SomeSignalled, Reached;
  }

  lemma ReraiseChangesNothingElse(w: World, signal: Option<Signal>)
    ensures var v := MaybeReraise(w, signal);
            && v.instances == w.instances && v.relaying == w.relaying
            && (AllSound(w) ==> AllSound(v)) && (RelayingSound(w) ==> RelayingSound(v))
            && SomeSignalled(v) == SomeSignalled(w) && AllFinished(v) == AllFinished(w) && Reached(v) == Reached(w)
            && v.reraised == (if signal.Some? && AllFinished(w) then w.reraised + [signal.value] else w.reraised)
  {
    hide Sound, Finished;
    var v := MaybeReraise(w, signal);
    assert forall id :: Listening(v, id) == Listening(w, id);
  }

  // ---------- Whole runs ----------

  // The worlds of a run: the first is empty and each event leads from one to the next.
  ghost predicate IsRun(worlds: seq<World>, events: seq<Event>) {
    && |worlds| == |events| + 1
    && worlds[0] == INITIAL
    && forall k | 0 <= k < |events| :: Enabled(worlds[k], events[k]) && worlds[k + 1] == Apply(worlds[k], events[k])
  }

  lemma {:induction false} RunKeepsInvariant(worlds: seq<World>, events: seq<Event>, k: nat)
    requires IsRun(worlds, events) && k < |worlds|
    ensures Invariant(worlds[k])
  {
    if k > 0 {
      RunKeepsInvariant(worlds, events, k - 1);
      StepKeepsInvariant(worlds[k - 1], events[k - 1]);
    }
  }

  // Nothing but a dead or killed process group stands behind a re-raise, and no instance listens to the
  // signal any more, so raising it ends the process.
  ghost predicate SafeToReraise(w: World) {
    forall id | id in w.instances ::
      var i := w.instances[id];
      !i.handlers && (i.entry.member ==> i.seenDead || i.killSent)
  }

  lemma ReraiseIsSafe(worlds: seq<World>, events: seq<Event>, k: nat)
    requires IsRun(worlds, events) && k < |events|
    requires worlds[k + 1].reraised != worlds[k].reraised
    ensures SafeToReraise(worlds[k + 1])
  {
    RunKeepsInvariant(worlds, events, k + 1);
    var v := worlds[k + 1];
    FinishedIsSafe(v);
    ReraiseMeansFinished(worlds[k], events[k]);
  }

  lemma ReraiseMeansFinished(w: World, e: Event)
    requires Enabled(w, e) && Apply(w, e).reraised != w.reraised
    ensures AllFinished(Apply(w, e))
  {
    hide Run, Asks, Finished;
  }

  lemma FinishedIsSafe(w: World)
    requires AllSound(w) && AllFinished(w)
    ensures SafeToReraise(w)
  {
    forall id | id in w.instances ensures var i := w.instances[id];
        !i.handlers && (i.entry.member ==> i.seenDead || i.killSent)
    {
      assert Sound(w.instances[id]) && Finished(w.instances[id]);
    }
  }

  // ---------- When a signal is raised again ----------

  // Every instance that received a signal has been dealt with.
  ghost predicate SignalledAreDone(w: World) {
    forall id | id in w.instances && w.instances[id].entry.signal.Some? :: w.instances[id].entry.done
  }

  // A member of the shared set that was started after the signal and has not received one itself.
  ghost predicate HasLateMember(w: World) {
    exists id :: id in w.instances && w.instances[id].entry.member && w.instances[id].late
                 && w.instances[id].entry.signal.None?
  }

  lemma FinishedMeaning(w: World)
    requires Invariant(w) && SomeSignalled(w)
    ensures AllFinished(w) <==> w.relaying == [] && SignalledAreDone(w) && !HasLateMember(w)
  {
    if AllFinished(w) {
      forall id | id in w.instances ensures !Listening(w, id) {
        FinishedEntry(w, id);
      }
      assert w.relaying != [] ==> Listening(w, w.relaying[0]);
      forall id | id in w.instances && w.instances[id].entry.signal.Some? ensures w.instances[id].entry.done {
        FinishedEntry(w, id);
      }
      forall id | id in w.instances ensures Finished(w.instances[id]) {
      }
    }
    hide Sound;
  }

  lemma FinishedEntry(w: World, id: nat)
    requires AllSound(w) && AllFinished(w) && id in w.instances
    ensures !Listening(w, id) && (w.instances[id].entry.signal.Some? ==> w.instances[id].entry.done)
  {
    assert Sound(w.instances[id]) && Finished(w.instances[id]);
  }

  // The k-th event is a callback that asks for the re-raise when every signalled instance is done.
  ghost predicate Completes(worlds: seq<World>, events: seq<Event>, k: nat)
    requires |worlds| == |events| + 1
  {
    && k < |events| && AsksNow(worlds[k], events[k])
    && worlds[k + 1].relaying == [] && SignalledAreDone(worlds[k + 1])
  }

  ghost predicate AsksNow(w: World, e: Event) {
    e.Happen? && e.id in w.instances && Asks(w.instances[e.id], e.callback).Some?
  }

  lemma AskingIsSignalled(w: World, e: Event)
    requires Invariant(w) && Enabled(w, e) && AsksNow(w, e)
    ensures SomeSignalled(Apply(w, e))
  {
    var i := w.instances[e.id];
    assert Sound(i);
    RunEntry(i, e.callback);
    ReraiseChangesNothingElse(Ran(w, e.id, e.callback), Asks(i, e.callback));
    assert Run(i, e.callback).entry.signal.Some?;
    hide Run, Sound, Asks, MaybeReraise;
    assert Apply(w, e).instances[e.id] == Run(i, e.callback);
  }

  // What one event does to the signals raised again.
  lemma StepRaises(w: World, e: Event)
    requires Invariant(w) && Enabled(w, e)
    ensures Apply(w, e).reraised != w.reraised
       <==> AsksNow(w, e) && Apply(w, e).relaying == [] && SignalledAreDone(Apply(w, e)) && !HasLateMember(Apply(w, e))
    ensures w.reraised <= Apply(w, e).reraised
  {
    var v := Apply(w, e);
    StepKeepsInvariant(w, e);
    if e.Happen? {
      ReraiseChangesNothingElse(Ran(w, e.id, e.callback), Asks(w.instances[e.id], e.callback));
    }
    if AsksNow(w, e) {
      AskingIsSignalled(w, e);
      FinishedMeaning(v);
    }
    hide Run, Ran, Asks, Invariant, AllFinished, SignalledAreDone, HasLateMember, MaybeReraise;
  }

  // Once the last signalled instance is done, the callback that dealt with it has asked for the re-raise.
  lemma {:induction false} DoneMeansAsked(worlds: seq<World>, events: seq<Event>, n: nat) returns (k: nat)
    requires IsRun(worlds, events) && n < |worlds|
    requires SomeSignalled(worlds[n]) && worlds[n].relaying == [] && SignalledAreDone(worlds[n])
    ensures k < n && Completes(worlds, events, k)
    decreases n
  {
    hide Completes, Enabled, Apply, SignalledAreDone;
    InitialIsNotSignalled(worlds, events);
    var w, e := worlds[n - 1], events[n - 1];
    CompletesIs(worlds, events, n - 1);
    if AsksNow(w, e) {
      return n - 1;
    }
    RunKeepsInvariant(worlds, events, n - 1);
    DoneBefore(w, e);
    k := DoneMeansAsked(worlds, events, n - 1);
  }

  lemma InitialIsNotSignalled(worlds: seq<World>, events: seq<Event>)
    requires IsRun(worlds, events)
    ensures !SomeSignalled(worlds[0])
  {
  }

  lemma DoneBefore(w: World, e: Event)
    requires Invariant(w) && Enabled(w, e) && !AsksNow(w, e)
    requires SomeSignalled(Apply(w, e)) && Apply(w, e).relaying == [] && SignalledAreDone(Apply(w, e))
    ensures SomeSignalled(w) && w.relaying == [] && SignalledAreDone(w)
  {
    var v := Apply(w, e);
    match e
    case Start(id, _, _, _) =>
      StartSignals(w, e);
      assert forall x | x in w.instances :: v.instances[x] == w.instances[x];
    case Arrive(_, _) =>
    case Happen(id, c) => HappenDoneBefore(w, id, c);
  }

  lemma HappenDoneBefore(w: World, id: nat, c: Callback)
    requires Invariant(w) && Enabled(w, Happen(id, c)) && Asks(w.instances[id], c).None?
    requires var v := Ran(w, id, c); SomeSignalled(v) && v.relaying == [] && SignalledAreDone(v)
    ensures SomeSignalled(w) && w.relaying == [] && SignalledAreDone(w)
  {
    NotARelay(w, id, c);
    SameSignals(w, id, c);
    RunEntry(w.instances[id], c);
    hide Run, Sound, Due, Asks, SomeSignalled, SignalledAreDone, RelayingSound, Reached, EntryMoves;
    DoneElsewhere(w, Ran(w, id, c), id);
  }

  lemma DoneElsewhere(w: World, v: World, id: nat)
    requires id in w.instances && id in v.instances && v.instances == w.instances[id := v.instances[id]]
    requires EntryMoves(w.instances[id], v.instances[id], false, false) && SignalledAreDone(v)
    ensures SignalledAreDone(w)
  {
    forall x | x in w.instances && w.instances[x].entry.signal.Some? ensures w.instances[x].entry.done {
      assert x in v.instances && v.instances[x].entry.done;
    }
  }

  // A handler that finds its child alive leaves a signalled instance that is not done.
  lemma NotARelay(w: World, id: nat, c: Callback)
    requires AllSound(w) && Enabled(w, Happen(id, c)) && Asks(w.instances[id], c).None?
    requires SignalledAreDone(Ran(w, id, c))
    ensures !c.Relay? && w.relaying == []
  {
    RunEntry(w.instances[id], c);
    hide Run, Sound, Due, Asks;
    var v := Ran(w, id, c);
    assert id in v.instances && v.instances[id] == Run(w.instances[id], c);
  }

  // The exact condition, at every moment of every run: no signal has been raised again exactly when each
  // callback that asked for it with every signalled instance done found a late member in the shared set.
  lemma {:induction false} NeverRaisedExactly(worlds: seq<World>, events: seq<Event>, n: nat)
    requires IsRun(worlds, events) && n < |worlds|
    ensures worlds[n].reraised == [] <==>
              forall k | 0 <= k < n && Completes(worlds, events, k) :: HasLateMember(worlds[k + 1])
  {
    hide Completes, Enabled, Apply, SignalledAreDone, HasLateMember, Invariant;
    if n > 0 {
      NeverRaisedExactly(worlds, events, n - 1);
      RunKeepsInvariant(worlds, events, n - 1);
      StepRaises(worlds[n - 1], events[n - 1]);
      CompletesIs(worlds, events, n - 1);
    }
  }

  lemma CompletesIs(worlds: seq<World>, events: seq<Event>, k: nat)
    requires |worlds| == |events| + 1 && k < |events|
    ensures Completes(worlds, events, k) <==>
              AsksNow(worlds[k], events[k]) && worlds[k + 1].relaying == [] && SignalledAreDone(worlds[k + 1])
  {
  }

  ghost predicate NobodyIsLate(w: World) {
    forall id | id in w.instances :: !w.instances[id].late
  }

  // When no instance starts after a signal, the signal is raised again once all members are done; and
  // until then every signalled instance that is not done has its kill timer running.
  lemma SignalIsReraised(worlds: seq<World>, events: seq<Event>, n: nat)
    requires IsRun(worlds, events) && n < |worlds|
    ensures var w := worlds[n];
            && (NobodyIsLate(w) && SomeSignalled(w) && AllFinished(w) ==> w.reraised != [])
            && (forall id | id in w.instances && w.instances[id].entry.signal.Some? && !w.instances[id].entry.done ::
                  w.instances[id].timers.signalKillPending == w.instances[id].entry.signal)
  {
    RunKeepsInvariant(worlds, events, n);
    var w := worlds[n];
    forall id | id in w.instances && w.instances[id].entry.signal.Some? && !w.instances[id].entry.done
      ensures w.instances[id].timers.signalKillPending == w.instances[id].entry.signal
    {
      assert Sound(w.instances[id]);
    }
    if NobodyIsLate(w) && SomeSignalled(w) && AllFinished(w) {
      FinishedMeaning(w);
      var k := DoneMeansAsked(worlds, events, n);
      NeverRaisedExactly(worlds, events, n);
      NobodyWasLate(worlds, events, k + 1, n);
      hide Completes, Invariant, IsRun;
      assert !HasLateMember(worlds[k + 1]);
    }
  }

  lemma {:induction false} NobodyWasLate(worlds: seq<World>, events: seq<Event>, j: nat, n: nat)
    requires IsRun(worlds, events) && j <= n < |worlds| && NobodyIsLate(worlds[n])
    ensures NobodyIsLate(worlds[j])
    decreases n
  {
    hide NobodyIsLate, Invariant, Enabled, Apply;
    if j < n {
      RunKeepsInvariant(worlds, events, n - 1);
      LateStays(worlds[n - 1], events[n - 1]);
      NobodyWasLate(worlds, events, j, n - 1);
    }
  }

  lemma LateStays(w: World, e: Event)
    requires Invariant(w) && Enabled(w, e) && NobodyIsLate(Apply(w, e))
    ensures NobodyIsLate(w)
  {
    if e.Happen? {
      assert Sound(w.instances[e.id]);
      RunEntry(w.instances[e.id], e.callback);
    }
    hide Run, Sound, Asks, AllFinished, Due;
    forall id | id in w.instances ensures !w.instances[id].late {
      assert id in Apply(w, e).instances && Apply(w, e).instances[id].late == w.instances[id].late;
    }
  }

  // ---------- When a signal is lost for good ----------

  // Nobody is left who could ask: every signalled child has been closed.
  ghost predicate Quiet(w: World) {
    forall id | id in w.instances && w.instances[id].entry.signal.Some? :: w.instances[id].closed
  }

  // Everything is over and the signal has not been raised again.
  ghost predicate Lost(w: World) {
    SomeSignalled(w) && AllFinished(w) && Quiet(w) && w.reraised == []
  }

  // A signal is lost exactly when each callback that completed the signalled instances came while a late
  // member was still there; and there is such a callback in every run that is over.
  lemma SignalIsLostExactly(worlds: seq<World>, events: seq<Event>, n: nat)
    requires IsRun(worlds, events) && n < |worlds|
    requires SomeSignalled(worlds[n]) && AllFinished(worlds[n]) && Quiet(worlds[n])
    ensures Lost(worlds[n]) <==>
              forall k | 0 <= k < n && Completes(worlds, events, k) :: HasLateMember(worlds[k + 1])
    ensures exists k | 0 <= k < n :: Completes(worlds, events, k)
  {
    hide Completes, HasLateMember;
    NeverRaisedExactly(worlds, events, n);
    RunKeepsInvariant(worlds, events, n);
    FinishedMeaning(worlds[n]);
    var k := DoneMeansAsked(worlds, events, n);
  }

  // While a signalled child has not been closed, its close event can still raise the signal; once all of
  // them have been, no event but a start of another instance can.
  lemma OnlyQuietIsFinal(w: World)
    requires Invariant(w) && SomeSignalled(w) && AllFinished(w)
    ensures Quiet(w) <==> forall e | Enabled(w, e) && !e.Start? :: Apply(w, e).reraised == w.reraised
  {
    if Quiet(w) {
      forall e | Enabled(w, e) && !e.Start? ensures Apply(w, e).reraised == w.reraised {
        QuietStays(w, e);
      }
    } else {
      var id :| id in w.instances && w.instances[id].entry.signal.Some? && !w.instances[id].closed;
      CloseRaises(w, id);
    }
  }

  lemma CloseRaises(w: World, id: nat)
    requires Invariant(w) && AllFinished(w)
    requires id in w.instances && w.instances[id].entry.signal.Some? && !w.instances[id].closed
    ensures var e := Happen(id, Close(None, false)); Enabled(w, e) && Apply(w, e).reraised != w.reraised
  {
    var i, c := w.instances[id], Close(None, false);
    assert Sound(i) && Finished(i);
    FinishedMeaning(w);
    assert Run(i, c).entry.done && Asks(i, c).Some?;
    assert AllFinished(Ran(w, id, c));
    ReraiseChangesNothingElse(Ran(w, id, c), Asks(i, c));
  }

  lemma QuietStays(w: World, e: Event)
    requires Invariant(w) && SomeSignalled(w) && AllFinished(w) && Quiet(w) && Enabled(w, e) && !e.Start?
    ensures Apply(w, e).reraised == w.reraised
    ensures SomeSignalled(Apply(w, e)) && AllFinished(Apply(w, e)) && Quiet(Apply(w, e))
  {
    FinishedMeaning(w);
    match e
    case Arrive(_, listeners) =>
      assert listeners[0] in listeners && Listening(w, listeners[0]);
      FinishedEntry(w, listeners[0]);
    case Happen(id, c) =>
      HappenStaysQuiet(w, id, c);
      QuietAsksNothing(w.instances[id], c);
      hide Run, Asks, AllFinished, Quiet, SomeSignalled;
  }

  lemma HappenStaysQuiet(w: World, id: nat, c: Callback)
    requires Invariant(w) && AllFinished(w) && Quiet(w) && Enabled(w, Happen(id, c)) && w.relaying == []
    requires SomeSignalled(w)
    ensures SomeSignalled(Ran(w, id, c)) && AllFinished(Ran(w, id, c)) && Quiet(Ran(w, id, c))
    ensures Sound(w.instances[id]) && Due(w.instances[id], c) && !c.Relay?
    ensures w.instances[id].entry.signal.Some? ==> w.instances[id].closed && w.instances[id].entry.done
  {
    FinishedEntry(w, id);
    assert Sound(w.instances[id]) && Finished(w.instances[id]);
    RunEntry(w.instances[id], c);
    hide Run, Sound, Due, RelayingSound, Reached, AllSound;
    QuietElsewhere(w, Ran(w, id, c), id);
  }

  lemma QuietElsewhere(w: World, v: World, id: nat)
    requires id in w.instances && id in v.instances && v.instances == w.instances[id := v.instances[id]]
    requires EntryMoves(w.instances[id], v.instances[id], false, false)
    requires SomeSignalled(w) && AllFinished(w) && Quiet(w)
    requires w.instances[id].entry.signal.Some? ==> w.instances[id].entry.done
    ensures SomeSignalled(v) && AllFinished(v) && Quiet(v)
  {
    assert forall x | x in v.instances :: x in w.instances && (x != id ==> v.instances[x] == w.instances[x]);
    assert Finished(w.instances[id]);
    var x :| x in w.instances && w.instances[x].entry.signal.Some?;
    assert x in v.instances && v.instances[x].entry.signal.Some?;
  }

  lemma QuietAsksNothing(i: Instance, c: Callback)
    requires Sound(i) && Due(i, c) && !c.Relay? && (i.entry.signal.Some? ==> i.closed && i.entry.done)
    ensures Asks(i, c).None?
  {
    hide Captures;
  }

  // Lost is lost: whatever happens later, short of the start of another instance, raises nothing.
  lemma {:induction false} LostForGood(worlds: seq<World>, events: seq<Event>, j: nat, n: nat)
    requires IsRun(worlds, events) && j <= n < |worlds| && Lost(worlds[j])
    requires forall k | j <= k < n :: !events[k].Start?
    ensures Lost(worlds[n])
    decreases n
  {
    if j < n {
      LostForGood(worlds, events, j, n - 1);
      RunKeepsInvariant(worlds, events, n - 1);
      hide Invariant, SomeSignalled, AllFinished, Quiet, Enabled, Apply;
      QuietStays(worlds[n - 1], events[n - 1]);
    }
  }

  // ---------- Settling ----------

  // A promise is settled once and for all.
  lemma OutcomeIsFinal(w: World, e: Event, id: nat)
    requires Enabled(w, e) && id in w.instances && w.instances[id].outcome.Some?
    ensures id in Apply(w, e).instances && Apply(w, e).instances[id].outcome == w.instances[id].outcome
  {
    if e.Happen? && e.id == id {
      RunKeepsOutcome(w.instances[id], e.callback);
    }
    hide Run, Asks, AllFinished;
  }

  lemma SettleSettles(i: Instance, outcome: Outcome)
    ensures Settle(i, outcome).outcome == if i.outcome.Some? then i.outcome else Some(outcome)
  {
    hide ClearKillTimer;
  }

  lemma SignalsDoNotSettle(i: Instance, signal: Signal, probe: bool, complaint: Text)
    ensures OnRelay(i, signal, probe, complaint).outcome == i.outcome == OnSignalKill(i, complaint).outcome
  {
    hide Complain, ClearKillTimer, GroupIsAlive;
  }

  // Only the timeout's kill timer and the child's own events settle.
  lemma OthersDoNotSettle(i: Instance, c: Callback)
    requires !c.TimeoutKill? && !c.Fail? && !c.Close?
    ensures Run(i, c).outcome == i.outcome
  {
    hide Complain, ScheduleKill, AppendBounded, OnRelay, OnSignalKill;
    match c
    case Relay(signal, probe, complaint) => SignalsDoNotSettle(i, signal, probe, complaint);
    case SignalKill(complaint) => SignalsDoNotSettle(i, SIGINT, false, complaint);
    case _ =>
  }

  function Killed(i: Instance, complaint: Text): Instance {
    KillTimerFired(i.(timers := i.timers.(timeoutKillPending := false)), complaint)
  }

  lemma TimeoutKillSettles(i: Instance, complaint: Text)
    ensures Killed(i, complaint).output.stdout == i.output.stdout
    ensures OnTimeoutKill(i, complaint).outcome ==
              if i.outcome.None? && i.childClosed.Some? then Some(CloseOutcome(Killed(i, complaint), i.childClosed.value))
              else i.outcome
  {
    hide AppendBounded, CloseOutcome, Settle;
    var j := Killed(i, complaint);
    if j.childClosed.Some? {
      SettleSettles(j, CloseOutcome(j, j.childClosed.value));
    }
  }

  lemma CloseSettles(i: Instance, code: Option<int>, probe: bool)
    ensures var o := OnClose(i, code, probe).outcome;
            o == i.outcome || (i.outcome.None? && o == Some(CloseOutcome(i, code)))
  {
    SettleSettles(i, CloseOutcome(i, code));
    hide ClearKillTimer, CloseOutcome, Settle, GroupIsAlive;
    if i.parentSignalPending.None? && !(i.timers.waitingForKillGrace && GroupIsAlive(i, probe)) {
      assert OnClose(i, code, probe) == Settle(i, CloseOutcome(i, code));
    } else {
      assert OnClose(i, code, probe).outcome == i.outcome;
    }
    hide OnClose;
  }

  lemma RunKeepsOutcome(i: Instance, c: Callback)
    requires i.outcome.Some?
    ensures Run(i, c).outcome == i.outcome
  {
    match c
    case TimeoutKill(complaint) =>
      TimeoutKillSettles(i, complaint);
      hide OnTimeoutKill, CloseOutcome, Killed;
    case Close(code, probe) =>
      CloseSettles(i, code, probe);
      hide OnClose, CloseOutcome;
    case Fail =>
      SettleSettles(i, RejectedError);
      hide Settle;
    case _ =>
      OthersDoNotSettle(i, c);
      hide Run;
  }

  lemma {:induction false} OutcomeStays(worlds: seq<World>, events: seq<Event>, j: nat, k: nat, id: nat)
    requires IsRun(worlds, events) && j <= k < |worlds|
    requires id in worlds[j].instances && worlds[j].instances[id].outcome.Some?
    ensures id in worlds[k].instances && worlds[k].instances[id].outcome == worlds[j].instances[id].outcome
    decreases k
  {
    if j < k {
      OutcomeStays(worlds, events, j, k - 1, id);
      OutcomeIsFinal(worlds[k - 1], events[k - 1], id);
    }
  }

  // A run that succeeds with exit code 0 delivers everything the child had written to stdout.
  lemma SuccessIsComplete(i: Instance, c: Callback)
    requires Sound(i) && Due(i, c) && i.outcome.None?
    ensures var r := Run(i, c).outcome;
            r.Some? && r.value.Resolved? && r.value.code == 0 ==> r.value.stdout == i.output.written
  {
    SuccessIsCapture(i, c);
    hide Run, SignalsSound, TimersSound, Due;
    assert i.output.written[0..] == i.output.written;
  }

  lemma WholeOutcome(i: Instance, code: Option<int>)
    ensures var r := CloseOutcome(i, code);
            r.Resolved? && r.code == 0 ==> i.output.stdout.truncatedChars == 0 && r.stdout == i.output.stdout.text
  {
  }

  lemma SuccessIsCapture(i: Instance, c: Callback)
    requires i.outcome.None?
    ensures var r := Run(i, c).outcome;
            r.Some? && r.value.Resolved? && r.value.code == 0 ==>
              i.output.stdout.truncatedChars == 0 && r.value.stdout == i.output.stdout.text
  {
    match c
    case TimeoutKill(complaint) =>
      TimeoutKillSettles(i, complaint);
      if i.childClosed.Some? {
        WholeOutcome(Killed(i, complaint), i.childClosed.value);
      }
      hide OnTimeoutKill, CloseOutcome, Killed;
    case Close(code, probe) =>
      CloseSettles(i, code, probe);
      WholeOutcome(i, code);
      hide OnClose, CloseOutcome;
    case Fail =>
      SettleSettles(i, RejectedError);
      hide Settle;
    case _ =>
      OthersDoNotSettle(i, c);
      hide Run;
  }

  lemma SuccessDeliversOutput(worlds: seq<World>, events: seq<Event>, k: nat, id: nat)
    requires IsRun(worlds, events) && k < |events|
    requires id in worlds[k].instances && worlds[k].instances[id].outcome.None?
    requires id in worlds[k + 1].instances && worlds[k + 1].instances[id].outcome.Some?
    requires worlds[k + 1].instances[id].outcome.value.Resolved?
    requires worlds[k + 1].instances[id].outcome.value.code == 0
    ensures worlds[k + 1].instances[id].outcome.value.stdout == worlds[k].instances[id].output.written
  {
    RunKeepsInvariant(worlds, events, k);
    var i := worlds[k].instances[id];
    assert Sound(i);
    OnlyItsOwnEvent(worlds[k], events[k], id);
    SuccessIsComplete(i, events[k].callback);
  }

  lemma OnlyItsOwnEvent(w: World, e: Event, id: nat)
    requires Enabled(w, e) && id in w.instances && Apply(w, e).instances[id] != w.instances[id]
    ensures e.Happen? && e.id == id && Due(w.instances[id], e.callback)
    ensures Apply(w, e).instances[id] == Run(w.instances[id], e.callback)
  {
    hide Run, Asks, AllFinished;
  }

  // ---------- How a call settles, in terms of its events ----------

  predicate IsOf(e: Event, id: nat) {
    e.Happen? && e.id == id
  }

  // Among the first k events, the timeout of the instance has run.
  ghost predicate TimedOutBefore(events: seq<Event>, k: nat, id: nat)
    requires k <= |events|
  {
    exists j | 0 <= j < k :: IsOf(events[j], id) && events[j].callback.Timeout?
  }

  ghost predicate ClosedBefore(events: seq<Event>, k: nat, id: nat)
    requires k <= |events|
  {
    exists j | 0 <= j < k :: IsOf(events[j], id) && events[j].callback.Close?
  }

  ghost predicate ClosedWith(events: seq<Event>, k: nat, id: nat, code: Option<int>)
    requires k <= |events|
  {
    exists j | 0 <= j < k ::
      IsOf(events[j], id) && events[j].callback.Close? && events[j].callback.code == code
  }

  ghost predicate StartedWith(events: seq<Event>, k: nat, id: nat, rejectOnFailure: bool, maxChars: Limit)
    requires k <= |events|
  {
    exists j | 0 <= j < k ::
      && events[j].Start? && events[j].id == id
      && events[j].rejectOnFailure == rejectOnFailure && events[j].maxChars == maxChars
  }

  // What the instance's child has written to stdout in the first k events.
  function StdoutOf(events: seq<Event>, k: nat, id: nat): Text
    requires k <= |events|
  {
    if k == 0 then []
    else
      var e := events[k - 1];
      StdoutOf(events, k - 1, id)
      + (if IsOf(e, id) && e.callback.Data? && e.callback.onStdout then e.callback.chunk else [])
  }

  // What an instance remembers of its events.
  ghost predicate Remembers(events: seq<Event>, k: nat, id: nat, i: Instance)
    requires k <= |events|
  {
    && StartedWith(events, k, id, i.rejectOnFailure, i.output.maxChars)
    && (i.timedOut <==> TimedOutBefore(events, k, id))
    && (i.closed <==> ClosedBefore(events, k, id))
    && (i.childClosed.Some? ==> ClosedWith(events, k, id, i.childClosed.value))
    && i.output.written == StdoutOf(events, k, id)
  }

  // No event of an instance comes before its start.
  ghost predicate IsNew(events: seq<Event>, k: nat, id: nat)
    requires k <= |events|
  {
    forall j | 0 <= j < k :: !IsOf(events[j], id)
  }

  // What one callback does to that memory.
  ghost predicate MemoryMoves(i: Instance, j: Instance, c: Callback) {
    && j.rejectOnFailure == i.rejectOnFailure && j.output.maxChars == i.output.maxChars
    && (j.timedOut <==> i.timedOut || c.Timeout?)
    && (j.closed <==> i.closed || c.Close?)
    && (j.childClosed == i.childClosed || (c.Close? && j.childClosed == Some(c.code)))
    && j.output.written == i.output.written + (if c.Data? && c.onStdout then c.chunk else [])
  }

  lemma SettleMemory(i: Instance, outcome: Outcome)
    ensures var j := Settle(i, outcome);
            && j.rejectOnFailure == i.rejectOnFailure && j.output == i.output && j.timedOut == i.timedOut
            && j.closed == i.closed && j.childClosed == i.childClosed
  {
    hide ClearKillTimer;
  }

  lemma RelayMemory(i: Instance, signal: Signal, probe: bool, complaint: Text)
    ensures MemoryMoves(i, OnRelay(i, signal, probe, complaint), Relay(signal, probe, complaint))
  {
    hide AppendBounded, ClearKillTimer, GroupIsAlive;
    assert i.output.written + [] == i.output.written;
  }

  lemma DataMemory(i: Instance, onStdout: bool, chunk: Text)
    ensures MemoryMoves(i, OnData(i, onStdout, chunk), Data(onStdout, chunk))
  {
    hide AppendBounded;
    assert i.output.written + [] == i.output.written;
  }

  lemma TimeoutMemory(i: Instance, complaint: Text)
    ensures MemoryMoves(i, OnTimeout(i, complaint), Timeout(complaint))
  {
    hide AppendBounded, ScheduleKill;
    assert i.output.written + [] == i.output.written;
  }

  lemma SignalKillMemory(i: Instance, complaint: Text)
    ensures MemoryMoves(i, OnSignalKill(i, complaint), SignalKill(complaint))
  {
    hide AppendBounded;
    assert i.output.written + [] == i.output.written;
  }

  // What a callback that writes nothing keeps.
  ghost predicate SameMemory(i: Instance, j: Instance) {
    && j.rejectOnFailure == i.rejectOnFailure && j.output.maxChars == i.output.maxChars
    && j.timedOut == i.timedOut && j.closed == i.closed && j.childClosed == i.childClosed
    && j.output.written == i.output.written
  }

  lemma KilledMemory(i: Instance, complaint: Text)
    ensures SameMemory(i, Killed(i, complaint))
  {
    hide AppendBounded;
  }

  lemma TimeoutKillMemory(i: Instance, complaint: Text)
    ensures MemoryMoves(i, OnTimeoutKill(i, complaint), TimeoutKill(complaint))
  {
    var j := Killed(i, complaint);
    KilledMemory(i, complaint);
    if j.childClosed.Some? {
      SettleMemory(j, CloseOutcome(j, j.childClosed.value));
    }
    assert OnTimeoutKill(i, complaint) == j || OnTimeoutKill(i, complaint) == FinishClose(j, j.childClosed.value);
    hide OnTimeoutKill, Killed, Settle, CloseOutcome, KillTimerFired;
    assert i.output.written + [] == i.output.written;
  }

  lemma SignalledCloseMemory(i: Instance, code: Option<int>, probe: bool)
    requires i.parentSignalPending.Some? && !GroupIsAlive(i, probe)
    ensures SameMemory(i, OnClose(i, code, probe))
  {
    hide ClearKillTimer, FinishClose, GroupIsAlive;
  }

  lemma StoredCloseMemory(i: Instance, code: Option<int>, probe: bool)
    requires GroupIsAlive(i, probe) && (i.parentSignalPending.Some? || i.timers.waitingForKillGrace)
    ensures OnClose(i, code, probe) == i.(childClosed := Some(code))
  {
    hide ClearKillTimer, FinishClose, GroupIsAlive;
  }

  lemma PlainCloseMemory(i: Instance, code: Option<int>, probe: bool)
    requires i.parentSignalPending.None? && !(i.timers.waitingForKillGrace && GroupIsAlive(i, probe))
    ensures SameMemory(i, OnClose(i, code, probe))
  {
    SettleMemory(i, CloseOutcome(i, code));
    hide ClearKillTimer, Settle, CloseOutcome, GroupIsAlive;
  }

  lemma CloseKeepsMemory(i: Instance, code: Option<int>, probe: bool)
    ensures var j := OnClose(i, code, probe);
            SameMemory(i, j) || (j.childClosed == Some(code) && SameMemory(i.(childClosed := Some(code)), j))
  {
    hide OnClose, SameMemory, GroupIsAlive;
    if i.parentSignalPending.None? && !(i.timers.waitingForKillGrace && GroupIsAlive(i, probe)) {
      PlainCloseMemory(i, code, probe);
    } else if GroupIsAlive(i, probe) {
      StoredCloseMemory(i, code, probe);
      SameAsItself(i.(childClosed := Some(code)));
    } else {
      SignalledCloseMemory(i, code, probe);
    }
  }

  lemma SameAsItself(i: Instance)
    ensures SameMemory(i, i)
  {
  }

  lemma CloseMemory(i: Instance, code: Option<int>, probe: bool)
    ensures MemoryMoves(i, OnClose(i, code, probe).(closed := true), Close(code, probe))
  {
    CloseKeepsMemory(i, code, probe);
    hide OnClose;
    assert i.output.written + [] == i.output.written;
  }

  lemma RunMemory(i: Instance, c: Callback)
    ensures MemoryMoves(i, Run(i, c), c)
  {
    hide OnRelay, OnData, OnTimeout, OnTimeoutKill, OnSignalKill, OnClose, Settle;
    assert i.output.written + [] == i.output.written;
    match c
    case Relay(signal, probe, complaint) => RelayMemory(i, signal, probe, complaint);
    case Data(onStdout, chunk) => DataMemory(i, onStdout, chunk);
    case Timeout(complaint) => TimeoutMemory(i, complaint);
    case TimeoutKill(complaint) => TimeoutKillMemory(i, complaint);
    case SignalKill(complaint) => SignalKillMemory(i, complaint);
    case Fail => SettleMemory(i, RejectedError);
    case Close(code, probe) => CloseMemory(i, code, probe);
  }

  lemma RemembersMore(events: seq<Event>, k: nat, id: nat, i: Instance, j: Instance)
    requires k < |events| && IsOf(events[k], id) && Remembers(events, k, id, i)
    requires MemoryMoves(i, j, events[k].callback)
    ensures Remembers(events, k + 1, id, j)
  {
  }

  lemma RemembersElsewhere(events: seq<Event>, k: nat, id: nat, i: Instance)
    requires k < |events| && !IsOf(events[k], id)
    ensures Remembers(events, k, id, i) ==> Remembers(events, k + 1, id, i)
    ensures IsNew(events, k, id) ==> IsNew(events, k + 1, id)
  {
    assert StdoutOf(events, k, id) + [] == StdoutOf(events, k, id);
  }

  lemma {:induction false} NewWroteNothing(events: seq<Event>, k: nat, id: nat)
    requires k <= |events| && IsNew(events, k, id)
    ensures StdoutOf(events, k, id) == []
  {
    if k > 0 {
      NewWroteNothing(events, k - 1, id);
    }
  }

  lemma StartRemembers(events: seq<Event>, k: nat, id: nat, late: bool)
    requires k < |events| && events[k].Start? && events[k].id == id && IsNew(events, k, id)
    ensures Remembers(events, k + 1, id, Started(events[k].hasPid, events[k].rejectOnFailure, events[k].maxChars, late))
  {
    NewWroteNothing(events, k + 1, id);
  }

  lemma {:induction false} RunRemembers(worlds: seq<World>, events: seq<Event>, k: nat, id: nat)
    requires IsRun(worlds, events) && k < |worlds|
    ensures id in worlds[k].instances ==> Remembers(events, k, id, worlds[k].instances[id])
    ensures id !in worlds[k].instances ==> IsNew(events, k, id)
  {
    if k > 0 {
      RunRemembers(worlds, events, k - 1, id);
      StepRemembers(worlds[k - 1], worlds[k], events, k - 1, id);
    }
  }

  lemma StepRemembers(w: World, v: World, events: seq<Event>, k: nat, id: nat)
    requires k < |events| && Enabled(w, events[k]) && v == Apply(w, events[k])
    requires id in w.instances ==> Remembers(events, k, id, w.instances[id])
    requires id !in w.instances ==> IsNew(events, k, id)
    ensures id in v.instances ==> Remembers(events, k + 1, id, v.instances[id])
    ensures id !in v.instances ==> IsNew(events, k + 1, id)
  {
    hide Remembers, IsNew, Run, Started, Asks, AllFinished, Due;
    var e := events[k];
    if IsOf(e, id) {
      RunMemory(w.instances[id], e.callback);
      RemembersMore(events, k, id, w.instances[id], v.instances[id]);
    } else {
      if id in w.instances {
        RemembersElsewhere(events, k, id, w.instances[id]);
      } else if e.Start? && e.id == id {
        StartRemembers(events, k, id, SomeSignalled(w));
      } else {
        RemembersElsewhere(events, k, id, Started(true, true, 1, true));
      }
    }
  }

  // The outcome that the events call for: a timeout first, then a failure that is to be rejected, then
  // output that was cut; otherwise the code and the whole output. No code counts as 1.
  ghost predicate IsOutcomeOf(
      o: Outcome, timedOut: bool, code: Option<int>, rejectOnFailure: bool, maxChars: Limit, written: Text)
  {
    var exitCode := if code == None then 1 else code.value;
    && (o == RejectedTimeout <==> timedOut)
    && (o == RejectedFailure <==> !timedOut && exitCode != 0 && rejectOnFailure)
    && (o == RejectedTruncated <==> !timedOut && exitCode == 0 && |written| > maxChars)
    && (o.Resolved? <==> !timedOut && (exitCode != 0 ==> !rejectOnFailure) && (exitCode == 0 ==> |written| <= maxChars))
    && (o.Resolved? ==> o.code == exitCode)
    && (o.Resolved? ==> |o.stdout| <= maxChars && |o.stdout| <= |written| && o.stdout == written[|written| - |o.stdout|..])
    && (o.Resolved? && |written| <= maxChars ==> o.stdout == written)
  }

  lemma CloseOutcomeExactly(i: Instance, code: Option<int>)
    requires OutputSound(i)
    ensures IsOutcomeOf(CloseOutcome(i, code), i.timedOut, code, i.rejectOnFailure, i.output.maxChars, i.output.written)
  {
    var c, o := i.output.stdout, i.output.written;
    assert c.truncatedChars == 0 ==> o[0..] == o;
  }

  lemma KilledIsSound(i: Instance, complaint: Text)
    requires OutputSound(i)
    ensures var j := Killed(i, complaint);
            && OutputSound(j) && j.timedOut == i.timedOut && j.rejectOnFailure == i.rejectOnFailure
            && j.output.maxChars == i.output.maxChars && j.output.written == i.output.written
  {
    hide Captures, AppendBounded;
  }

  // The code with which the callback finishes the call: that of the close event, or the stored one.
  predicate Finishes(i: Instance, c: Callback, code: Option<int>) {
    (c.Close? && code == c.code) || (c.TimeoutKill? && i.childClosed == Some(code))
  }

  // The outcome is the one that the instance's memory calls for.
  ghost predicate IsOutcome(i: Instance, code: Option<int>, o: Outcome) {
    IsOutcomeOf(o, i.timedOut, code, i.rejectOnFailure, i.output.maxChars, i.output.written)
  }

  lemma TimeoutKillIsExact(i: Instance, complaint: Text)
    requires OutputSound(i) && i.outcome.None? && OnTimeoutKill(i, complaint).outcome.Some?
    ensures var o := OnTimeoutKill(i, complaint).outcome.value;
            i.childClosed.Some? && o != RejectedError && IsOutcome(i, i.childClosed.value, o)
  {
    TimeoutKillSettles(i, complaint);
    hide OnTimeoutKill;
    KilledIsSound(i, complaint);
    var j := Killed(i, complaint);
    CloseOutcomeExactly(j, i.childClosed.value);
    NotAnError(j, i.childClosed.value);
    hide Killed, CloseOutcome, IsOutcomeOf, OutputSound;
  }

  lemma CloseIsExact(i: Instance, code: Option<int>, probe: bool)
    requires OutputSound(i) && i.outcome.None? && OnClose(i, code, probe).outcome.Some?
    ensures var o := OnClose(i, code, probe).outcome.value;
            o != RejectedError && IsOutcome(i, code, o)
  {
    CloseSettles(i, code, probe);
    hide OnClose;
    CloseOutcomeExactly(i, code);
    NotAnError(i, code);
    hide CloseOutcome, IsOutcomeOf, OutputSound;
  }

  // A settling callback gives the outcome that the memory calls for.
  lemma CallbackSettles(i: Instance, c: Callback)
    requires OutputSound(i) && Due(i, c) && i.outcome.None? && Run(i, c).outcome.Some?
    ensures var o := Run(i, c).outcome.value;
            && (o == RejectedError <==> c.Fail?)
            && (!c.Fail? ==> exists code :: Finishes(i, c, code) && IsOutcome(i, code, o))
  {
    hide IsOutcome, OutputSound, OnTimeoutKill, OnClose, Settle, OnRelay, OnData, OnTimeout, OnSignalKill;
    match c
    case TimeoutKill(complaint) =>
      TimeoutKillIsExact(i, complaint);
      assert Run(i, c) == OnTimeoutKill(i, complaint) && Finishes(i, c, i.childClosed.value);
      hide Run;
    case Close(code, probe) =>
      assert Run(i, c).outcome == OnClose(i, code, probe).outcome && Finishes(i, c, code);
      hide Run;
      CloseIsExact(i, code, probe);
    case Fail =>
      SettleSettles(i, RejectedError);
      assert Run(i, c) == Settle(i, RejectedError);
      hide Run;
    case _ =>
      OthersDoNotSettle(i, c);
      hide Run;
  }

  lemma NotAnError(i: Instance, code: Option<int>)
    ensures CloseOutcome(i, code) != RejectedError
  {
  }

  // Started with these options and closed with this code, the instance has the outcome that its events
  // call for.
  ghost predicate SettledAs(
      events: seq<Event>, k: nat, id: nat, code: Option<int>, rejectOnFailure: bool, maxChars: Limit, o: Outcome)
    requires k < |events|
  {
    && ClosedWith(events, k + 1, id, code) && StartedWith(events, k, id, rejectOnFailure, maxChars)
    && IsOutcomeOf(o, TimedOutBefore(events, k, id), code, rejectOnFailure, maxChars, StdoutOf(events, k, id))
  }

  lemma SettledBy(events: seq<Event>, k: nat, id: nat, i: Instance, code: Option<int>, o: Outcome)
    requires k < |events| && IsOf(events[k], id) && Remembers(events, k, id, i)
    requires Finishes(i, events[k].callback, code) && IsOutcome(i, code, o)
    ensures SettledAs(events, k, id, code, i.rejectOnFailure, i.output.maxChars, o)
  {
    hide IsOutcomeOf, StdoutOf, StartedWith, TimedOutBefore;
    ClosedBy(events, k, id, code);
  }

  // How every call settles. Either its child reported an error, or the child has closed with some code and
  // the outcome is the one that the timeout, the code, the options of the start and the output call for.
  lemma SettlesExactly(worlds: seq<World>, events: seq<Event>, k: nat, id: nat)
      returns (code: Option<int>, rejectOnFailure: bool, maxChars: Limit)
    requires IsRun(worlds, events) && k < |events|
    requires id in worlds[k].instances && worlds[k].instances[id].outcome.None?
    requires id in worlds[k + 1].instances && worlds[k + 1].instances[id].outcome.Some?
    ensures IsOf(events[k], id)
    ensures worlds[k + 1].instances[id].outcome == Some(RejectedError) <==> events[k].callback.Fail?
    ensures !events[k].callback.Fail? ==>
              SettledAs(events, k, id, code, rejectOnFailure, maxChars, worlds[k + 1].instances[id].outcome.value)
  {
    RunKeepsInvariant(worlds, events, k);
    RunRemembers(worlds, events, k, id);
    OnlyItsOwnEvent(worlds[k], events[k], id);
    var i, c := worlds[k].instances[id], events[k].callback;
    assert Sound(i);
    hide SignalsSound, TimersSound, OutputSound, Run, Due, IsOutcome, Remembers, SettledAs, Invariant, IsRun;
    CallbackSettles(i, c);
    code, rejectOnFailure, maxChars := None, i.rejectOnFailure, i.output.maxChars;
    if !c.Fail? {
      var o := worlds[k + 1].instances[id].outcome.value;
      code :| Finishes(i, c, code) && IsOutcome(i, code, o);
      SettledBy(events, k, id, i, code, o);
    }
  }

  lemma ClosedBy(events: seq<Event>, k: nat, id: nat, code: Option<int>)
    requires k < |events|
    ensures ClosedWith(events, k, id, code) ==> ClosedWith(events, k + 1, id, code)
    ensures IsOf(events[k], id) && events[k].callback.Close? && events[k].callback.code == code ==>
              ClosedWith(events, k + 1, id, code)
  {
  }

  // The child closes once, so that the code is determined.
  lemma ClosesOnce(worlds: seq<World>, events: seq<Event>, j: nat, k: nat, id: nat)
    requires IsRun(worlds, events) && j < k < |events|
    requires IsOf(events[j], id) && events[j].callback.Close? && IsOf(events[k], id)
    ensures !events[k].callback.Close?
  {
    RunRemembers(worlds, events, k, id);
    assert ClosedBefore(events, k, id);
    hide Remembers, Run, Asks, AllFinished;
    RemembersClose(events, k, id, worlds[k].instances[id]);
  }

  lemma RemembersClose(events: seq<Event>, k: nat, id: nat, i: Instance)
    requires k <= |events| && Remembers(events, k, id, i)
    ensures i.closed <==> ClosedBefore(events, k, id)
  {
  }

  // ---------- No call is stuck ----------

  // While a call is neither settled nor signalled, its timeout is to come, or has run and the child is
  // going to be killed or has been; and once the child has closed, the kill timer is there to settle it.
  predicate Progresses(i: Instance) {
    i.outcome.None? && i.entry.signal.None? ==>
      && (i.timedOut || i.timers.timeoutPending)
      && (i.timedOut ==> i.timers.timeoutKillPending || i.killSent)
      && (i.timers.waitingForKillGrace ==> i.timers.timeoutKillPending)
      && (i.closed ==> i.timers.timeoutKillPending && i.childClosed.Some?)
  }

  lemma RelayProgresses(i: Instance, signal: Signal, probe: bool, complaint: Text)
    ensures Progresses(OnRelay(i, signal, probe, complaint))
  {
    hide AppendBounded, ClearKillTimer, GroupIsAlive;
  }

  lemma TimeoutProgresses(i: Instance, complaint: Text)
    requires Progresses(i) && i.timers.timeoutPending
    ensures Progresses(OnTimeout(i, complaint))
  {
    hide AppendBounded;
  }

  lemma TimeoutKillProgresses(i: Instance, complaint: Text)
    requires Progresses(i) && Sound(i) && i.timers.timeoutKillPending
    ensures Progresses(OnTimeoutKill(i, complaint))
    ensures i.childClosed.Some? ==> OnTimeoutKill(i, complaint).outcome.Some?
  {
    TimeoutKillSettles(i, complaint);
    var j := Killed(i, complaint);
    hide AppendBounded, CloseOutcome, Settle;
    if j.childClosed.None? {
      assert OnTimeoutKill(i, complaint) == j;
    }
  }

  lemma SignalKillProgresses(i: Instance, complaint: Text)
    requires Sound(i) && i.timers.signalKillPending.Some?
    ensures Progresses(OnSignalKill(i, complaint))
  {
    hide AppendBounded, Captures;
  }

  lemma CloseProgresses(i: Instance, code: Option<int>, probe: bool)
    requires Progresses(i) && SignalsSound(i)
    ensures Progresses(OnClose(i, code, probe).(closed := true))
  {
    hide ClearKillTimer, CloseOutcome, GroupIsAlive, Settle;
    if i.parentSignalPending.None? && !(i.timers.waitingForKillGrace && GroupIsAlive(i, probe)) {
      SettleSettles(i, CloseOutcome(i, code));
      assert OnClose(i, code, probe) == Settle(i, CloseOutcome(i, code));
      hide OnClose;
    }
  }

  lemma OutputProgresses(i: Instance, o: Output)
    ensures Progresses(i.(output := o)) == Progresses(i)
  {
  }

  lemma RunProgresses(i: Instance, c: Callback)
    requires Progresses(i) && Sound(i) && Due(i, c)
    ensures Progresses(Run(i, c))
  {
    hide Progresses, TimersSound, OutputSound, OnRelay, OnTimeout, OnTimeoutKill, OnSignalKill, OnClose, Settle, AppendBounded;
    match c
    case Relay(signal, probe, complaint) => RelayProgresses(i, signal, probe, complaint);
    case Data(onStdout, chunk) =>
      OutputProgresses(i, OnData(i, onStdout, chunk).output);
      assert Run(i, c) == i.(output := OnData(i, onStdout, chunk).output);
    case Timeout(complaint) => TimeoutProgresses(i, complaint);
    case TimeoutKill(complaint) => TimeoutKillProgresses(i, complaint);
    case SignalKill(complaint) => SignalKillProgresses(i, complaint);
    case Fail => FailProgresses(i);
    case Close(code, probe) => CloseProgresses(i, code, probe);
  }

  lemma FailProgresses(i: Instance)
    ensures Progresses(Settle(i, RejectedError))
  {
    SettleSettles(i, RejectedError);
    hide Settle;
  }

  lemma {:induction false} NothingIsStuck(worlds: seq<World>, events: seq<Event>, k: nat, id: nat)
    requires IsRun(worlds, events) && k < |worlds| && id in worlds[k].instances
    ensures Progresses(worlds[k].instances[id])
    decreases k
  {
    hide Progresses, Invariant, Apply;
    if k > 0 {
      var w, e := worlds[k - 1], events[k - 1];
      RunKeepsInvariant(worlds, events, k - 1);
      if id in w.instances {
        NothingIsStuck(worlds, events, k - 1, id);
        StepProgresses(w, e, id);
      } else {
        NewProgresses(w, e, id);
      }
    }
  }

  lemma StepProgresses(w: World, e: Event, id: nat)
    requires Invariant(w) && Enabled(w, e) && id in w.instances && Progresses(w.instances[id])
    ensures Progresses(Apply(w, e).instances[id])
  {
    hide Progresses, Run, Asks, AllFinished, RelayingSound, Reached;
    if IsOf(e, id) {
      assert Sound(w.instances[id]);
      RunProgresses(w.instances[id], e.callback);
    }
  }

  lemma NewProgresses(w: World, e: Event, id: nat)
    requires Enabled(w, e) && id !in w.instances && id in Apply(w, e).instances
    ensures Progresses(Apply(w, e).instances[id])
  {
    hide Run, Asks, AllFinished;
  }

  // ---------- Only delivered signals are raised again ----------

  ghost predicate WasDelivered(events: seq<Event>, k: nat, signal: Signal)
    requires k <= |events|
  {
    exists j | 0 <= j < k :: events[j].Arrive? && events[j].signal == signal
  }

  // Every signal that is around in the world has been delivered.
  ghost predicate AllDelivered(w: World, events: seq<Event>, k: nat)
    requires k <= |events|
  {
    && (w.relaying != [] ==> WasDelivered(events, k, w.delivered))
    && (forall id | id in w.instances && w.instances[id].entry.signal.Some? ::
          WasDelivered(events, k, w.instances[id].entry.signal.value))
    && (forall signal | signal in w.reraised :: WasDelivered(events, k, signal))
  }

  lemma {:induction false} OnlyDeliveredIsRaised(worlds: seq<World>, events: seq<Event>, k: nat)
    requires IsRun(worlds, events) && k < |worlds|
    ensures AllDelivered(worlds[k], events, k)
  {
    if k > 0 {
      OnlyDeliveredIsRaised(worlds, events, k - 1);
      RunKeepsInvariant(worlds, events, k - 1);
      StepDelivers(worlds[k - 1], events, k - 1);
    }
  }

  lemma AskedIsDelivered(w: World, id: nat, c: Callback)
    requires Invariant(w) && Enabled(w, Happen(id, c))
    ensures var j := Run(w.instances[id], c);
            && (j.entry.signal == w.instances[id].entry.signal
                || (w.relaying != [] && j.entry.signal == Some(w.delivered)))
            && (Asks(w.instances[id], c).Some? ==> Asks(w.instances[id], c) == j.entry.signal)
  {
    var i := w.instances[id];
    assert Sound(i);
    RunEntry(i, c);
    if c.Relay? {
      RelaySignal(i, c.signal, c.probe, c.complaint);
    }
    hide OnRelay, OnTimeoutKill, OnClose, OnSignalKill, OnTimeout, OnData, Settle, OutputSound;
  }

  lemma RelaySignal(i: Instance, signal: Signal, probe: bool, complaint: Text)
    ensures OnRelay(i, signal, probe, complaint).entry.signal == Some(signal)
  {
    hide AppendBounded, ClearKillTimer, GroupIsAlive;
  }

  lemma StepDelivers(w: World, events: seq<Event>, k: nat)
    requires k < |events| && Invariant(w) && Enabled(w, events[k]) && AllDelivered(w, events, k)
    ensures AllDelivered(Apply(w, events[k]), events, k + 1)
  {
    forall signal | WasDelivered(events, k, signal) ensures WasDelivered(events, k + 1, signal) {
    }
    match events[k]
    case Start(_, _, _, _) =>
    case Arrive(signal, _) => assert WasDelivered(events, k + 1, signal);
    case Happen(id, c) =>
      AskedIsDelivered(w, id, c);
      hide WasDelivered;
      HappenDelivers(w, events, k, id, c);
  }

  lemma HappenDelivers(w: World, events: seq<Event>, k: nat, id: nat, c: Callback)
    requires k < |events| && Enabled(w, Happen(id, c)) && AllDelivered(w, events, k)
    requires var j := Run(w.instances[id], c);
             && (j.entry.signal == w.instances[id].entry.signal
                 || (w.relaying != [] && j.entry.signal == Some(w.delivered)))
             && (Asks(w.instances[id], c).Some? ==> Asks(w.instances[id], c) == j.entry.signal)
    requires forall signal | WasDelivered(events, k, signal) :: WasDelivered(events, k + 1, signal)
    ensures AllDelivered(Apply(w, Happen(id, c)), events, k + 1)
  {
    hide WasDelivered, Run, Asks, AllFinished, Due;
    var v := Apply(w, Happen(id, c));
    assert v.instances == w.instances[id := Run(w.instances[id], c)];
    forall x | x in v.instances && v.instances[x].entry.signal.Some?
      ensures WasDelivered(events, k + 1, v.instances[x].entry.signal.value)
    {
      assert x in w.instances && (x != id ==> v.instances[x] == w.instances[x]);
    }
  }

  // An instance that settles without having received a signal leaves nothing behind: no listener, no
  // timer, no entry in the shared set.
  lemma SettledLeavesNothing(worlds: seq<World>, events: seq<Event>, k: nat, id: nat)
    requires IsRun(worlds, events) && k < |worlds| && id in worlds[k].instances
    requires worlds[k].instances[id].outcome.Some? && worlds[k].instances[id].entry.signal.None?
    ensures var i := worlds[k].instances[id];
            && !i.handlers && !i.entry.member && !i.timers.timeoutPending
            && !i.timers.timeoutKillPending && i.timers.signalKillPending.None?
  {
    RunKeepsInvariant(worlds, events, k);
    assert Sound(worlds[k].instances[id]);
  }

  // ---------- A late start can lose the signal ----------

  function Relayed(): Instance {
    OnRelay(Started(true, false, 1, false), SIGTERM, true, [])
  }

  function KilledChild(): Instance {
    Run(Relayed(), SignalKill([]))
  }

  // Child 0 is told to stop; child 1 is started while 0 has its grace period. When 0 is killed and when
  // it closes, child 1 is still in the shared set, so nothing is raised; when 1 exits normally it leaves
  // the set without asking. Everything is over, and the signal is lost.
  lemma LateStartLosesSignal() returns (worlds: seq<World>, events: seq<Event>)
    ensures IsRun(worlds, events)
    ensures Lost(worlds[|events|])
  {
    worlds, events := LateStart();
    var w, e0, e1, e2 := worlds[4], Happen(0, SignalKill([])), Happen(0, Close(None, false)),
                         Happen(1, Close(Some(0), false));
    KillAndClose(w);
    hide IsRun, Enabled, Apply, Lost, Started;
    var w1, w2 := Apply(w, e0), Apply(Apply(w, e0), e1);
    ExtendRun(worlds, events, e0);
    ExtendRun(worlds + [w1], events + [e0], e1);
    ExtendRun(worlds + [w1] + [w2], events + [e0] + [e1], e2);
    worlds, events := worlds + [w1] + [w2] + [Apply(w2, e2)], events + [e0] + [e1] + [e2];
  }

  lemma KillAndClose(w: World)
    requires w == World(map[0 := Relayed(), 1 := Started(true, false, 1, true)], [], SIGTERM, [])
    ensures Enabled(w, Happen(0, SignalKill([])))
    ensures var w1 := Apply(w, Happen(0, SignalKill([])));
            Enabled(w1, Happen(0, Close(None, false))) &&
            var w2 := Apply(w1, Happen(0, Close(None, false)));
            Enabled(w2, Happen(1, Close(Some(0), false))) && Lost(Apply(w2, Happen(1, Close(Some(0), false))))
  {
    var w1 := Apply(w, Happen(0, SignalKill([])));
    assert w1.instances[1] == w.instances[1] && !Finished(w1.instances[1]);
    assert w1 == World(map[0 := KilledChild(), 1 := Started(true, false, 1, true)], [], SIGTERM, []);
    CloseAfterKill(w1);
  }

  lemma CloseAfterKill(w1: World)
    requires w1 == World(map[0 := KilledChild(), 1 := Started(true, false, 1, true)], [], SIGTERM, [])
    ensures Enabled(w1, Happen(0, Close(None, false)))
    ensures var w2 := Apply(w1, Happen(0, Close(None, false)));
            Enabled(w2, Happen(1, Close(Some(0), false))) && Lost(Apply(w2, Happen(1, Close(Some(0), false))))
  {
    var closed := Run(KilledChild(), Close(None, false));
    var w2 := Apply(w1, Happen(0, Close(None, false)));
    assert w2.instances[1] == w1.instances[1] && !Finished(w2.instances[1]);
    assert w2 == World(map[0 := closed, 1 := Started(true, false, 1, true)], [], SIGTERM, []);
    var v := Apply(w2, Happen(1, Close(Some(0), false)));
    assert v.instances == w2.instances[1 := Run(w2.instances[1], Close(Some(0), false))];
    assert v.instances[0] == closed && closed.entry.signal.Some?;
    assert Finished(v.instances[0]) && Finished(v.instances[1]);
  }

  lemma LateStart() returns (worlds: seq<World>, events: seq<Event>)
    ensures IsRun(worlds, events) && |events| == 4
    ensures worlds[4] == World(map[0 := Relayed(), 1 := Started(true, false, 1, true)], [], SIGTERM, [])
  {
    var i := Started(true, false, 1, false);
    var e0, e1, e2 := Start(0, true, false, 1), Arrive(SIGTERM, [0]), Happen(0, Relay(SIGTERM, true, []));
    var w1 := Apply(INITIAL, e0);
    assert w1 == World(map[0 := i], [], SIGINT, []);
    var w2 := Apply(w1, e1);
    assert w2 == World(map[0 := i], [0], SIGTERM, []);
    var w3 := Apply(w2, e2);
    assert w3 == World(map[0 := Relayed()], [], SIGTERM, []);
    var e3 := Start(1, true, false, 1);
    assert w3.instances[0].entry.signal.Some?;
    worlds, events := [INITIAL, w1, w2, w3, Apply(w3, e3)], [e0, e1, e2, e3];
  }

  // A callback that asks while another signalled child is still there proves nothing either way: here
  // child 0 asks before the late child 2 exists, and the signal is lost all the same.
  lemma EarlyAskDoesNotCount() returns (worlds: seq<World>, events: seq<Event>, k: nat)
    ensures IsRun(worlds, events) && Lost(worlds[|events|])
    ensures k < |events| && AsksNow(worlds[k], events[k]) && !HasLateMember(worlds[k + 1])
  {
    worlds, events := LateStarted();
    k := 5;
    var w1, e1, e2 := worlds[7], Happen(1, Close(None, false)), Happen(2, Close(Some(0), false));
    CloseOfLast(w1);
    hide IsRun, Enabled, Apply, Lost, HasLateMember, AsksNow, Closed, Relayed, Started;
    ExtendRun(worlds, events, e1);
    var w2 := Apply(w1, e1);
    ExtendRun(worlds + [w2], events + [e1], e2);
    worlds, events := worlds + [w2] + [Apply(w2, e2)], events + [e1] + [e2];
  }

  lemma LateStarted() returns (worlds: seq<World>, events: seq<Event>)
    ensures IsRun(worlds, events) && |events| == 7
    ensures AsksNow(worlds[5], events[5]) && !HasLateMember(worlds[6])
    ensures worlds[7] == World(map[0 := Closed(), 1 := Relayed(), 2 := Started(true, false, 1, true)], [], SIGTERM, [])
  {
    worlds, events := OneClosed();
    var w, e := worlds[6], Start(2, true, false, 1);
    assert w.instances[0].entry.signal.Some?;
    var w1 := Apply(w, e);
    hide IsRun, HasLateMember, AsksNow, Closed, Relayed, Started;
    assert w1.instances == map[0 := Closed(), 1 := Relayed(), 2 := Started(true, false, 1, true)];
    ExtendRun(worlds, events, e);
    worlds, events := worlds + [w1], events + [e];
  }

  function Closed(): Instance {
    Run(Relayed(), Close(None, false))
  }

  lemma CloseOfLast(w: World)
    requires w == World(map[0 := Closed(), 1 := Relayed(), 2 := Started(true, false, 1, true)], [], SIGTERM, [])
    ensures Enabled(w, Happen(1, Close(None, false)))
    ensures var v := Apply(w, Happen(1, Close(None, false)));
            && Enabled(v, Happen(2, Close(Some(0), false)))
            && Lost(Apply(v, Happen(2, Close(Some(0), false))))
  {
    var v := Apply(w, Happen(1, Close(None, false)));
    assert v.instances[2] == w.instances[2] && !Finished(v.instances[2]);
    assert v == World(map[0 := Closed(), 1 := Closed(), 2 := Started(true, false, 1, true)], [], SIGTERM, []);
    LastClose(v);
  }

  lemma LastClose(v: World)
    requires v == World(map[0 := Closed(), 1 := Closed(), 2 := Started(true, false, 1, true)], [], SIGTERM, [])
    ensures Enabled(v, Happen(2, Close(Some(0), false)))
    ensures Lost(Apply(v, Happen(2, Close(Some(0), false))))
  {
    var u := Apply(v, Happen(2, Close(Some(0), false)));
    assert u.instances == v.instances[2 := Run(v.instances[2], Close(Some(0), false))];
    assert u.instances[0] == Closed() == u.instances[1] && Closed().entry.signal.Some?;
    assert Finished(u.instances[0]) && Finished(u.instances[1]) && Finished(u.instances[2]);
  }

  // Children 0 and 1 are told to stop, and 0 closes.
  lemma OneClosed() returns (worlds: seq<World>, events: seq<Event>)
    ensures IsRun(worlds, events) && |events| == 6
    ensures AsksNow(worlds[5], events[5]) && !HasLateMember(worlds[6])
    ensures worlds[6] == World(map[0 := Closed(), 1 := Relayed()], [], SIGTERM, [])
  {
    worlds, events := BothSignalled();
    var w, e := worlds[5], Happen(0, Close(None, false));
    hide IsRun;
    assert Enabled(w, e) && AsksNow(w, e);
    var v := Apply(w, e);
    assert v.instances[1] == Relayed() && !Finished(v.instances[1]);
    assert v == World(map[0 := Closed(), 1 := Relayed()], [], SIGTERM, []);
    ExtendRun(worlds, events, e);
    worlds, events := worlds + [v], events + [e];
  }

  lemma BothSignalled() returns (worlds: seq<World>, events: seq<Event>)
    ensures IsRun(worlds, events) && |events| == 5
    ensures worlds[5] == World(map[0 := Relayed(), 1 := Relayed()], [], SIGTERM, [])
  {
    worlds, events := BothStarted();
    hide IsRun;
    var i := Started(true, false, 1, false);
    var e0, e1 := Happen(0, Relay(SIGTERM, true, [])), Happen(1, Relay(SIGTERM, true, []));
    var w := worlds[3];
    assert Enabled(w, e0);
    ExtendRun(worlds, events, e0);
    var w1 := Apply(w, e0);
    assert w1 == World(map[0 := Relayed(), 1 := i], [1], SIGTERM, []);
    assert Enabled(w1, e1);
    ExtendRun(worlds + [w1], events + [e0], e1);
    var w2 := Apply(w1, e1);
    assert w2 == World(map[0 := Relayed(), 1 := Relayed()], [], SIGTERM, []);
    worlds, events := worlds + [w1] + [w2], events + [e0] + [e1];
  }

  lemma BothStarted() returns (worlds: seq<World>, events: seq<Event>)
    ensures IsRun(worlds, events) && |events| == 3
    ensures var i := Started(true, false, 1, false);
            worlds[3] == World(map[0 := i, 1 := i], [0, 1], SIGTERM, [])
  {
    var i := Started(true, false, 1, false);
    var e0, e1, e2 := Start(0, true, false, 1), Start(1, true, false, 1), Arrive(SIGTERM, [0, 1]);
    var w1 := Apply(INITIAL, e0);
    assert w1 == World(map[0 := i], [], SIGINT, []);
    var w2 := Apply(w1, e1);
    assert w2 == World(map[0 := i, 1 := i], [], SIGINT, []);
    assert Enabled(w2, e2);
    worlds, events := [INITIAL, w1, w2, Apply(w2, e2)], [e0, e1, e2];
  }

  lemma ExtendRun(worlds: seq<World>, events: seq<Event>, e: Event)
    requires IsRun(worlds, events) && Enabled(worlds[|events|], e)
    ensures IsRun(worlds + [Apply(worlds[|events|], e)], events + [e])
  {
    hide Enabled, Apply;
  }
}
