/**
 * The dual-channel (Cognex IS2000) step: a UDP listener receives the telemetry
 * message, a driver process reports through its exit code and stderr, and a
 * completion arbiter joins the two. The arbiter is a deterministic state
 * machine over the events the handler reacts to; `CognexStep` is the handler
 * itself, one method per event listener.
 */
module Cognex {
  import opened Wrappers
  import opened Strings
  import opened Values
  import opened Settings
  import opened StderrScan
  import opened Telemetry

  const UdpBindError := "ERR_UDP_BIND"
  const SpawnErrorCode := "ERR_SPAWN"
  const InvalidStepResult := "ERR_INVALID_STEP_RESULT"
  /** The wait for the telemetry message when neither the device nor the configuration sets one. */
  const DefaultWait := 5000

  /** `device.waitForResults || app.config.waitForResults || 5000` */
  function WaitFor(device: Device, config: Config): (ms: int)
    ensures device.waitForResults.Some? && device.waitForResults.value != 0 ==> ms == device.waitForResults.value
    ensures (device.waitForResults.None? || device.waitForResults.value == 0) ==>
              config.waitForResults.Some? && config.waitForResults.value != 0 ==> ms == config.waitForResults.value
    ensures (device.waitForResults.None? || device.waitForResults.value == 0) ==>
              (config.waitForResults.None? || config.waitForResults.value == 0) ==> ms == DefaultWait
  {
    IntOr(device.waitForResults, IntOr(config.waitForResults, DefaultWait))
  }

  /**
   * The driver's command line: `--host`, `--user` (default `admin`),
   * `--pass` (default empty) and `--program` (default empty).
   */
  function Arguments(device: Device, step: StepConfig): (args: seq<Value>)
    ensures |args| == 8
    ensures args[0] == Str("--host") && args[2] == Str("--user")
    ensures args[4] == Str("--pass") && args[6] == Str("--program")
    ensures args[1] == Str(device.host)
    ensures args[3] == Str(StringOr(device.user, "admin")) && args[5] == Str(StringOr(device.pass, ""))
    ensures Truthy(step.program) ==> args[7] == step.program
    ensures !Truthy(step.program) ==> args[7] == Str("")
  {
    [Str("--host"), Str(device.host),
     Str("--user"), Str(StringOr(device.user, "admin")),
     Str("--pass"), Str(StringOr(device.pass, "")),
     Str("--program"), Or(step.program, Str(""))]
  }

  /** How the join of the two halves ends. */
  datatype Outcome =
    | Proceed          // telemetry received and exit code 0: image acquisition follows
    | Failed(code: string)

  datatype Phase =
    | Binding          // the UDP socket is being bound; the driver is not spawned yet
    | Running          // the driver is spawned; the join is pending
    | Joined(outcome: Outcome)
    | Crashed          // the message listener threw: the process dies of an uncaught exception

  /**
   * Everything the handler's listeners read and write: the step result, the
   * `stepResultRecieved` flag, the captured error code, the `error` flag, the
   * two once-guarded join halves (`next1` carries the optional error,
   * `next2` none), whether the process closed, and the time the telemetry
   * wait started by `setTimeout` runs out.
   */
  datatype Arbiter = Arbiter(
    phase: Phase,
    fields: StepResult,
    received: bool,
    errorCode: string,
    error: bool,
    exitHalf: Option<Option<string>>,
    resultHalf: bool,
    closed: bool,
    deadline: Option<int>)

  /** The step result starts as `{result: false}`; nothing has happened yet. */
  const Initial := Arbiter(Binding, InitialStepResult, false, StepExitCode, false, None, false, false, None)

  /**
   * What the handler reacts to. `Close` carries the exit code and the time it
   * arrived; `Tick` is the clock reaching `now` (the timer fires once `now`
   * reaches the deadline). A process killed by a signal closes with a
   * non-zero code here.
   */
  datatype Event =
    | Bound(failed: bool)   // the bind's outcome; a failure reaching the bind callback is the intended reading
    | Message(text: string)
    | Stderr(chunk: string)
    | SpawnError
    | Close(code: int, now: int)
    | Tick(now: int)

  /** The outcome of the join, by precedence: the error `next1` carried, then a missing message. */
  function JoinOutcome(exitError: Option<string>, received: bool): (o: Outcome)
    ensures exitError.Some? ==> o == Failed(exitError.value)
    ensures exitError.None? && !received ==> o == Failed(InvalidStepResult)
    ensures o == Proceed <==> exitError.None? && received
  {
    if exitError.Some? then Failed(exitError.value)
    else if !received then Failed(InvalidStepResult)
    else Proceed
  }

  /** The final step function runs once both halves have been called. */
  function TryJoin(s: Arbiter): Arbiter {
    if s.exitHalf.Some? && s.resultHalf then s.(phase := Joined(JoinOutcome(s.exitHalf.value, s.received)))
    else s
  }

  /** `next1(err)`: only the first call counts. */
  function FireExit(s: Arbiter, err: Option<string>): Arbiter {
    if s.exitHalf.None? then TryJoin(s.(exitHalf := Some(err))) else s
  }

  /** `next2()`: only the first call counts. */
  function FireResult(s: Arbiter): Arbiter {
    if !s.resultHalf then TryJoin(s.(resultHalf := true)) else s
  }

  /** `fail(err)`: set `error`, then call `next1(err)` and `next2()`. */
  function Fail(s: Arbiter, code: string): Arbiter {
    FireResult(FireExit(s.(error := true), Some(code)))
  }

  /**
   * One event. Every listener is inert once the step has settled or the
   * process has died; before the socket is bound only the bind callback runs.
   */
  function Step(s: Arbiter, e: Event, wait: int): Arbiter {
    match e
    case Bound(failed) =>
      if s.phase != Binding then s
      else if failed then s.(phase := Joined(Failed(UdpBindError)))
      else s.(phase := Running)
    case Message(text) =>
      if s.phase != Running || s.received then s
      else
        var applied := Apply(s.fields, text);
        var s1 := s.(fields := applied.0, received := true);
        if applied.1 then s1.(phase := Crashed)
        else if s1.deadline.Some? then FireResult(s1)
        else s1
    case Stderr(chunk) =>
      if s.phase != Running then s
      else s.(errorCode := LastErrorToken(s.errorCode, ChunkLines(chunk)))
    case SpawnError =>
      if s.phase != Running then s
      else Fail(s.(error := true), SpawnErrorCode)
    case Close(code, now) =>
      if s.phase != Running || s.closed then s
      else
        var s1 := s.(closed := true);
        if s1.error then s1
        else if code != 0 then Fail(s1, s1.errorCode)
        else
          var s2 := FireExit(s1, None);
          if !s2.received then s2.(deadline := Some(now + TimerDelay(wait)))
          else FireResult(s2)
    case Tick(now) =>
      if s.phase != Running || s.deadline.None? || now < s.deadline.value then s
      else FireResult(s)
  }

  /** The state after a trace of events, in order. */
  function Run(s: Arbiter, events: seq<Event>, wait: int): Arbiter
    decreases |events|
  {
    if events == [] then s
    else Step(Run(s, events[..|events| - 1], wait), events[|events| - 1], wait)
  }

  /**
   * The arbiter's invariant: `next2` never fires before `next1`, the join
   * has happened exactly when both halves fired, the timer runs only after a
   * clean exit with no message yet, and a settled outcome is justified by
   * the halves: `Proceed` only with a message and a clean exit, a failure
   * only with the bind error, the error `next1` carried, or a missing message.
   */
  predicate Valid(s: Arbiter) {
    (s.resultHalf ==> s.exitHalf.Some?) &&
    (s.exitHalf.Some? ==> s.closed || s.error) &&
    (s.error ==> s.exitHalf.Some?) &&
    (s.deadline.Some? ==> s.exitHalf == Some(None) && s.closed) &&
    (s.phase == Binding ==>
      s.exitHalf.None? && !s.resultHalf && !s.received && !s.closed && !s.error && s.deadline.None?) &&
    (s.phase == Running ==>
      !(s.exitHalf.Some? && s.resultHalf) && (s.deadline.Some? ==> !s.received)) &&
    (s.phase == Joined(Proceed) ==> s.received && s.exitHalf == Some(None) && s.resultHalf) &&
    (s.phase.Joined? && s.phase.outcome.Failed? ==>
      var c := s.phase.outcome.code;
      (c == UdpBindError && s.exitHalf.None?) ||
      (s.resultHalf && (s.exitHalf == Some(Some(c)) ||
                        (s.exitHalf == Some(None) && !s.received && c == InvalidStepResult))))
  }

  lemma InitialIsValid()
    ensures Valid(Initial)
  {
  }

  /** Each event, one at a time: the invariant is kept and neither half is undone. */
  lemma BoundStep(s: Arbiter, failed: bool, wait: int)
    ensures Valid(s) ==> Valid(Step(s, Bound(failed), wait))
    ensures s.exitHalf.Some? ==> Step(s, Bound(failed), wait).exitHalf == s.exitHalf
    ensures s.resultHalf ==> Step(s, Bound(failed), wait).resultHalf
  {
  }

  lemma MessageStep(s: Arbiter, text: string, wait: int)
    ensures Valid(s) ==> Valid(Step(s, Message(text), wait))
    ensures s.exitHalf.Some? ==> Step(s, Message(text), wait).exitHalf == s.exitHalf
    ensures s.resultHalf ==> Step(s, Message(text), wait).resultHalf
  {
  }

  lemma StderrStep(s: Arbiter, chunk: string, wait: int)
    ensures Valid(s) ==> Valid(Step(s, Stderr(chunk), wait))
    ensures s.exitHalf.Some? ==> Step(s, Stderr(chunk), wait).exitHalf == s.exitHalf
    ensures s.resultHalf ==> Step(s, Stderr(chunk), wait).resultHalf
  {
  }

  lemma SpawnErrorStep(s: Arbiter, wait: int)
    ensures Valid(s) ==> Valid(Step(s, SpawnError, wait))
    ensures s.exitHalf.Some? ==> Step(s, SpawnError, wait).exitHalf == s.exitHalf
    ensures s.resultHalf ==> Step(s, SpawnError, wait).resultHalf
  {
  }

  lemma CloseStep(s: Arbiter, code: int, now: int, wait: int)
    ensures Valid(s) ==> Valid(Step(s, Close(code, now), wait))
    ensures s.exitHalf.Some? ==> Step(s, Close(code, now), wait).exitHalf == s.exitHalf
    ensures s.resultHalf ==> Step(s, Close(code, now), wait).resultHalf
  {
  }

  lemma TickStep(s: Arbiter, now: int, wait: int)
    ensures Valid(s) ==> Valid(Step(s, Tick(now), wait))
    ensures s.exitHalf.Some? ==> Step(s, Tick(now), wait).exitHalf == s.exitHalf
    ensures s.resultHalf ==> Step(s, Tick(now), wait).resultHalf
  {
  }

  /** Every event keeps the invariant. */
  lemma StepKeepsValid(s: Arbiter, e: Event, wait: int)
    requires Valid(s)
    ensures Valid(Step(s, e, wait))
  {
    match e
    case Bound(failed) => BoundStep(s, failed, wait);
    case Message(text) => MessageStep(s, text, wait);
    case Stderr(chunk) => StderrStep(s, chunk, wait);
    case SpawnError => SpawnErrorStep(s, wait);
    case Close(code, now) => CloseStep(s, code, now, wait);
    case Tick(now) => TickStep(s, now, wait);
  }

  /** So does every trace. */
  lemma {:induction false} RunKeepsValid(s: Arbiter, events: seq<Event>, wait: int)
    requires Valid(s)
    ensures Valid(Run(s, events, wait))
    decreases |events|
  {
    if events != [] {
      RunKeepsValid(s, events[..|events| - 1], wait);
      StepKeepsValid(Run(s, events[..|events| - 1], wait), events[|events| - 1], wait);
    }
  }

  predicate Settled(s: Arbiter) {
    s.phase.Joined? || s.phase == Crashed
  }

  /** A settled step ignores every later event: the join runs once and its outcome is final. */
  lemma {:induction false} SettledIsFinal(s: Arbiter, events: seq<Event>, wait: int)
    requires Settled(s)
    ensures Run(s, events, wait) == s
    decreases |events|
  {
    if events != [] {
      SettledIsFinal(s, events[..|events| - 1], wait);
    }
  }

  /** Each half fires at most once: once called, `next1` keeps its argument and `next2` stays called. */
  lemma HalvesFireOnce(s: Arbiter, e: Event, wait: int)
    ensures s.exitHalf.Some? ==> Step(s, e, wait).exitHalf == s.exitHalf
    ensures s.resultHalf ==> Step(s, e, wait).resultHalf
  {
    match e
    case Bound(failed) => BoundStep(s, failed, wait);
    case Message(text) => MessageStep(s, text, wait);
    case Stderr(chunk) => StderrStep(s, chunk, wait);
    case SpawnError => SpawnErrorStep(s, wait);
    case Close(code, now) => CloseStep(s, code, now, wait);
    case Tick(now) => TickStep(s, now, wait);
  }

  /** The same over any trace. */
  lemma {:induction false} HalvesFireOnceOverRun(s: Arbiter, events: seq<Event>, wait: int)
    ensures s.exitHalf.Some? ==> Run(s, events, wait).exitHalf == s.exitHalf
    ensures s.resultHalf ==> Run(s, events, wait).resultHalf
    decreases |events|
  {
    if events != [] {
      var before := Run(s, events[..|events| - 1], wait);
      HalvesFireOnceOverRun(s, events[..|events| - 1], wait);
      HalvesFireOnce(before, events[|events| - 1], wait);
    }
  }

  /** A failed bind settles the step with `ERR_UDP_BIND`; the driver is never spawned. */
  lemma BindFailureFails(s: Arbiter, wait: int)
    requires s.phase == Binding
    ensures Step(s, Bound(true), wait).phase == Joined(Failed(UdpBindError))
    ensures Step(s, Bound(false), wait).phase == Running
  {
  }

  /**
   * The bind outcome as `dgram` delivers it: the callback given to `bind` runs
   * only on `listening`, without an argument. A failed bind emits `error`
   * instead, which the socket's `error` listener only logs.
   */
  function StepAsWritten(s: Arbiter, e: Event, wait: int): Arbiter {
    if e == Bound(true) then s else Step(s, e, wait)
  }

  function RunAsWritten(s: Arbiter, events: seq<Event>, wait: int): Arbiter
    decreases |events|
  {
    if events == [] then s
    else StepAsWritten(RunAsWritten(s, events[..|events| - 1], wait), events[|events| - 1], wait)
  }

  /**
   * As written, a step whose bind fails never settles and never spawns the
   * driver: with no `listening` event the handler stays in its initial state
   * whatever else arrives, where the intended reading fails it with `ERR_UDP_BIND`.
   */
  lemma {:induction false} BindFailureHangsAsWritten(events: seq<Event>, wait: int)
    requires forall i :: 0 <= i < |events| ==> events[i] != Bound(false)
    ensures RunAsWritten(Initial, events, wait) == Initial
    ensures !Settled(RunAsWritten(Initial, events, wait))
    ensures Step(Initial, Bound(true), wait).phase == Joined(Failed(UdpBindError))
    decreases |events|
  {
    if events != [] {
      var init := events[..|events| - 1];
      assert forall i :: 0 <= i < |init| ==> init[i] == events[i];
      BindFailureHangsAsWritten(init, wait);
    }
  }

  /** A spawn error before the exit fails the step with `ERR_SPAWN` at once. */
  lemma SpawnErrorFails(s: Arbiter, wait: int)
    requires Valid(s) && s.phase == Running && s.exitHalf.None?
    ensures Step(s, SpawnError, wait).phase == Joined(Failed(SpawnErrorCode))
  {
  }

  /** A non-zero exit before any failure fails the step with the captured error code. */
  lemma NonZeroExitFails(s: Arbiter, code: int, now: int, wait: int)
    requires Valid(s) && s.phase == Running && !s.closed && !s.error && code != 0
    ensures Step(s, Close(code, now), wait).phase == Joined(Failed(s.errorCode))
  {
  }

  /** Exit 0 after the message arrived completes the join at once. */
  lemma ExitAfterMessageProceeds(s: Arbiter, now: int, wait: int)
    requires Valid(s) && s.phase == Running && !s.closed && !s.error && s.received
    ensures Step(s, Close(0, now), wait).phase == Joined(Proceed)
    ensures Step(s, Close(0, now), wait).fields == s.fields
  {
  }

  /** Exit 0 before the message starts the wait: `next1` has fired and the timer runs. */
  lemma ExitBeforeMessageWaits(s: Arbiter, now: int, wait: int)
    requires Valid(s) && s.phase == Running && !s.closed && !s.error && !s.received
    ensures Step(s, Close(0, now), wait).phase == Running
    ensures Step(s, Close(0, now), wait).exitHalf == Some(None)
    ensures Step(s, Close(0, now), wait).deadline == Some(now + TimerDelay(wait))
  {
  }

  /** The timer running out with no message fails the step with `ERR_INVALID_STEP_RESULT`. */
  lemma TimeoutFails(s: Arbiter, now: int, wait: int)
    requires Valid(s) && s.phase == Running && s.deadline.Some? && now >= s.deadline.value
    ensures Step(s, Tick(now), wait).phase == Joined(Failed(InvalidStepResult))
  {
  }

  /** Before the deadline, the clock changes nothing. */
  lemma NoTimeoutBeforeDeadline(s: Arbiter, now: int, wait: int)
    requires s.deadline.Some? && now < s.deadline.value
    ensures Step(s, Tick(now), wait) == s
  {
  }

  /**
   * A message arriving while the wait runs completes the join, and the step
   * proceeds with the message's entries written over the step result; a
   * message with an entry lacking `=` kills the process instead.
   */
  lemma LateMessageSettles(s: Arbiter, text: string, wait: int)
    requires Valid(s) && s.phase == Running && s.deadline.Some?
    ensures !Apply(s.fields, text).1 ==>
      Step(s, Message(text), wait).phase == Joined(Proceed) &&
      Step(s, Message(text), wait).fields == Apply(s.fields, text).0
    ensures Apply(s.fields, text).1 ==> Step(s, Message(text), wait).phase == Crashed
  {
  }

  /** Stderr chunks in the order they arrive. */
  function StderrEvents(chunks: seq<string>): (events: seq<Event>)
    ensures |events| == |chunks|
    ensures forall i :: 0 <= i < |chunks| ==> events[i] == Stderr(chunks[i])
  {
    if chunks == [] then [] else StderrEvents(chunks[..|chunks| - 1]) + [Stderr(chunks[|chunks| - 1])]
  }

  /** The error code after reading every chunk: the last `ERR_` line over all of them. */
  function ScanChunks(code: string, chunks: seq<string>): string {
    if chunks == [] then code
    else LastErrorToken(ScanChunks(code, chunks[..|chunks| - 1]), ChunkLines(chunks[|chunks| - 1]))
  }

  /** While the driver runs, stderr only moves the error code along. */
  lemma {:induction false} StderrOnlyMovesErrorCode(s: Arbiter, chunks: seq<string>, wait: int)
    requires s.phase == Running
    ensures Run(s, StderrEvents(chunks), wait) == s.(errorCode := ScanChunks(s.errorCode, chunks))
    decreases |chunks|
  {
    if chunks != [] {
      var init := chunks[..|chunks| - 1];
      var events := StderrEvents(chunks);
      assert events[..|events| - 1] == StderrEvents(init);
      StderrOnlyMovesErrorCode(s, init, wait);
    }
  }

  /**
   * A driver that writes `chunks` to stderr and exits with a non-zero code
   * fails the step with the last `ERR_` line it wrote, or `ERR_STEP_EXIT_CODE`
   * when it wrote none.
   */
  lemma ExitCodeFromStderr(s: Arbiter, chunks: seq<string>, code: int, now: int, wait: int)
    requires Valid(s) && s.phase == Running && !s.closed && !s.error && code != 0
    ensures Run(s, StderrEvents(chunks) + [Close(code, now)], wait).phase ==
      Joined(Failed(ScanChunks(s.errorCode, chunks)))
  {
    var events := StderrEvents(chunks) + [Close(code, now)];
    assert events[..|events| - 1] == StderrEvents(chunks);
    StderrOnlyMovesErrorCode(s, chunks, wait);
    NonZeroExitFails(s.(errorCode := ScanChunks(s.errorCode, chunks)), code, now, wait);
  }

  /** What the handler hands on once the join has run. */
  datatype Completion =
    | Acquire(fields: StepResult)  // `waitForFiles` is scheduled with the step result
    | Done(error: string)          // `done(err)`

  /**
   * The handler as written: a failure reaching the final step function is
   * handed to `this.skip(err)`, and that function is the last one, so nothing
   * passes the error on to `done`.
   */
  function CompletionAsWritten(s: Arbiter): Option<Completion> {
    if s.phase == Joined(Proceed) then Some(Acquire(s.fields)) else None
  }

  /** The handler as intended: every failure of the join reaches `done`. */
  function Completes(s: Arbiter): (c: Option<Completion>)
    ensures s.phase == Joined(Proceed) ==> c == Some(Acquire(s.fields))
    ensures s.phase.Joined? && s.phase.outcome.Failed? ==> c == Some(Done(s.phase.outcome.code))
    ensures c.Some? <==> s.phase.Joined?
  {
    match s.phase
    case Joined(Proceed) => Some(Acquire(s.fields))
    case Joined(Failed(code)) => Some(Done(code))
    case _ => None
  }

  /** A driver that exits with code 3 and writes nothing to stderr. */
  const FailingExit: seq<Event> := [Bound(false), Close(3, 0)]

  /** As written, that step settles with `ERR_STEP_EXIT_CODE` but never completes. */
  lemma FailureLostAsWritten()
    ensures Run(Initial, FailingExit, DefaultWait).phase == Joined(Failed(StepExitCode))
    ensures CompletionAsWritten(Run(Initial, FailingExit, DefaultWait)) == None
    ensures Completes(Run(Initial, FailingExit, DefaultWait)) == Some(Done(StepExitCode))
  {
    assert FailingExit[..1] == [Bound(false)];
    assert FailingExit[..1][..0] == [];
  }

  /** With the intended completion, every settled join reports: its outcome or its error. */
  lemma {:induction false} SettledStepCompletes(s: Arbiter, events: seq<Event>, wait: int)
    requires Valid(s)
    requires Run(s, events, wait).phase.Joined?
    ensures Completes(Run(s, events, wait)).Some?
    ensures Completes(Run(s, events, wait)) == Some(Acquire(Run(s, events, wait).fields)) ==>
      Run(s, events, wait).received
  {
    RunKeepsValid(s, events, wait);
  }

  /** The handler: one method per listener, over the handler's own variables. */
  class CognexStep {
    var stepResult: StepResult
    var received: bool
    var errorCode: string
    var error: bool
    var exitHalf: Option<Option<string>>
    var resultHalf: bool
    var phase: Phase
    var closed: bool
    var deadline: Option<int>
    const wait: int

    function State(): Arbiter
      reads this
    {
      Arbiter(phase, stepResult, received, errorCode, error, exitHalf, resultHalf, closed, deadline)
    }

    constructor(device: Device, config: Config)
      ensures State() == Initial
      ensures wait == WaitFor(device, config)
    {
      stepResult := InitialStepResult;
      received := false;
      errorCode := StepExitCode;
      error := false;
      exitHalf := None;
      resultHalf := false;
      phase := Binding;
      closed := false;
      deadline := None;
      wait := WaitFor(device, config);
    }

    method Join()
      modifies this
      ensures State() == TryJoin(old(State()))
    {
      if exitHalf.Some? && resultHalf {
        phase := Joined(JoinOutcome(exitHalf.value, received));
      }
    }

    method CallExitHalf(err: Option<string>)
      modifies this
      ensures State() == FireExit(old(State()), err)
    {
      if exitHalf.None? {
        exitHalf := Some(err);
        Join();
      }
    }

    method CallResultHalf()
      modifies this
      ensures State() == FireResult(old(State()))
    {
      if !resultHalf {
        resultHalf := true;
        Join();
      }
    }

    method FailWith(code: string)
      modifies this
      ensures State() == Fail(old(State()), code)
    {
      error := true;
      CallExitHalf(Some(code));
      CallResultHalf();
    }

    /** The bind callback. */
    method OnBound(failed: bool)
      modifies this
      ensures State() == Step(old(State()), Bound(failed), wait)
    {
      if phase == Binding {
        if failed {
          phase := Joined(Failed(UdpBindError));
        } else {
          phase := Running;
        }
      }
    }

    /** The socket's `message` listener (registered with `once`). */
    method OnMessage(text: string)
      modifies this
      ensures State() == Step(old(State()), Message(text), wait)
    {
      if phase == Running && !received {
        ghost var applied := Apply(stepResult, text);
        ghost var s1 := State().(fields := applied.0, received := true);
        received := true;
        var written, threw := WriteEntries(stepResult, MessageEntries(text));
        assert written == applied.0 && threw == applied.1;
        stepResult := written;
        assert State() == s1;
        if threw {
          phase := Crashed;
        } else if deadline.Some? {
          CallResultHalf();
        }
      }
    }

    /** The driver's stderr `data` listener. */
    method OnStderr(chunk: string)
      modifies this
      ensures State() == Step(old(State()), Stderr(chunk), wait)
    {
      if phase == Running {
        errorCode := ScanChunk(errorCode, chunk);
      }
    }

    /** The driver's `error` listener. */
    method OnSpawnError()
      modifies this
      ensures State() == Step(old(State()), SpawnError, wait)
    {
      if phase == Running {
        error := true;
        FailWith(SpawnErrorCode);
      }
    }

    /** The driver's `close` listener. */
    method OnClose(code: int, now: int)
      modifies this
      ensures State() == Step(old(State()), Close(code, now), wait)
    {
      if phase == Running && !closed {
        closed := true;
        if error {
        } else if code != 0 {
          FailWith(errorCode);
        } else {
          CallExitHalf(None);
          if !received {
            deadline := Some(now + TimerDelay(wait));
          } else {
            CallResultHalf();
          }
        }
      }
    }

    /** The clock reaching `now`: the `setTimeout(next2, ...)` callback once the wait is over. */
    method OnTick(now: int)
      modifies this
      ensures State() == Step(old(State()), Tick(now), wait)
    {
      if phase == Running && deadline.Some? && now >= deadline.value {
        CallResultHalf();
      }
    }

    method Handle(e: Event)
      modifies this
      ensures State() == Step(old(State()), e, wait)
    {
      match e
      case Bound(failed) => OnBound(failed);
      case Message(text) => OnMessage(text);
      case Stderr(chunk) => OnStderr(chunk);
      case SpawnError => OnSpawnError();
      case Close(code, now) => OnClose(code, now);
      case Tick(now) => OnTick(now);
    }

    /** Deliver a trace of events in order. */
    method Consume(events: seq<Event>)
      modifies this
      ensures State() == Run(old(State()), events, wait)
    {
      var i := 0;
      while i < |events|
        invariant 0 <= i <= |events|
        invariant State() == Run(old(State()), events[..i], wait)
      {
        Handle(events[i]);
        assert events[..i + 1][..i] == events[..i];
        i := i + 1;
      }
      assert events[..i] == events;
    }
  }
}
