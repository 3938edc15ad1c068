/**
 * The single-channel (Keyence CV-X) step: the driver process writes one JSON
 * document to stdout and exits; its stderr may name the error code; a
 * once-guarded `complete` reports the step, after image acquisition when the
 * exit was clean.
 */
module Keyence {
  import opened Wrappers
  import opened Strings
  import opened Values
  import opened Settings
  import opened StderrScan

  const SpawnErrorCode := "ERR_SPAWN"
  const InvalidStepResult := "ERR_INVALID_STEP_RESULT"
  const DefaultPort := 8502

  /** The driver's command line: `--host`, `--port` (default 8502) and `--program` (default 0). */
  function Arguments(device: Device, step: StepConfig): (args: seq<Value>)
    ensures |args| == 6
    ensures args[0] == Str("--host") && args[2] == Str("--port") && args[4] == Str("--program")
    ensures args[1] == Str(device.host)
    ensures device.port.Some? && device.port.value != 0 ==> args[3] == Num(device.port.value as real)
    ensures device.port.None? || device.port.value == 0 ==> args[3] == Num(DefaultPort as real)
    ensures Truthy(step.program) ==> args[5] == step.program
    ensures !Truthy(step.program) ==> args[5] == Num(0.0)
  {
    [Str("--host"), Str(device.host),
     Str("--port"), Num(IntOr(device.port, DefaultPort) as real),
     Str("--program"), Or(step.program, Num(0.0))]
  }

  /**
   * The handler's variables: the step result, the stdout text gathered so
   * far, the captured error code, whether image acquisition was scheduled,
   * and what `complete` was first called with (`Some(None)` is success).
   */
  datatype Driver = Driver(
    fields: StepResult,
    stdout: string,
    errorCode: string,
    acquiring: bool,
    completed: Option<Option<string>>)

  const Initial := Driver(InitialStepResult, "", StepExitCode, false, None)

  /**
   * What the handler reacts to. `Acquired` is image acquisition finishing
   * with the image it left in the step result and its error, if any.
   */
  datatype Event =
    | Stdout(chunk: string)
    | Stderr(chunk: string)
    | SpawnError
    | Close(code: int)
    | Acquired(image: Value, err: Option<string>)

  /** `complete(err)`, the `_.once` wrapper around `done`. */
  function Complete(s: Driver, err: Option<string>): Driver {
    if s.completed.None? then s.(completed := Some(err)) else s
  }

  /**
   * One event. `parse` is `JSON.parse` followed by `Object.assign`'s reading of
   * the own properties of the result; `None` is a parse that throws.
   */
  function Step(s: Driver, e: Event, parse: string -> Option<StepResult>): Driver {
    match e
    case Stdout(chunk) => s.(stdout := s.stdout + chunk)
    case Stderr(chunk) => s.(errorCode := LastErrorToken(s.errorCode, ChunkLines(chunk)))
    case SpawnError => Complete(s, Some(SpawnErrorCode))
    case Close(code) =>
      if code != 0 then Complete(s, Some(s.errorCode))
      else if parse(s.stdout).Some? then s.(fields := s.fields + parse(s.stdout).value, acquiring := true)
      else Complete(s, Some(InvalidStepResult))
    case Acquired(image, err) =>
      if !s.acquiring then s
      else Complete(s.(fields := s.fields["image" := image]), err)
  }

  function Run(s: Driver, events: seq<Event>, parse: string -> Option<StepResult>): Driver
    decreases |events|
  {
    if events == [] then s
    else Step(Run(s, events[..|events| - 1], parse), events[|events| - 1], parse)
  }

  /** `complete` takes effect once: whatever completed the step first stays the step's outcome. */
  lemma {:induction false} CompletionIsFinal(s: Driver, events: seq<Event>, parse: string -> Option<StepResult>)
    requires s.completed.Some?
    ensures Run(s, events, parse).completed == s.completed
    decreases |events|
  {
    if events != [] {
      CompletionIsFinal(s, events[..|events| - 1], parse);
    }
  }

  /** A spawn error completes a pending step with `ERR_SPAWN`. */
  lemma SpawnErrorCompletes(s: Driver, parse: string -> Option<StepResult>)
    requires s.completed.None?
    ensures Step(s, SpawnError, parse).completed == Some(Some(SpawnErrorCode))
  {
  }

  /** A non-zero exit completes a pending step with the captured error code. */
  lemma NonZeroExitCompletes(s: Driver, code: int, parse: string -> Option<StepResult>)
    requires s.completed.None? && code != 0
    ensures Step(s, Close(code), parse).completed == Some(Some(s.errorCode))
  {
  }

  /**
   * A clean exit with stdout that parses writes the parsed fields over the
   * step result (a parsed key wins) and starts image acquisition without
   * completing; stdout that does not parse completes with `ERR_INVALID_STEP_RESULT`.
   */
  lemma CleanExit(s: Driver, parse: string -> Option<StepResult>)
    requires s.completed.None?
    ensures parse(s.stdout).Some? ==>
      var t := Step(s, Close(0), parse);
      t.acquiring && t.completed.None? &&
      (forall k :: k in parse(s.stdout).value ==> k in t.fields && t.fields[k] == parse(s.stdout).value[k]) &&
      (forall k :: k in s.fields && k !in parse(s.stdout).value ==> k in t.fields && t.fields[k] == s.fields[k]) &&
      (forall k :: k in t.fields ==> k in s.fields || k in parse(s.stdout).value)
    ensures parse(s.stdout).None? ==> Step(s, Close(0), parse).completed == Some(Some(InvalidStepResult))
  {
  }

  /** Stdout events in the order they arrive. */
  function StdoutEvents(chunks: seq<string>): (events: seq<Event>)
    ensures |events| == |chunks|
    ensures forall i :: 0 <= i < |chunks| ==> events[i] == Stdout(chunks[i])
  {
    if chunks == [] then [] else StdoutEvents(chunks[..|chunks| - 1]) + [Stdout(chunks[|chunks| - 1])]
  }

  function Concat(chunks: seq<string>): string {
    if chunks == [] then "" else Concat(chunks[..|chunks| - 1]) + chunks[|chunks| - 1]
  }

  /** `stdout += data`: the text parsed at exit is every chunk, in order. */
  lemma {:induction false} StdoutAccumulates(s: Driver, chunks: seq<string>, parse: string -> Option<StepResult>)
    ensures Run(s, StdoutEvents(chunks), parse) == s.(stdout := s.stdout + Concat(chunks))
    decreases |chunks|
  {
    if chunks == [] {
      assert s.stdout + "" == s.stdout;
    } else {
      var init := chunks[..|chunks| - 1];
      var events := StdoutEvents(chunks);
      assert events[..|events| - 1] == StdoutEvents(init);
      StdoutAccumulates(s, init, parse);
      assert s.stdout + Concat(init) + chunks[|chunks| - 1] == s.stdout + Concat(chunks);
    }
  }

  /**
   * The whole successful run of a step: the driver writes `chunks`, exits 0,
   * the output parses, and acquisition finishes without error. The step
   * completes with success and holds the parsed fields and the image.
   */
  lemma SuccessfulStep(chunks: seq<string>, image: Value, parse: string -> Option<StepResult>)
    requires parse(Concat(chunks)).Some?
    ensures var t := Run(Initial, StdoutEvents(chunks) + [Close(0), Acquired(image, None)], parse);
      t.completed == Some(None) &&
      t.fields == (InitialStepResult + parse(Concat(chunks)).value)["image" := image]
  {
    var tail := [Close(0), Acquired(image, None)];
    RunAppend(Initial, StdoutEvents(chunks), tail, parse);
    StdoutAccumulates(Initial, chunks, parse);
    assert "" + Concat(chunks) == Concat(chunks);
    var s0 := Initial.(stdout := Concat(chunks));
    assert tail[..1] == [Close(0)] && tail[..1][..0] == [];
    assert Run(s0, tail[..1][..0], parse) == s0;
    assert Run(s0, tail[..1], parse) == Step(s0, Close(0), parse);
    var parsed := parse(Concat(chunks)).value;
    var s1 := Step(s0, Close(0), parse);
    assert s1 == s0.(fields := InitialStepResult + parsed, acquiring := true);
    var s2 := Step(s1, Acquired(image, None), parse);
    assert s2 == s1.(fields := s1.fields["image" := image], completed := Some(None));
    assert Run(s0, tail, parse) == s2;
  }

  /** A trace run in two parts ends where the whole trace does. */
  lemma {:induction false} RunAppend(s: Driver, a: seq<Event>, b: seq<Event>, parse: string -> Option<StepResult>)
    ensures Run(s, a + b, parse) == Run(Run(s, a, parse), b, parse)
    decreases |b|
  {
    if b == [] {
      assert a + b == a;
    } else {
      var ab := a + b;
      assert ab[..|ab| - 1] == a + b[..|b| - 1];
      assert ab[|ab| - 1] == b[|b| - 1];
      RunAppend(s, a, b[..|b| - 1], parse);
    }
  }

  /** The handler: one method per listener, over the handler's own variables. */
  class KeyenceStep {
    var stepResult: StepResult
    var stdout: string
    var errorCode: string
    var acquiring: bool
    var completed: Option<Option<string>>
    const parse: string -> Option<StepResult>

    function State(): Driver
      reads this
    {
      Driver(stepResult, stdout, errorCode, acquiring, completed)
    }

    constructor(parse: string -> Option<StepResult>)
      ensures State() == Initial && this.parse == parse
    {
      stepResult := InitialStepResult;
      stdout := "";
      errorCode := StepExitCode;
      acquiring := false;
      completed := None;
      this.parse := parse;
    }

    method CallComplete(err: Option<string>)
      modifies this
      ensures State() == Complete(old(State()), err)
    {
      if completed.None? {
        completed := Some(err);
      }
    }

    method OnStdout(chunk: string)
      modifies this
      ensures State() == Step(old(State()), Stdout(chunk), parse)
    {
      stdout := stdout + chunk;
    }

    method OnStderr(chunk: string)
      modifies this
      ensures State() == Step(old(State()), Stderr(chunk), parse)
    {
      errorCode := ScanChunk(errorCode, chunk);
    }

    method OnSpawnError()
      modifies this
      ensures State() == Step(old(State()), SpawnError, parse)
    {
      CallComplete(Some(SpawnErrorCode));
    }

    method OnClose(code: int)
      modifies this
      ensures State() == Step(old(State()), Close(code), parse)
    {
      if code != 0 {
        CallComplete(Some(errorCode));
      } else {
        var parsed := parse(stdout);
        if parsed.Some? {
          stepResult := stepResult + parsed.value;
          acquiring := true;
        } else {
          CallComplete(Some(InvalidStepResult));
        }
      }
    }

    /** Image acquisition calling `complete` after writing the step's image. */
    method OnAcquired(image: Value, err: Option<string>)
      modifies this
      ensures State() == Step(old(State()), Acquired(image, err), parse)
    {
      if acquiring {
        stepResult := stepResult["image" := image];
        CallComplete(err);
      }
    }

    method Handle(e: Event)
      modifies this
      ensures State() == Step(old(State()), e, parse)
    {
      match e
      case Stdout(chunk) => OnStdout(chunk);
      case Stderr(chunk) => OnStderr(chunk);
      case SpawnError => OnSpawnError();
      case Close(code) => OnClose(code);
      case Acquired(image, err) => OnAcquired(image, err);
    }

    method Consume(events: seq<Event>)
      modifies this
      ensures State() == Run(old(State()), events, parse)
    {
      var i := 0;
      while i < |events|
        invariant 0 <= i <= |events|
        invariant State() == Run(old(State()), events[..i], parse)
      {
        Handle(events[i]);
        assert events[..i + 1][..i] == events[..i];
        i := i + 1;
      }
      assert events[..i] == events;
    }
  }
}
