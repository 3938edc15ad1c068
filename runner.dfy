/**
 * The run: read the input document and the configuration, prepare the FTP
 * drop directory, run every inspection step in order through the device
 * handler its device's type selects, and report one result document.
 * Each phase either passes on or skips straight to the report with an
 * error code; a step's error is passed through every later step unchanged.
 */
module Runner {
  import opened Wrappers
  import opened Strings
  import opened Values
  import opened Settings
  import opened Cleanup

  const InvalidInput := "ERR_INVALID_INPUT"
  const InvalidConfig := "ERR_INVALID_CONFIG"
  const FtpSetup := "ERR_FTP_SETUP"
  const UnknownDevice := "ERR_UNKNOWN_DEVICE"
  const UnsupportedDevice := "ERR_UNSUPPORTED_DEVICE"
  const RootPlaceholder := "{root}"
  const DefaultFtpRoot := "{root}/ftp"

  /** The input document as parsed; `steps` is `None` when it is not an array. */
  datatype Input = Input(steps: Option<seq<StepConfig>>)

  /** The input is accepted exactly when `steps` is a non-empty array. */
  function InputError(input: Option<Input>): (err: Option<string>)
    ensures err.None? <==> input.Some? && input.value.steps.Some? && |input.value.steps.value| > 0
    ensures err.Some? ==> err.value == InvalidInput
  {
    if input.None? || input.value.steps.None? || input.value.steps.value == [] then Some(InvalidInput)
    else None
  }

  /** `config.production.json` when it loads, otherwise `config.json`; `None` when neither does. */
  function LoadConfig(production: Option<Config>, fallback: Option<Config>): (cfg: Option<Config>)
    ensures cfg.Some? <==> production.Some? || fallback.Some?
    ensures production.Some? ==> cfg == production
    ensures production.None? ==> cfg == fallback
  {
    if production.Some? then production else fallback
  }

  /** The configuration is accepted exactly when it loaded and `devices` has at least one key. */
  function ConfigError(cfg: Option<Config>): (err: Option<string>)
    ensures err.None? <==> cfg.Some? && cfg.value.devices.Some? && |cfg.value.devices.value| > 0
    ensures err.Some? ==> err.value == InvalidConfig
  {
    if cfg.None? || cfg.value.devices.None? || cfg.value.devices.value == [] then Some(InvalidConfig)
    else None
  }

  /**
   * `app.config.ftp` after start-up: `null` when absent or switched off with
   * `enabled: false`; otherwise the root, defaulting to `{root}/ftp`, with its
   * first `{root}` replaced by the application root.
   */
  function NormaliseFtp(ftp: Option<Ftp>, appRoot: string): (r: Option<FtpSettings>)
    ensures r.None? <==> ftp.None? || ftp.value.enabled == Some(false)
    ensures r.Some? ==> r.value.waitForFiles == ftp.value.waitForFiles
  {
    if ftp.None? || ftp.value.enabled == Some(false) then None
    else Some(FtpSettings(ReplaceFirst(StringOr(ftp.value.root, DefaultFtpRoot), RootPlaceholder, appRoot),
                          ftp.value.waitForFiles))
  }

  /**
   * Without a configured root the drop directory is `ftp` under the
   * application root, the application root being read as a replacement
   * text (its `$` patterns expand); a root without `$` is inserted as it is.
   */
  lemma {:induction false} DefaultRootUnderAppRoot(ftp: Ftp, appRoot: string)
    requires ftp.enabled != Some(false)
    requires ftp.root.None? || ftp.root.value == ""
    ensures NormaliseFtp(Some(ftp), appRoot) ==
      Some(FtpSettings(Substitution(appRoot, RootPlaceholder, "", "/ftp") + "/ftp", ftp.waitForFiles))
    ensures (forall k :: 0 <= k < |appRoot| ==> appRoot[k] != '$') ==>
      NormaliseFtp(Some(ftp), appRoot) == Some(FtpSettings(appRoot + "/ftp", ftp.waitForFiles))
  {
    var s := DefaultFtpRoot;
    assert StringOr(ftp.root, DefaultFtpRoot) == s;
    assert s[..|RootPlaceholder|] == RootPlaceholder;
    assert IndexOf(s, RootPlaceholder) == Some(0);
    assert s[..0] == "" && s[|RootPlaceholder|..] == "/ftp";
    var sub := Substitution(appRoot, RootPlaceholder, "", "/ftp");
    assert ReplaceFirst(s, RootPlaceholder, appRoot) == "" + sub + "/ftp";
    assert "" + sub + "/ftp" == sub + "/ftp";
    assert NormaliseFtp(Some(ftp), appRoot) == Some(FtpSettings(ReplaceFirst(s, RootPlaceholder, appRoot), ftp.waitForFiles));
    if forall k :: 0 <= k < |appRoot| ==> appRoot[k] != '$' {
      LiteralSubstitution(appRoot, RootPlaceholder, "", "/ftp");
    }
  }

  /**
   * A configured root keeps everything but its leftmost `{root}`, which
   * becomes the application root read as a replacement text (as it is when
   * it holds no `$`); a root without `{root}` is used as given.
   */
  lemma {:induction false} ConfiguredRoot(ftp: Ftp, appRoot: string)
    requires ftp.enabled != Some(false)
    requires ftp.root.Some? && ftp.root.value != ""
    ensures var s := ftp.root.value;
      var r := NormaliseFtp(Some(ftp), appRoot).value.root;
      ((forall j :: !OccursAt(s, RootPlaceholder, j)) ==> r == s) &&
      (forall i :: OccursAt(s, RootPlaceholder, i) && NoEarlierOccurrence(s, RootPlaceholder, i) ==>
         r == s[..i] + Substitution(appRoot, RootPlaceholder, s[..i], s[i + |RootPlaceholder|..]) +
              s[i + |RootPlaceholder|..])
  {
    ReplaceFirstSpec(ftp.root.value, RootPlaceholder, appRoot);
  }

  /** A configured root and an application root without `$`: the leftmost `{root}` becomes the application root. */
  lemma {:induction false} ConfiguredLiteralRoot(ftp: Ftp, appRoot: string, i: int)
    requires ftp.enabled != Some(false)
    requires ftp.root.Some? && ftp.root.value != ""
    requires forall k :: 0 <= k < |appRoot| ==> appRoot[k] != '$'
    requires OccursAt(ftp.root.value, RootPlaceholder, i) && NoEarlierOccurrence(ftp.root.value, RootPlaceholder, i)
    ensures NormaliseFtp(Some(ftp), appRoot).value.root ==
      ftp.root.value[..i] + appRoot + ftp.root.value[i + |RootPlaceholder|..]
  {
    ReplaceFirstLiteral(ftp.root.value, RootPlaceholder, appRoot, i);
  }

  /** Clearing the drop directory fails only when FTP is on and its root cannot be listed. */
  function SetupError(ftp: Option<FtpSettings>, dir: Option<seq<Node>>): (err: Option<string>)
    ensures err.Some? <==> ftp.Some? && dir.None?
    ensures err.Some? ==> err.value == FtpSetup
  {
    if ftp.Some? && dir.None? then Some(FtpSetup) else None
  }

  /** The lookup key for `devices[stepConfig.device]`: an absent id is the key `"undefined"`. */
  function DeviceKey(device: Option<string>): string {
    if device.Some? then device.value else "undefined"
  }

  /** `devices[key]`: the device filed under the first entry with that id. */
  function Lookup(devices: seq<DeviceEntry>, key: string): (r: Option<Device>)
    ensures r.None? <==> forall i :: 0 <= i < |devices| ==> devices[i].id != key
    ensures r.Some? ==> exists i :: 0 <= i < |devices| && devices[i].id == key && devices[i].device == r.value
  {
    if devices == [] then None
    else if devices[0].id == key then Some(devices[0].device)
    else
      var r := Lookup(devices[1..], key);
      assert forall i :: 1 <= i < |devices| ==> devices[1..][i - 1] == devices[i];
      r
  }

  /** `!stepConfig.device`: no id, or the empty id. */
  predicate Unnamed(step: StepConfig) {
    step.device.None? || step.device.value == ""
  }

  /**
   * A step naming no device is given the sole configured device's id when
   * exactly one device is configured; any other step is left as it is.
   */
  function DefaultDevice(step: StepConfig, devices: seq<DeviceEntry>): (r: StepConfig)
    ensures r.program == step.program && r.startedAt == step.startedAt
    ensures Unnamed(step) && |devices| == 1 ==> r.device == Some(devices[0].id)
    ensures !(Unnamed(step) && |devices| == 1) ==> r == step
  {
    if Unnamed(step) && |devices| == 1 then step.(device := Some(devices[0].id)) else step
  }

  /** What `createStepHandler` captures for one step: its (defaulted) settings and its device, if any. */
  datatype Slot = Slot(config: StepConfig, device: Option<Device>)

  function Resolve(step: StepConfig, devices: seq<DeviceEntry>): (slot: Slot)
    ensures slot.config == DefaultDevice(step, devices)
  {
    var config := DefaultDevice(step, devices);
    Slot(config, Lookup(devices, DeviceKey(config.device)))
  }

  /**
   * A step resolves to a device exactly when its (defaulted) id is a key of
   * `devices`; with a single device configured, a step naming none always
   * resolves to it.
   */
  lemma ResolveSpec(step: StepConfig, devices: seq<DeviceEntry>)
    ensures var slot := Resolve(step, devices);
      (slot.device.Some? <==> exists i :: 0 <= i < |devices| && devices[i].id == DeviceKey(slot.config.device)) &&
      (Unnamed(step) && |devices| == 1 ==> slot.device == Some(devices[0].device))
  {
    var slot := Resolve(step, devices);
    if slot.device.None? {
      forall i | 0 <= i < |devices|
        ensures devices[i].id != DeviceKey(slot.config.device)
      {
      }
    }
  }

  /** The slots for all steps, built up front before any step runs. */
  function Prepared(steps: seq<StepConfig>, devices: seq<DeviceEntry>): (slots: seq<Slot>)
    ensures |slots| == |steps|
    ensures forall i :: 0 <= i < |steps| ==> slots[i] == Resolve(steps[i], devices)
  {
    seq(|steps|, i requires 0 <= i < |steps| => Resolve(steps[i], devices))
  }

  /**
   * What a device handler does with a step, given its settings as passed
   * (with `startedAt` stamped): the step result it pushed to the run's
   * results and the error it completed with, if any.
   */
  datatype DeviceRun = DeviceRun(result: StepResult, err: Option<string>)

  /**
   * The step chain so far: the settings of the steps reached (stamped when
   * dispatched), the pushed step results, and the error being passed on.
   */
  datatype Chain = Chain(configs: seq<StepConfig>, results: seq<StepResult>, error: Option<string>)

  /**
   * One step handler. An error from before is passed on. A step whose device
   * did not resolve fails with `ERR_UNKNOWN_DEVICE` unstamped; otherwise
   * `startedAt` is stamped with `now`, an unsupported device type fails with
   * `ERR_UNSUPPORTED_DEVICE`, and a supported one runs its device handler.
   */
  function Dispatch(c: Chain, i: nat, slot: Slot, registry: set<string>,
                    handler: (nat, StepConfig, Device) -> DeviceRun, now: int): Chain
  {
    if c.error.Some? then c.(configs := c.configs + [slot.config])
    else if slot.device.None? then Chain(c.configs + [slot.config], c.results, Some(UnknownDevice))
    else
      var stamped := slot.config.(startedAt := Some(now));
      if slot.device.value.kind !in registry then Chain(c.configs + [stamped], c.results, Some(UnsupportedDevice))
      else
        var run := handler(i, stamped, slot.device.value);
        Chain(c.configs + [stamped], c.results + [run.result], run.err)
  }

  /** The first `n` step handlers, in order, from an empty chain; `clock(i)` is the time step `i` starts. */
  function RunChain(slots: seq<Slot>, registry: set<string>, handler: (nat, StepConfig, Device) -> DeviceRun,
                    clock: nat -> int, n: nat): (c: Chain)
    requires n <= |slots|
    ensures |c.configs| == n && |c.results| <= n
  {
    if n == 0 then Chain([], [], None)
    else Dispatch(RunChain(slots, registry, handler, clock, n - 1), n - 1, slots[n - 1], registry, handler, clock(n - 1))
  }

  /** A device that did not resolve fails the step before `startedAt` is stamped. */
  lemma UnknownDeviceUnstamped(c: Chain, i: nat, slot: Slot, registry: set<string>,
                               handler: (nat, StepConfig, Device) -> DeviceRun, now: int)
    requires c.error.None? && slot.device.None?
    ensures Dispatch(c, i, slot, registry, handler, now) == Chain(c.configs + [slot.config], c.results, Some(UnknownDevice))
  {
  }

  /** An unsupported device type fails the step with `startedAt` already stamped. */
  lemma UnsupportedDeviceStamped(c: Chain, i: nat, slot: Slot, registry: set<string>,
                                 handler: (nat, StepConfig, Device) -> DeviceRun, now: int)
    requires c.error.None? && slot.device.Some? && slot.device.value.kind !in registry
    ensures var d := Dispatch(c, i, slot, registry, handler, now);
      d.error == Some(UnsupportedDevice) && d.results == c.results &&
      d.configs == c.configs + [slot.config.(startedAt := Some(now))]
  {
  }

  /**
   * Once a step has raised an error, every later handler passes it on
   * unchanged: the error, the results and the settings reached stay as they
   * were, and no later step is stamped or dispatched.
   */
  lemma {:induction false} FirstErrorWins(slots: seq<Slot>, registry: set<string>,
                                          handler: (nat, StepConfig, Device) -> DeviceRun,
                                          clock: nat -> int, k: nat, n: nat)
    requires k <= n <= |slots|
    requires RunChain(slots, registry, handler, clock, k).error.Some?
    ensures var ck := RunChain(slots, registry, handler, clock, k);
      var cn := RunChain(slots, registry, handler, clock, n);
      cn.error == ck.error && cn.results == ck.results && cn.configs[..k] == ck.configs &&
      forall j :: k <= j < n ==> cn.configs[j] == slots[j].config
    decreases n
  {
    if n > k {
      FirstErrorWins(slots, registry, handler, clock, k, n - 1);
      var prev := RunChain(slots, registry, handler, clock, n - 1);
      var cn := RunChain(slots, registry, handler, clock, n);
      assert prev.error.Some?;
      assert cn == prev.(configs := prev.configs + [slots[n - 1].config]);
      assert cn.configs[..n - 1] == prev.configs;
      assert cn.configs[..k] == prev.configs[..k];
      forall j | k <= j < n
        ensures cn.configs[j] == slots[j].config
      {
        if j < n - 1 {
          assert cn.configs[j] == prev.configs[j];
        }
      }
    } else {
      assert RunChain(slots, registry, handler, clock, n).configs[..k] == RunChain(slots, registry, handler, clock, n).configs;
    }
  }

  /** An error at the end was raised by exactly one step, and passed on unchanged from there. */
  lemma {:induction false} ErrorHasOrigin(slots: seq<Slot>, registry: set<string>,
                                          handler: (nat, StepConfig, Device) -> DeviceRun,
                                          clock: nat -> int, n: nat)
    requires n <= |slots|
    requires RunChain(slots, registry, handler, clock, n).error.Some?
    ensures exists k ::
              && 0 <= k < n
              && RunChain(slots, registry, handler, clock, k).error.None?
              && RunChain(slots, registry, handler, clock, n).error == RunChain(slots, registry, handler, clock, k + 1).error
    decreases n
  {
    var prev := RunChain(slots, registry, handler, clock, n - 1);
    if prev.error.Some? {
      ErrorHasOrigin(slots, registry, handler, clock, n - 1);
      var k :| 0 <= k < n - 1 && RunChain(slots, registry, handler, clock, k).error.None? &&
        prev.error == RunChain(slots, registry, handler, clock, k + 1).error;
      assert RunChain(slots, registry, handler, clock, n).error == prev.error;
    } else {
      assert RunChain(slots, registry, handler, clock, n - 1).error.None?;
    }
  }

  /**
   * A chain that ends without error ran every step: each resolved to a
   * device of a supported type, was stamped with its start time, ran its
   * device handler without error, and left that handler's step result at
   * its own position.
   */
  lemma {:induction false} CleanChain(slots: seq<Slot>, registry: set<string>,
                                      handler: (nat, StepConfig, Device) -> DeviceRun,
                                      clock: nat -> int, n: nat)
    requires n <= |slots|
    requires RunChain(slots, registry, handler, clock, n).error.None?
    ensures var c := RunChain(slots, registry, handler, clock, n);
      |c.results| == n &&
      forall i :: 0 <= i < n ==>
        slots[i].device.Some? && slots[i].device.value.kind in registry &&
        c.configs[i] == slots[i].config.(startedAt := Some(clock(i))) &&
        handler(i, c.configs[i], slots[i].device.value) == DeviceRun(c.results[i], None)
    decreases n
  {
    if n > 0 {
      var prev := RunChain(slots, registry, handler, clock, n - 1);
      var c := RunChain(slots, registry, handler, clock, n);
      assert prev.error.None?;
      CleanChain(slots, registry, handler, clock, n - 1);
      var slot := slots[n - 1];
      var stamped := slot.config.(startedAt := Some(clock(n - 1)));
      assert slot.device.Some? && slot.device.value.kind in registry;
      var run := handler(n - 1, stamped, slot.device.value);
      assert c == Chain(prev.configs + [stamped], prev.results + [run.result], run.err);
      forall i | 0 <= i < n
        ensures slots[i].device.Some? && slots[i].device.value.kind in registry
        ensures c.configs[i] == slots[i].config.(startedAt := Some(clock(i)))
        ensures handler(i, c.configs[i], slots[i].device.value) == DeviceRun(c.results[i], None)
      {
        if i < n - 1 {
          assert c.configs[i] == prev.configs[i] && c.results[i] == prev.results[i];
        }
      }
    }
  }

  /** The output document: the judgement and the step results, or only the error code. */
  datatype Document = Success(judgement: bool, steps: seq<StepResult>) | Failure(error: string)

  /** `stepResults.every(step => step.result)` */
  function Every(results: seq<StepResult>): bool {
    results == [] || (Truthy(Field(results[0], "result")) && Every(results[1..]))
  }

  /** The judgement passes exactly when every step result's `result` is truthy. */
  lemma {:induction false} EveryIsConjunction(results: seq<StepResult>)
    ensures Every(results) <==> forall i :: 0 <= i < |results| ==> Truthy(Field(results[i], "result"))
  {
    if results != [] {
      EveryIsConjunction(results[1..]);
      assert forall i :: 1 <= i < |results| ==> results[1..][i - 1] == results[i];
    }
  }

  /**
   * The report: on error only the code; otherwise the judgement over every
   * step result, and the results themselves in the order they were pushed.
   */
  function MakeDocument(err: Option<string>, results: seq<StepResult>): (doc: Document)
    ensures doc.Failure? <==> err.Some?
    ensures err.Some? ==> doc.error == err.value
    ensures doc.Success? ==> doc.steps == results
    ensures doc.Success? ==> (doc.judgement <==> forall i :: 0 <= i < |results| ==> Truthy(Field(results[i], "result")))
  {
    EveryIsConjunction(results);
    if err.Some? then Failure(err.value) else Success(Every(results), results)
  }

  /** The process exit status: 1 exactly when the run failed. */
  function ExitStatus(doc: Document): (status: int)
    ensures status == 1 <==> doc.Failure?
    ensures status == 0 <==> doc.Success?
  {
    if doc.Failure? then 1 else 0
  }

  /**
   * Everything the run depends on from outside: the parsed input, the two
   * configuration files (`None` when one does not load), the application
   * root, the FTP directory's entries (`None` when it cannot be listed), the
   * device types the registry knows, the device handlers and the clock.
   */
  datatype Environment = Environment(
    input: Option<Input>,
    production: Option<Config>,
    fallback: Option<Config>,
    root: string,
    ftpDir: Option<seq<Node>>,
    registry: set<string>,
    handler: (nat, StepConfig, Device) -> DeviceRun,
    clock: nat -> int)

  /** The report of a whole run: the first phase that fails decides it. */
  function Outcome(env: Environment): (doc: Document)
    ensures InputError(env.input).Some? ==> doc == Failure(InvalidInput)
    ensures InputError(env.input).None? && ConfigError(LoadConfig(env.production, env.fallback)).Some? ==>
      doc == Failure(InvalidConfig)
    ensures InputError(env.input).None? && ConfigError(LoadConfig(env.production, env.fallback)).None? ==>
      var cfg := LoadConfig(env.production, env.fallback).value;
      (SetupError(NormaliseFtp(cfg.ftp, env.root), env.ftpDir).Some? ==> doc == Failure(FtpSetup)) &&
      (SetupError(NormaliseFtp(cfg.ftp, env.root), env.ftpDir).None? ==>
        var slots := Prepared(env.input.value.steps.value, cfg.devices.value);
        var chain := RunChain(slots, env.registry, env.handler, env.clock, |slots|);
        doc == MakeDocument(chain.error, chain.results))
  {
    if InputError(env.input).Some? then Failure(InvalidInput)
    else
      var cfg := LoadConfig(env.production, env.fallback);
      if ConfigError(cfg).Some? then Failure(InvalidConfig)
      else if SetupError(NormaliseFtp(cfg.value.ftp, env.root), env.ftpDir).Some? then Failure(FtpSetup)
      else
        var slots := Prepared(env.input.value.steps.value, cfg.value.devices.value);
        var chain := RunChain(slots, env.registry, env.handler, env.clock, |slots|);
        MakeDocument(chain.error, chain.results)
  }

  /**
   * A successful run had a valid input and configuration, and reports one
   * step result per input step, in step order, each the result of that
   * step's device handler on the step's settings stamped with its start time.
   */
  lemma SuccessfulRun(env: Environment)
    requires Outcome(env).Success?
    ensures env.input.Some? && env.input.value.steps.Some?
    ensures var cfg := LoadConfig(env.production, env.fallback);
      cfg.Some? && cfg.value.devices.Some? &&
      var steps := env.input.value.steps.value;
      var slots := Prepared(steps, cfg.value.devices.value);
      |Outcome(env).steps| == |steps| &&
      forall i :: 0 <= i < |steps| ==>
        slots[i].device.Some? &&
        env.handler(i, slots[i].config.(startedAt := Some(env.clock(i))), slots[i].device.value) ==
          DeviceRun(Outcome(env).steps[i], None)
  {
    var cfg := LoadConfig(env.production, env.fallback);
    var slots := Prepared(env.input.value.steps.value, cfg.value.devices.value);
    CleanChain(slots, env.registry, env.handler, env.clock, |slots|);
  }

  /**
   * A run that fails past its set-up fails with the error one step raised:
   * every step before it ran cleanly, and every later step passed the error on.
   */
  lemma FailedRun(env: Environment)
    requires InputError(env.input).None?
    requires ConfigError(LoadConfig(env.production, env.fallback)).None?
    requires SetupError(NormaliseFtp(LoadConfig(env.production, env.fallback).value.ftp, env.root), env.ftpDir).None?
    requires Outcome(env).Failure?
    ensures var slots := Prepared(env.input.value.steps.value, LoadConfig(env.production, env.fallback).value.devices.value);
      exists k ::
        && 0 <= k < |slots|
        && RunChain(slots, env.registry, env.handler, env.clock, k).error.None?
        && RunChain(slots, env.registry, env.handler, env.clock, k + 1).error == Some(Outcome(env).error)
  {
    var cfg := LoadConfig(env.production, env.fallback);
    var slots := Prepared(env.input.value.steps.value, cfg.value.devices.value);
    ErrorHasOrigin(slots, env.registry, env.handler, env.clock, |slots|);
  }

  /** The global `app` object, filled in phase by phase. */
  class App {
    const root: string
    var steps: seq<StepConfig>
    var config: Config
    var ftp: Option<FtpSettings>
    var ftpDir: Option<seq<Node>>
    var slots: seq<Slot>
    var stepResults: seq<StepResult>
    var error: Option<string>

    constructor(root: string, ftpDir: Option<seq<Node>>)
      ensures this.root == root && this.ftpDir == ftpDir
      ensures steps == [] && config == Config(None, None, None, Undefined) && ftp == None
      ensures slots == [] && stepResults == [] && error == None
    {
      this.root := root;
      this.ftpDir := ftpDir;
      steps := [];
      config := Config(None, None, None, Undefined);
      ftp := None;
      slots := [];
      stepResults := [];
      error := None;
    }

    /** The first phase: take the parsed input, or skip to the report with `ERR_INVALID_INPUT`. */
    method ReadInput(input: Option<Input>)
      modifies this
      ensures error == InputError(input)
      ensures error.None? ==> steps == input.value.steps.value
      ensures error.Some? ==> steps == old(steps)
      ensures config == old(config) && ftp == old(ftp) && ftpDir == old(ftpDir)
      ensures slots == old(slots) && stepResults == old(stepResults)
    {
      if input.None? || input.value.steps.None? || |input.value.steps.value| == 0 {
        error := Some(InvalidInput);
        return;
      }
      steps := input.value.steps.value;
      error := None;
    }

    /** The second phase: load a configuration, or skip to the report with `ERR_INVALID_CONFIG`. */
    method ReadConfig(production: Option<Config>, fallback: Option<Config>)
      modifies this
      ensures error == ConfigError(LoadConfig(production, fallback))
      ensures error.None? ==> config == LoadConfig(production, fallback).value
      ensures steps == old(steps) && ftp == old(ftp) && ftpDir == old(ftpDir)
      ensures slots == old(slots) && stepResults == old(stepResults)
    {
      if production.Some? {
        config := production.value;
      } else if fallback.Some? {
        config := fallback.value;
      } else {
        error := Some(InvalidConfig);
        return;
      }
      if config.devices.None? || |config.devices.value| == 0 {
        error := Some(InvalidConfig);
        return;
      }
      error := None;
    }

    /** The third phase: normalise the FTP settings and clear the drop directory. */
    method SetUpFtp()
      modifies this
      ensures ftp == NormaliseFtp(old(config).ftp, root)
      ensures error == SetupError(ftp, old(ftpDir))
      ensures ftp.Some? && old(ftpDir).Some? ==> ftpDir == Some(Cleared(old(ftpDir).value))
      ensures ftp.None? ==> ftpDir == old(ftpDir)
      ensures steps == old(steps) && config == old(config)
      ensures slots == old(slots) && stepResults == old(stepResults)
    {
      error := None;
      if config.ftp.None? || config.ftp.value.enabled == Some(false) {
        ftp := None;
        return;
      }
      var given := config.ftp.value;
      var rootPath := StringOr(given.root, DefaultFtpRoot);
      ftp := Some(FtpSettings(ReplaceFirst(rootPath, RootPlaceholder, root), given.waitForFiles));
      if ftpDir.None? {
        error := Some(FtpSetup);
        return;
      }
      var kept := Rmdir(ftpDir.value);
      ftpDir := Some(kept);
    }

    /** `createStepHandler` for every step, in order, before the first one runs. */
    method PrepareSteps()
      modifies this
      requires config.devices.Some?
      ensures config == old(config) && ftp == old(ftp) && ftpDir == old(ftpDir)
      ensures stepResults == old(stepResults) && error == old(error)
      ensures slots == Prepared(old(steps), config.devices.value)
      ensures |steps| == |slots| && forall i :: 0 <= i < |steps| ==> steps[i] == slots[i].config
    {
      var devices := config.devices.value;
      var configs := steps;
      var built := [];
      var i := 0;
      while i < |configs|
        invariant 0 <= i <= |configs| && |configs| == |steps|
        invariant |built| == i
        invariant forall j :: 0 <= j < i ==> built[j] == Resolve(steps[j], devices) && configs[j] == built[j].config
        invariant configs[i..] == steps[i..]
      {
        var slot := Resolve(configs[i], devices);
        configs := configs[i := slot.config];
        built := built + [slot];
        i := i + 1;
      }
      steps, slots := configs, built;
    }

    /** The fourth phase: run the prepared step handlers one after the other. */
    method RunSteps(registry: set<string>, handler: (nat, StepConfig, Device) -> DeviceRun, clock: nat -> int)
      modifies this
      requires error.None? && stepResults == []
      requires |steps| == |slots| && forall i :: 0 <= i < |steps| ==> steps[i] == slots[i].config
      ensures slots == old(slots) && config == old(config) && ftp == old(ftp) && ftpDir == old(ftpDir)
      ensures Chain(steps, stepResults, error) == RunChain(slots, registry, handler, clock, |slots|)
    {
      var configs, results, err := [], [], None;
      var i := 0;
      while i < |slots|
        invariant 0 <= i <= |slots|
        invariant Chain(configs, results, err) == RunChain(slots, registry, handler, clock, i)
      {
        var slot := slots[i];
        if err.Some? {
          configs := configs + [slot.config];
        } else {
          match slot.device {
            case None =>
              configs := configs + [slot.config];
              err := Some(UnknownDevice);
            case Some(device) =>
              var stamped := slot.config.(startedAt := Some(clock(i)));
              configs := configs + [stamped];
              if device.kind !in registry {
                err := Some(UnsupportedDevice);
              } else {
                var run := handler(i, stamped, device);
                results := results + [run.result];
                err := run.err;
              }
          }
        }
        i := i + 1;
      }
      steps, stepResults, error := configs, results, err;
    }

    /** The last phase: the report and the exit status. */
    method Report() returns (doc: Document, status: int)
      ensures doc == MakeDocument(error, stepResults)
      ensures status == ExitStatus(doc)
    {
      if error.Some? {
        doc := Failure(error.value);
        status := 1;
      } else {
        var judgement := true;
        var i := 0;
        while i < |stepResults|
          invariant 0 <= i <= |stepResults|
          invariant judgement == Every(stepResults[..i])
        {
          judgement := judgement && Truthy(Field(stepResults[i], "result"));
          EveryAppend(stepResults[..i], stepResults[i]);
          assert stepResults[..i + 1] == stepResults[..i] + [stepResults[i]];
          i := i + 1;
        }
        assert stepResults[..i] == stepResults;
        doc := Success(judgement, stepResults);
        status := 0;
      }
    }

    /** The whole run: each phase runs only while no earlier one has failed. */
    method Execute(env: Environment) returns (doc: Document, status: int)
      modifies this
      requires root == env.root && ftpDir == env.ftpDir
      requires error.None? && stepResults == []
      ensures doc == Outcome(env)
      ensures status == ExitStatus(doc)
    {
      ReadInput(env.input);
      if error.None? {
        ReadConfig(env.production, env.fallback);
        if error.None? {
          SetUpFtp();
          if error.None? {
            PrepareSteps();
            RunSteps(env.registry, env.handler, env.clock);
          }
        }
      }
      doc, status := Report();
    }
  }

  lemma {:induction false} EveryAppend(results: seq<StepResult>, last: StepResult)
    ensures Every(results + [last]) == (Every(results) && Truthy(Field(last, "result")))
    decreases |results|
  {
    if results != [] {
      assert (results + [last])[1..] == results[1..] + [last];
      EveryAppend(results[1..], last);
    } else {
      assert ([] + [last])[1..] == [];
    }
  }
}
