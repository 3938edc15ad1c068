/**
 * The JSON-like values a step result holds, JavaScript truthiness, and the
 * settings read from the configuration and input documents.
 */
module Values {
  import opened Wrappers

  type byte = x: int | 0 <= x < 256

  /** A value stored under a key of a step result (a plain JavaScript object). */
  datatype Value =
    | Undefined
    | Null
    | Bool(b: bool)
    | Num(n: real)
    | Str(s: string)
    | Bytes(data: seq<byte>)  // a Node.js Buffer

  /** JavaScript truthiness: `false`, `0`, `''`, `null` and `undefined` are falsy; a Buffer is an object. */
  predicate Truthy(v: Value) {
    match v
    case Undefined => false
    case Null => false
    case Bool(b) => b
    case Num(n) => n != 0.0
    case Str(s) => s != ""
    case Bytes(_) => true
  }

  /** `a || b` */
  function Or(a: Value, b: Value): (r: Value)
    ensures Truthy(a) ==> r == a
    ensures !Truthy(a) ==> r == b
  {
    if Truthy(a) then a else b
  }

  /** The step result object: string keys to values. */
  type StepResult = map<string, Value>

  /** `stepResult[key]`, `undefined` when the key is absent. */
  function Field(r: StepResult, key: string): Value {
    if key in r then r[key] else Undefined
  }

  /** Both device handlers start every step from `{result: false}`. */
  const InitialStepResult: StepResult := map["result" := Bool(false)]

  /** `setting || fallback` for a numeric setting; `None` is an absent setting and `0` is falsy. */
  function IntOr(setting: Option<int>, fallback: int): (r: int)
    ensures setting.Some? && setting.value != 0 ==> r == setting.value
    ensures setting.None? || setting.value == 0 ==> r == fallback
  {
    if setting.Some? && setting.value != 0 then setting.value else fallback
  }

  /** `setting || fallback` for a string setting; `''` is falsy. */
  function StringOr(setting: Option<string>, fallback: string): (r: string)
    ensures setting.Some? && setting.value != "" ==> r == setting.value
    ensures setting.None? || setting.value == "" ==> r == fallback
  {
    if setting.Some? && setting.value != "" then setting.value else fallback
  }

  /** Node.js runs a timer whose delay is below 1 or above 2147483647 ms after 1 ms. */
  function TimerDelay(ms: int): (d: int)
    ensures 1 <= d <= 2147483647
    ensures 1 <= ms <= 2147483647 ==> d == ms
  {
    if 1 <= ms <= 2147483647 then ms else 1
  }
}

/** The configuration document and the steps of the input document. */
module Settings {
  import opened Wrappers
  import opened Values

  /** One entry of `devices` in the configuration (the UDP endpoint is left out). */
  datatype Device = Device(
    kind: string,                 // `type`
    host: string,
    port: Option<int>,
    user: Option<string>,
    pass: Option<string>,
    waitForResults: Option<int>)

  /** The `ftp` section: the file-drop ingress. */
  datatype Ftp = Ftp(enabled: Option<bool>, root: Option<string>, waitForFiles: Option<int>)

  /** The `ftp` section once normalised at start-up: the watched directory and the wait budget. */
  datatype FtpSettings = FtpSettings(root: string, waitForFiles: Option<int>)

  /** One key of `devices`, in the object's key order: the device id and its settings. */
  datatype DeviceEntry = DeviceEntry(id: string, device: Device)

  datatype Config = Config(
    devices: Option<seq<DeviceEntry>>,
    ftp: Option<Ftp>,
    waitForResults: Option<int>,
    writeLastImage: Value)

  /** One entry of the input's `steps`; `device` is `None` when the step names none. */
  datatype StepConfig = StepConfig(device: Option<string>, program: Value, startedAt: Option<int>)
}
