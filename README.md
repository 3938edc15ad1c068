# walkner-ipt-vision: inspection run, device steps and image acquisition

This project models the core of walkner-ipt-vision in Dafny and proves properties of the model.
walkner-ipt-vision is a command-line runner for visual inspection steps. It does the following:

1. It reads an input document listing steps, and a configuration listing devices and an optional FTP drop directory.
2. It clears the drop directory.
3. It runs each step through the handler for its device's type:
   - Cognex IS2000: a driver process plus a UDP telemetry message.
   - Keyence CV-X: a driver process that prints JSON.
4. After a step's driver succeeds, it acquires the step's image. The image is either the file the driver named or the newest fresh file in the drop directory. It is converted, optionally overlaid with an `.svg`, and stored as base64.
5. It prints one result document: success with a judgement and every step result, or failure with the first error code.

The model is organised by source file:

| Dafny file | module | models |
|---|---|---|
| `runner.dfy` | `Runner` | `lib/index.js`: the input and configuration checks, FTP normalisation, device resolution, the fail-fast step chain, the result document and the exit status, plus the `App` class whose methods are the phases |
| `cleanup.dfy` | `Cleanup` | `rmdir` in `lib/index.js` over an abstract directory tree |
| `cognex.dfy` | `Cognex` | `lib/devices/cognex-is2000.js`: the completion arbiter as a state machine over events, and the `CognexStep` class whose methods are the event listeners |
| `telemetry.dfy` | `Telemetry` | the telemetry message parser of `lib/devices/cognex-is2000.js` |
| `keyence.dfy` | `Keyence` | `lib/devices/keyence-cv-x.js`: the driver's events, the once-guarded completion, and the `KeyenceStep` class |
| `stderr_scan.dfy` | `StderrScan` | the stderr `ERR_` scanner both device handlers share |
| `acquisition.dfy` | `Acquisition` | `lib/devices/waitForFiles.js`: the candidates, the stale filter and newest-first sort, the give-up / defer / select decision, the poll loop, the finalisation error mapping and the final `image` |
| `base64.dfy` | `Base64` | the base64 text of the final image (section 4 of RFC 4648) |
| `wrappers.dfy` | `Wrappers` | the `Option` type used for absent values |
| `strings.dfy` | `Strings` | the JavaScript string operations used: `trim`, `split`, `replace` of a string, `startsWith`, the test for a `.bmp` or `.jpg` ending in any case, and the decimal prefix `parseFloat` reads |
| `values.dfy` | `Values`, `Settings` | JavaScript values and truthiness, defaults read with `or`, the Node.js timer delay clamp, and the configuration and step records |

State that the source changes in place is modelled with classes:
- `Runner.App`: the global `app`.
- `Cognex.CognexStep` and `Keyence.KeyenceStep`: each handler's variables and flags.

Each class method is proved equal to a pure transition function (`Cognex.Step`, `Keyence.Step`, `Runner.RunChain`, …), and the properties are lemmas about those functions.

Loops in the source become methods with `while` loops proved against a specification function. These are:
- the stderr line loop;
- the telemetry entry loop;
- the `createStepHandler` loop;
- the chained step handlers;
- the `every` judgement;
- the `rmdir` walk;
- the self-rescheduling poll.

## Model

| member | source | states |
|---|---|---|
| Strings.TrimSpec | lib/devices/cognex-is2000.js:40 | `trim` removes white space at both ends and nothing else: the result occurs in the text, only white space surrounds it, and it neither starts nor ends with white space |
| Strings.IndexOfSpec | lib/index.js:85 | the search `replace` performs finds the leftmost occurrence, and finds none only when there is none |
| Strings.ReplaceFirstSpec | lib/index.js:85 | `replace` with a string pattern replaces only the leftmost occurrence, by the substitution of the replacement text, and leaves a text without one unchanged |
| Strings.LiteralSubstitution | lib/index.js:85 | a replacement text without `$` is inserted as it is |
| Strings.SubstitutionPatterns | lib/index.js:85 | in a replacement text, `$$` stands for `$`, `$&` for the match, `` $` `` for the text before it and `$'` for the text after it |
| Strings.GroupReferenceIsLiteral | lib/index.js:85 | `$` followed by a digit stays as written, since a string pattern has no capture groups |
| Strings.ReplaceFirstLiteral | lib/index.js:85 | with a replacement without `$`, the leftmost occurrence becomes the replacement text exactly |
| Strings.SplitJoin | lib/devices/cognex-is2000.js:41 | joining the pieces of `split` with the separator gives back the text; the first piece is a prefix of the text |
| Strings.SplitPiecesHaveNoSeparator | lib/devices/cognex-is2000.js:44 | no piece of `split` contains the separator |
| Strings.OverlayPath | lib/devices/waitForFiles.js:88 | a `.bmp`/`.jpg` path (any case) keeps everything but its last four characters, which become `.svg`; any other path is unchanged |
| Strings.ParsesNaturalText | lib/devices/cognex-is2000.js:49 | `parseFloat` reads the decimal text of every natural number back as that number |
| Strings.ParsesDecimalText | lib/devices/cognex-is2000.js:49 | `parseFloat` reads an optionally signed `whole.fraction` as that number, negated after `-`, and stops at the first character that is not a digit |
| Strings.ParsesIntegerText | lib/devices/cognex-is2000.js:49 | an optionally signed whole number followed by text that cannot continue it reads as that number |
| Strings.SignedPrefix | lib/devices/cognex-is2000.js:49 | a leading `-` negates the number that follows, a leading `+` keeps it |
| Strings.NegativeIntegerExample | lib/devices/cognex-is2000.js:49 | `parseFloat("-3")` is -3 |
| Strings.DecimalExample | lib/devices/cognex-is2000.js:49 | `parseFloat("2.5")` is 2.5 |
| Strings.TrailingTextExample | lib/devices/cognex-is2000.js:49 | `parseFloat("1abc")` is 1 |
| StderrScan.LastErrorTokenWins | lib/devices/cognex-is2000.js:97-107 | after a chunk's lines, the error code is the last line starting with `ERR_`, or the previous code when no line does |
| StderrScan.ScanChunk | lib/devices/keyence-cv-x.js:36-49 | the `data` listener's loop over the trimmed, CRLF-split chunk leaves exactly the code `LastErrorToken` gives |
| StderrScan.ScanAcrossChunks | lib/devices/cognex-is2000.js:95-108 | reading chunk after chunk gives the same code as reading all their lines at once: the last token overall wins |
| StderrScan.SingleTokenLineOverrides | lib/devices/keyence-cv-x.js:38-43 | a chunk that is one `ERR_…` line ended by CRLF replaces any earlier code with that token |
| Telemetry.StripControl | lib/devices/cognex-is2000.js:39 | no NUL, CR or LF remains after stripping |
| Telemetry.StripControlChar | lib/devices/cognex-is2000.js:39 | a NUL, CR or LF on its own is deleted, and any other character is kept; with `StripControlConcat` this fixes the result of every text |
| Telemetry.StripControlConcat | lib/devices/cognex-is2000.js:39 | stripping works character by character: it distributes over concatenation |
| Telemetry.StripControlKeepsCleanText | lib/devices/cognex-is2000.js:39 | a text without NUL, CR or LF is unchanged |
| Telemetry.Coerce | lib/devices/cognex-is2000.js:49-54 | a value becomes a number exactly when `parseFloat` reads a decimal prefix, and then that number; otherwise it stays the string |
| Telemetry.EntryNeedsEquals | lib/devices/cognex-is2000.js:44-47 | an entry parses exactly when it holds an `=` (otherwise `value.trim()` throws) |
| Telemetry.VerdictEntry | lib/devices/cognex-is2000.js:44-62 | an entry's key is the trimmed text before the first `=`, and its value is the trimmed text up to the next `=`; a key containing `pass` or `result` has its first `pass` renamed to `result`, and its value becomes `true` exactly when it reads as the number 1 |
| Telemetry.SplitAfterFirstSeparator | lib/devices/cognex-is2000.js:44 | splitting at the first `=` gives the key text, then the pieces of the rest |
| Telemetry.UnnamedKeyUnchanged | lib/devices/cognex-is2000.js:62 | a key no entry names keeps its presence and value in the step result |
| Telemetry.LastEntryWins | lib/devices/cognex-is2000.js:42-63 | entries are written in order, so a key holds the value of the last entry naming it |
| Telemetry.WriteEntries | lib/devices/cognex-is2000.js:37-63 | the listener's loop writes the parsed entries in order, stops at the first entry without `=`, and reports that the listener threw |
| Telemetry.ParseAllStopsAtFailure | lib/devices/cognex-is2000.js:42-63 | once an entry fails to parse, later entries change nothing |
| Cognex.WaitFor | lib/devices/cognex-is2000.js:153 | the wait is the device's `waitForResults`, else the configuration's, else 5000 ms; a zero setting counts as absent |
| Cognex.Arguments | lib/devices/cognex-is2000.js:84-89 | the driver gets `--host` with the host, `--user` with the user (default `admin`), `--pass` with the password (default empty) and `--program` with the program (default empty) |
| Cognex.JoinOutcome | lib/devices/cognex-is2000.js:161-174 | the join proceeds exactly when `next1` carried no error and the message arrived; otherwise it fails with `next1`'s error first, then with `ERR_INVALID_STEP_RESULT` |
| Cognex.InitialIsValid | lib/devices/cognex-is2000.js:14-23 | the handler starts in a state satisfying the arbiter invariant |
| Cognex.StepKeepsValid | lib/devices/cognex-is2000.js:110-158 | every event keeps the invariant: `next2` never fires before `next1`, the join happens exactly when both fired, the timer runs only after a clean exit without a message, and a settled outcome matches the halves |
| Cognex.RunKeepsValid | lib/devices/cognex-is2000.js:110-158 | every trace of events keeps the invariant |
| Cognex.SettledIsFinal | lib/devices/cognex-is2000.js:132-135 | once the join has run (or the process died), later events change nothing |
| Cognex.HalvesFireOnce | lib/devices/cognex-is2000.js:110-111 | `next1` keeps the argument of its first call and `next2` stays called, whatever event follows |
| Cognex.HalvesFireOnceOverRun | lib/devices/cognex-is2000.js:110-118 | the same over every trace of events |
| Cognex.BindFailureFails | lib/devices/cognex-is2000.js:71-81 | in the intended reading of the third finding, a failed bind settles the step with `ERR_UDP_BIND`; a successful one starts the driver |
| Cognex.BindFailureHangsAsWritten | lib/devices/cognex-is2000.js:26-29 | as written, a failed bind only reaches the logging `error` listener: with no `listening` event the step stays in its initial state, never settled and with no driver spawned |
| Cognex.SpawnErrorFails | lib/devices/cognex-is2000.js:120-128 | a spawn error before the exit fails the step with `ERR_SPAWN` |
| Cognex.NonZeroExitFails | lib/devices/cognex-is2000.js:137-143 | a non-zero exit before any failure fails the step with the captured error code |
| Cognex.ExitAfterMessageProceeds | lib/devices/cognex-is2000.js:145-158 | exit 0 after the message completes the join at once, keeping the written step result |
| Cognex.ExitBeforeMessageWaits | lib/devices/cognex-is2000.js:145-154 | exit 0 before the message fires `next1` and starts the timer with the clamped wait |
| Cognex.TimeoutFails | lib/devices/cognex-is2000.js:153 | the timer running out with no message fails the step with `ERR_INVALID_STEP_RESULT` |
| Cognex.NoTimeoutBeforeDeadline | lib/devices/cognex-is2000.js:153 | before the deadline the clock changes nothing |
| Cognex.LateMessageSettles | lib/devices/cognex-is2000.js:65-68 | a message arriving while the wait runs completes the join with its entries written; a malformed one kills the process |
| Cognex.StderrOnlyMovesErrorCode | lib/devices/cognex-is2000.js:95-108 | while the driver runs, stderr chunks only move the error code along |
| Cognex.ExitCodeFromStderr | lib/devices/cognex-is2000.js:92-143 | a driver that writes stderr and exits non-zero fails with the last `ERR_` line it wrote, or `ERR_STEP_EXIT_CODE` |
| Cognex.Completes | lib/devices/cognex-is2000.js:161-180 | the intended completion: a join that proceeds schedules image acquisition with the step result, and every failed join reaches `done` with its code |
| Cognex.FailureLostAsWritten | lib/devices/cognex-is2000.js:161-166 | as written, a driver exiting with code 3 settles the step with `ERR_STEP_EXIT_CODE`, yet nothing reaches `done` |
| Cognex.SettledStepCompletes | lib/devices/cognex-is2000.js:161-180 | with the intended completion, every settled join reports, and it goes on to acquisition only when the message arrived |
| Cognex.CognexStep.constructor | lib/devices/cognex-is2000.js:14-23 | the step result starts as `{result: false}`, the flags are clear and the code is `ERR_STEP_EXIT_CODE` |
| Cognex.CognexStep.Join | lib/devices/cognex-is2000.js:161-174 | the final step function runs when both halves have fired, with the outcome `JoinOutcome` gives |
| Cognex.CognexStep.CallExitHalf | lib/devices/cognex-is2000.js:110 | `next1` is once-guarded |
| Cognex.CognexStep.CallResultHalf | lib/devices/cognex-is2000.js:111 | `next2` is once-guarded |
| Cognex.CognexStep.FailWith | lib/devices/cognex-is2000.js:113-118 | `fail` sets `error`, then calls `next1(err)` and `next2()` |
| Cognex.CognexStep.OnBound | lib/devices/cognex-is2000.js:71-81 | the bind callback updates the state as `Step` does for `Bound`, a failed bind taken in the intended reading of the third finding |
| Cognex.CognexStep.OnMessage | lib/devices/cognex-is2000.js:31-69 | the message listener updates the state as `Step` does for `Message` |
| Cognex.CognexStep.OnStderr | lib/devices/cognex-is2000.js:95-108 | the stderr listener updates the state as `Step` does for `Stderr` |
| Cognex.CognexStep.OnSpawnError | lib/devices/cognex-is2000.js:120-128 | the `error` listener updates the state as `Step` does for `SpawnError` |
| Cognex.CognexStep.OnClose | lib/devices/cognex-is2000.js:130-159 | the `close` listener updates the state as `Step` does for `Close` |
| Cognex.CognexStep.OnTick | lib/devices/cognex-is2000.js:153 | the timer firing updates the state as `Step` does for `Tick` |
| Cognex.CognexStep.Handle | lib/devices/cognex-is2000.js:31-159 | each event reaches its listener, and the new state is `Step` on it |
| Cognex.CognexStep.Consume | lib/devices/cognex-is2000.js:18-182 | the handler after a trace of events is in the state `Run` gives |
| Keyence.Arguments | lib/devices/keyence-cv-x.js:19-23 | the driver gets `--host` with the host, `--port` with the port (default 8502) and `--program` with the program (default 0) |
| Keyence.CompletionIsFinal | lib/devices/keyence-cv-x.js:51 | `complete` takes effect once: the first completion stays the step's outcome over every later trace |
| Keyence.SpawnErrorCompletes | lib/devices/keyence-cv-x.js:53-59 | a spawn error completes a pending step with `ERR_SPAWN` |
| Keyence.NonZeroExitCompletes | lib/devices/keyence-cv-x.js:79-85 | a non-zero exit completes a pending step with the captured code |
| Keyence.CleanExit | lib/devices/keyence-cv-x.js:63-78 | exit 0 with JSON that parses merges the parsed fields over the step result (a parsed key wins, the others stay, nothing else appears) and starts acquisition; JSON that does not parse completes with `ERR_INVALID_STEP_RESULT` |
| Keyence.StdoutAccumulates | lib/devices/keyence-cv-x.js:30-33 | the text parsed at exit is every stdout chunk, in order |
| Keyence.SuccessfulStep | lib/devices/keyence-cv-x.js:14-78 | a driver that prints parseable JSON and exits 0, followed by a successful acquisition, completes without error and holds `{result: false}`, the parsed fields over it, and the image |
| Keyence.KeyenceStep.constructor | lib/devices/keyence-cv-x.js:14-27 | the step result starts as `{result: false}`, stdout is empty and the code is `ERR_STEP_EXIT_CODE` |
| Keyence.KeyenceStep.CallComplete | lib/devices/keyence-cv-x.js:51 | `complete` is `done` once-guarded |
| Keyence.KeyenceStep.OnStdout | lib/devices/keyence-cv-x.js:30-33 | the stdout listener updates the state as `Step` does for `Stdout` |
| Keyence.KeyenceStep.OnStderr | lib/devices/keyence-cv-x.js:36-49 | the stderr listener updates the state as `Step` does for `Stderr` |
| Keyence.KeyenceStep.OnSpawnError | lib/devices/keyence-cv-x.js:53-59 | the `error` listener updates the state as `Step` does for `SpawnError` |
| Keyence.KeyenceStep.OnClose | lib/devices/keyence-cv-x.js:61-86 | the `close` listener updates the state as `Step` does for `Close` |
| Keyence.KeyenceStep.OnAcquired | lib/devices/keyence-cv-x.js:69 | acquisition completing updates the state as `Step` does for `Acquired` |
| Keyence.KeyenceStep.Handle | lib/devices/keyence-cv-x.js:30-86 | each event reaches its listener, and the new state is `Step` on it |
| Keyence.KeyenceStep.Consume | lib/devices/keyence-cv-x.js:10-87 | the handler after a trace of events is in the state `Run` gives |
| Base64.Encode | lib/devices/waitForFiles.js:197 | the base64 text has four characters per started group of three bytes |
| Base64.EncodeDecode | lib/devices/waitForFiles.js:197 | decoding the base64 text gives back the bytes |
| Base64.EncodeAlphabet | lib/devices/waitForFiles.js:197 | the text uses only the RFC 4648 alphabet, with `=` only in the last two places |
| Acquisition.DirectCandidates | lib/devices/waitForFiles.js:16-19 | the reported image is the direct candidate exactly when it is a string ending in `.bmp` or `.jpg`, in any case |
| Acquisition.StatSpec | lib/devices/waitForFiles.js:42-61 | statting succeeds exactly when every path exists, and then gives each path with its mtime, in order |
| Acquisition.FreshSpec | lib/devices/waitForFiles.js:63-64 | the files kept are exactly those with mtime strictly after the step's `startedAt`, each as often as before |
| Acquisition.NewestFirst | lib/devices/waitForFiles.js:65 | the sort is a permutation of the files |
| Acquisition.NewestFirstSorted | lib/devices/waitForFiles.js:65 | the sort orders the files by descending mtime |
| Acquisition.CandidatesSpec | lib/devices/waitForFiles.js:42-65 | the candidates are exactly the fresh stat results, newest first; the first is the newest |
| Acquisition.Budget | lib/devices/waitForFiles.js:67 | the wait budget is the FTP `waitForFiles` (default 10000 ms) plus 100 ms |
| Values.IntOr | lib/devices/waitForFiles.js:30-38 | a numeric setting read with JavaScript's `or`: the setting when present and non-zero, the fallback otherwise; the poll keeps its first time this way, and the wait and port defaults are read this way |
| Acquisition.Decide | lib/devices/waitForFiles.js:69-87 | give up exactly when there is no candidate and the budget has passed; select exactly when the newest candidate is at least 1000 ms old, and then select it; otherwise defer |
| Acquisition.RetryBeforeHorizon | lib/devices/waitForFiles.js:69-80 | a poll is rescheduled only before the time by which, on an unchanging disk, it gives up or selects |
| Acquisition.FreshDirectCandidateKept | lib/devices/waitForFiles.js:54-87 | a fresh direct candidate is deferred until it is 1000 ms old and is selected from then on |
| Acquisition.Poll | lib/devices/waitForFiles.js:28-80 | the self-rescheduling poll on an unchanging disk ends, never in a retry; each tick's outcome is the pure decision at that tick's time, and every earlier tick was a retry |
| Acquisition.DirectImageForgottenAsWritten | lib/devices/waitForFiles.js:21-26 | as written, a reported `a.bmp` still settling at the first poll is forgotten: the next poll finishes with no image, where a poll remembering it defers and then selects it |
| Acquisition.PolledDirectImageIsSelected | lib/devices/waitForFiles.js:16-87 | with the reported path remembered, a poll that ends selects the fresh reported image |
| Acquisition.OverlayIsNotImage | lib/devices/waitForFiles.js:88 | the overlay path of an image differs from it and is not itself an image path |
| Acquisition.FinalError | lib/devices/waitForFiles.js:118-184 | `ERR_IMAGE_CONVERT` exactly when the converter failed or wrote nothing; `ERR_IMAGE_OVERLAY` exactly when it succeeded, the `.svg` exists and compositing failed; `ERR_IMAGE_SAVE` exactly when both succeeded, `writeLastImage` is a string and the save failed; no error exactly when every stage that runs succeeds |
| Acquisition.FinalImageSpec | lib/devices/waitForFiles.js:186-199 | on error the image is null; on success it is undefined when `writeLastImage` is truthy, otherwise base64 text that decodes to the final bytes |
| Acquisition.OverlayReplacesImage | lib/devices/waitForFiles.js:140-163 | the composite replaces the converted image only when the `.svg` exists and compositing succeeded |
| Acquisition.Finalise | lib/devices/waitForFiles.js:92-200 | the finalisation chain leaves `FinalError` and sets only `image`, to `FinalImage` |
| Acquisition.WaitForFiles | lib/devices/waitForFiles.js:12-202 | only `image` changes; with no FTP and no direct candidate it finishes at once with a null image; without a selection the image is null; with one, the error and image are the finalisation's; a fresh reported image is the one selected; otherwise the outcome is the first invocation, `ticks` reschedules in, that is not rescheduled: a selection exactly when it chose that path, no image when it gave up, and the process dies exactly when a stat threw |
| Cleanup.ClearedHasNoFiles | lib/index.js:193-208 | after the walk no file remains at any depth |
| Cleanup.ClearedKeepsDirectories | lib/index.js:193-208 | the walk keeps every directory, with its nesting, and adds none |
| Cleanup.Rmdir | lib/index.js:193-208 | the recursive walk, directory by directory in listing order, leaves exactly `Cleared` |
| Runner.InputError | lib/index.js:21-39 | the input is accepted exactly when it parses and `steps` is a non-empty array; otherwise `ERR_INVALID_INPUT` |
| Runner.LoadConfig | lib/index.js:45-64 | `config.production.json` is used when it loads, otherwise `config.json` |
| Runner.ConfigError | lib/index.js:59-72 | the configuration is accepted exactly when one loaded and `devices` has a key; otherwise `ERR_INVALID_CONFIG` |
| Runner.NormaliseFtp | lib/index.js:76-85 | FTP is off exactly when the section is absent or `enabled` is `false`; otherwise its wait setting is kept |
| Runner.DefaultRootUnderAppRoot | lib/index.js:85 | without a configured root, the drop directory is `ftp` under the application root, read as a replacement text; exactly the application root when it holds no `$` |
| Runner.ConfiguredRoot | lib/index.js:85 | a configured root has its leftmost `{root}` replaced by the substitution of the application root, and is used as given without one |
| Runner.ConfiguredLiteralRoot | lib/index.js:85 | with an application root without `$`, the leftmost `{root}` becomes the application root exactly |
| Runner.SetupError | lib/index.js:87-97 | clearing fails with `ERR_FTP_SETUP` exactly when FTP is on and its root cannot be listed |
| Runner.Lookup | lib/index.js:160 | a device is found exactly when some entry has the key, and it is that entry's device |
| Runner.DefaultDevice | lib/index.js:153-158 | a step naming no device gets the sole device's id when exactly one is configured; any other step is unchanged |
| Runner.ResolveSpec | lib/index.js:153-160 | a step resolves exactly when its id is a key of `devices`; with a single device, a step naming none resolves to it |
| Runner.Prepared | lib/index.js:103-108 | one handler per step, in step order, each for that step |
| Runner.UnknownDeviceUnstamped | lib/index.js:171-177 | an unresolved device fails the step with `ERR_UNKNOWN_DEVICE` before `startedAt` is stamped |
| Runner.UnsupportedDeviceStamped | lib/index.js:179-187 | an unsupported device type fails the step with `ERR_UNSUPPORTED_DEVICE`, with `startedAt` already stamped |
| Runner.FirstErrorWins | lib/index.js:162-167 | once a step raised an error, every later handler passes it on unchanged: no later step is stamped or dispatched, and no result is added |
| Runner.ErrorHasOrigin | lib/index.js:103-112 | a final error was raised by one step and passed on unchanged from there |
| Runner.CleanChain | lib/index.js:162-190 | a chain ending without error resolved every step to a supported device, stamped it with its start time, and ran its handler without error; each handler's result sits at its step's position |
| Runner.EveryIsConjunction | lib/index.js:136 | the judgement passes exactly when every step result's `result` is truthy |
| Runner.MakeDocument | lib/index.js:123-139 | the document is a failure exactly when there is an error, and then holds only its code; a success holds the judgement and the results in push order |
| Runner.ExitStatus | lib/index.js:142 | the exit status is 1 exactly when the run failed, and 0 otherwise |
| Runner.Outcome | lib/index.js:16-112 | the first phase that fails decides the document: an invalid input gives `ERR_INVALID_INPUT` whatever else holds; then a bad configuration gives `ERR_INVALID_CONFIG`; then an FTP root that cannot be cleared gives `ERR_FTP_SETUP`; past set-up, the document is the one the step chain's error and results make |
| Runner.FailedRun | lib/index.js:99-112 | a run that fails past set-up fails with the error exactly one step raised: the chain was clean before that step and carried its error from there |
| Runner.SuccessfulRun | lib/index.js:99-139 | a successful run had a valid input and configuration, and reports one result per input step, in order, each the result of that step's handler on its stamped settings |
| Runner.App.constructor | lib/index.js:8-14 | the application starts with an empty input, configuration and results |
| Runner.App.ReadInput | lib/index.js:17-40 | the first phase records `InputError` and keeps the steps only when they are accepted |
| Runner.App.ReadConfig | lib/index.js:41-73 | the second phase records `ConfigError` of the loaded configuration and keeps it when accepted |
| Runner.App.SetUpFtp | lib/index.js:74-98 | the third phase normalises the FTP settings, clears the drop directory to `Cleared`, and records `SetupError` |
| Runner.App.PrepareSteps | lib/index.js:103-108 | every step's device is defaulted and resolved up front, in order |
| Runner.App.RunSteps | lib/index.js:110-112 | the chained handlers leave the step settings, results and error that `RunChain` gives |
| Runner.App.Report | lib/index.js:114-143 | the last phase's loop computes the document `MakeDocument` gives and its exit status |
| Runner.App.Execute | lib/index.js:16-144 | the whole run, each phase running only while no earlier one failed, reports `Outcome` |

## Left out

- Processes, sockets, streams, timers and the file system are not run. Each becomes an event, a parameter, a snapshot or an abstract outcome:
  - Cognex events carry the clock reading (`now`).
  - The poll reads a clock function `clock(k)` per tick.
  - The disk is a fixed snapshot of listing and mtimes.
  - The FTP directory is a tree of `Cleanup.Node`.
  - The converter's output and the compositing result are parameters.
  - A save's success is a boolean.
- Logging and error messages are left out; only the error codes are modelled.
- `JSON.parse` of the Keyence output is an abstract partial function from text to fields. The input and configuration files arrive already parsed (`None` when unreadable).
- `parseFloat` is modelled on decimal text only (`[+-]digits[.digits]`, on reals). Exponents, `Infinity`, leading white space and floating-point rounding are left out. The poll uses whole milliseconds.
- Runner.RunChain: each device handler's outcome is a parameter `(step, settings, device) -> DeviceRun`, and the handler is assumed to call `done`. The handlers themselves are modelled in `Cognex` and `Keyence`. A handler that never completes is not covered: a process that dies, or the Cognex failure path of the second finding.
- `lib/devices/index.js` is not part of this model. The set of supported device types is a parameter, and `devices[type]` is membership in it. Prototype keys (`devices["constructor"]`) are not modelled.
- Runner.Lookup: `devices` is an ordered list of distinct ids standing for the object's key order. A device entry whose value is falsy (`null`) is not modelled, and neither is a non-string `device` id in a step.
- Cleanup.Rmdir: an `unlinkSync` failure and an unreadable subdirectory are not modelled. Only an unreadable FTP root yields `ERR_FTP_SETUP`.
- Telemetry/Cognex: a message with an entry lacking `=` makes the listener throw. The model records this as `Crashed`, and events after it are ignored. A `statSync` that throws in the poll is `StatFailed`/`Died`. The runner does not handle either; the process dies.
- Events that arrive after a step has settled are ignored. A UDP message is only accepted once the socket is bound.
- A driver killed by a signal (`close` with code `null`) counts as a non-zero exit.
- Acquisition.Poll: the clock is assumed positive at the first poll (`Date.now()` is never 0). Polls are assumed at least 100 ms apart, which is how `setTimeout(…, 100)` reschedules. The disk does not change while polling.
- Cognex.BindFailureFails: the step's state machine delivers a failed bind to the bind callback, the intended reading of the third finding. As written, `dgram` never passes an error to that callback, so the `ERR_UDP_BIND` branch cannot run; `Cognex.BindFailureHangsAsWritten` states what happens instead.
- Acquisition.WaitForFiles: the reported image is remembered across reschedules, as in the corrected reading of the first finding.
- Acquisition.NewestFirst: the sort is a stable insertion sort, but the tie order of files with equal mtimes is not stated as a property.
- `stepResult` is shared between the handler and `app.stepResults` by reference. The model passes it as a value: the runner receives each handler's final step result.
- A truthy `writeLastImage` that is not a string saves nothing and leaves `image` undefined. The model does the same: no save, `Undefined`.
- The `h5.step` library is not part of this model. Its behaviour is read from its use here:
  - a step function that creates no callback passes on to the next function;
  - `skip(err)` jumps to the last function with `err`;
  - `parallel()` callbacks join before the next function, which gets the first error.
- lib/ftp-server.js is not part of this model: it starts an FTP server and compares credentials.

## Findings

| source | as written | input that shows it | evidently intended | confidence | as-written member | corrected member |
|---|---|---|---|---|---|---|
| lib/devices/waitForFiles.js:21 | `stepResult.image` is set to null before the poll, and the reschedule at line 79 passes the same `stepResult`, so the next invocation finds no direct candidate | a driver reports `a.bmp` with mtime 500 in a step started at 0, with no FTP. The first poll at 1000 ms defers because the file is under 1000 ms old. The poll at 1100 ms finishes with no image. | the reported image stays the candidate until it settles, then is selected (at 1500 ms) | not executed | Acquisition.DirectImageForgottenAsWritten | Acquisition.PolledDirectImageIsSelected |
| lib/devices/cognex-is2000.js:161-166 | a failed join (exit code, spawn error or no message) reaches the final step function, which calls `this.skip(err)`. That function is the last one, so nothing passes the error to `done` | a driver that binds, writes nothing to stderr and exits with code 3: the join fails with `ERR_STEP_EXIT_CODE`, and the run never completes the step | every failed join calls `done(err)` with its code | not executed; this depends on how `h5.step` runs `skip` from the last function | Cognex.FailureLostAsWritten | Cognex.SettledStepCompletes |
| lib/devices/cognex-is2000.js:71-81 | `bind(port, host, this.next())`: `dgram` calls the bind callback only on `listening`, with no argument, and drops it on `error`. The `ERR_UDP_BIND` branch at lines 73-81 never runs, and a failed bind reaches only the `error` listener at lines 26-29, which logs | a UDP port already in use: `bind` fails, the error is logged, the driver is never spawned and the step never settles | a failed bind fails the step with `ERR_UDP_BIND` | not executed | Cognex.BindFailureHangsAsWritten | Cognex.BindFailureFails |
