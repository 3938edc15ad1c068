/**
 * Image acquisition after a clean step: find the image the device produced
 * (the path the driver reported, or the newest fresh file in the FTP drop
 * directory), wait until it has settled, then convert it, overlay its
 * graphics, save it and store it in the step result.
 */
module Acquisition {
  import opened Wrappers
  import opened Strings
  import opened Values
  import opened Settings
  import Base64

  const DefaultWaitForFiles := 10000
  /** Added to the configured wait before an empty directory counts as expired. */
  const Grace := 100
  /** A file younger than this may still be being written. */
  const SettleMs := 1000
  /** The delay before the next poll. */
  const RetryMs := 100

  const ImageConvertError := "ERR_IMAGE_CONVERT"
  const ImageOverlayError := "ERR_IMAGE_OVERLAY"
  const ImageSaveError := "ERR_IMAGE_SAVE"

  /**
   * A snapshot of the file system: the paths of the FTP root's entries in
   * listing order, and the modification time (in ms) of every path that exists.
   */
  datatype Disk = Disk(listing: seq<string>, mtime: map<string, int>)

  datatype FileStat = FileStat(path: string, mtime: int)

  /** The image path the driver left in `stepResult.image`, when it is a `.bmp` or `.jpg` path. */
  function DirectCandidates(image: Value): (paths: seq<string>)
    ensures paths == [] || (image.Str? && paths == [image.s])
    ensures paths != [] <==> image.Str? && HasImageExtension(image.s)
  {
    if image.Str? && HasImageExtension(image.s) then [image.s] else []
  }

  /** `statSync` of every path; `None` when one of them does not exist (the call throws). */
  function Stat(paths: seq<string>, disk: Disk): Option<seq<FileStat>>
    decreases |paths|
  {
    if paths == [] then Some([])
    else
      var last := paths[|paths| - 1];
      match Stat(paths[..|paths| - 1], disk)
      case None => None
      case Some(files) => if last in disk.mtime then Some(files + [FileStat(last, disk.mtime[last])]) else None
  }

  lemma {:induction false} StatSpec(paths: seq<string>, disk: Disk)
    ensures Stat(paths, disk).Some? <==> forall i :: 0 <= i < |paths| ==> paths[i] in disk.mtime
    ensures Stat(paths, disk).Some? ==>
      |Stat(paths, disk).value| == |paths| &&
      forall i :: 0 <= i < |paths| ==> Stat(paths, disk).value[i] == FileStat(paths[i], disk.mtime[paths[i]])
    decreases |paths|
  {
    if paths != [] {
      var init := paths[..|paths| - 1];
      StatSpec(init, disk);
      if Stat(paths, disk).None? && Stat(init, disk).Some? {
        assert paths[|paths| - 1] !in disk.mtime;
      }
      if Stat(init, disk).None? {
        var i :| 0 <= i < |init| && init[i] !in disk.mtime;
        assert paths[i] == init[i];
      }
    }
  }

  /** `files.filter(file => file.time > stepConfig.startedAt)` */
  function Fresh(files: seq<FileStat>, startedAt: int): seq<FileStat>
    decreases |files|
  {
    if files == [] then []
    else
      var rest := Fresh(files[..|files| - 1], startedAt);
      if files[|files| - 1].mtime > startedAt then rest + [files[|files| - 1]] else rest
  }

  /** Exactly the files modified after the step started are kept, each as often as it was listed. */
  lemma {:induction false} FreshSpec(files: seq<FileStat>, startedAt: int)
    ensures forall f: FileStat ::
      multiset(Fresh(files, startedAt))[f] == (if f.mtime > startedAt then multiset(files)[f] else 0)
    decreases |files|
  {
    if files != [] {
      var init, last := files[..|files| - 1], files[|files| - 1];
      FreshSpec(init, startedAt);
      assert files == init + [last];
      assert multiset(files) == multiset(init) + multiset{last};
      if last.mtime > startedAt {
        assert multiset(Fresh(files, startedAt)) == multiset(Fresh(init, startedAt)) + multiset{last};
      }
    }
  }

  predicate Sorted(files: seq<FileStat>) {
    forall i, j :: 0 <= i < j < |files| ==> files[i].mtime >= files[j].mtime
  }

  /** No file in `files` is newer than `m`. */
  predicate AtMost(files: seq<FileStat>, m: int) {
    forall i :: 0 <= i < |files| ==> files[i].mtime <= m
  }

  /** Put `f` after every file at least as new: a stable insertion. */
  function Insert(f: FileStat, sorted: seq<FileStat>): (r: seq<FileStat>)
    ensures |r| == |sorted| + 1
    ensures multiset(r) == multiset(sorted) + multiset{f}
    decreases |sorted|
  {
    if sorted == [] then [f]
    else if sorted[0].mtime < f.mtime then [f] + sorted
    else
      assert sorted == [sorted[0]] + sorted[1..];
      [sorted[0]] + Insert(f, sorted[1..])
  }

  lemma {:induction false} InsertAtMost(f: FileStat, sorted: seq<FileStat>, m: int)
    requires AtMost(sorted, m) && f.mtime <= m
    ensures AtMost(Insert(f, sorted), m)
    decreases |sorted|
  {
    if sorted != [] && sorted[0].mtime >= f.mtime {
      InsertAtMost(f, sorted[1..], m);
    }
  }

  lemma ConsSorted(x: FileStat, files: seq<FileStat>)
    requires Sorted(files) && AtMost(files, x.mtime)
    ensures Sorted([x] + files)
  {
  }

  lemma {:induction false} InsertKeepsSorted(f: FileStat, sorted: seq<FileStat>)
    requires Sorted(sorted)
    ensures Sorted(Insert(f, sorted))
    decreases |sorted|
  {
    if sorted == [] {
    } else if sorted[0].mtime < f.mtime {
      ConsSorted(f, sorted);
    } else {
      var rest := sorted[1..];
      InsertKeepsSorted(f, rest);
      assert AtMost(rest, sorted[0].mtime);
      InsertAtMost(f, rest, sorted[0].mtime);
      ConsSorted(sorted[0], Insert(f, rest));
    }
  }

  /** `.sort((a, b) => b.time - a.time)`: newest first, ties in listing order. */
  function NewestFirst(files: seq<FileStat>): (r: seq<FileStat>)
    ensures |r| == |files|
    ensures multiset(r) == multiset(files)
    decreases |files|
  {
    if files == [] then []
    else
      assert files == files[..|files| - 1] + [files[|files| - 1]];
      Insert(files[|files| - 1], NewestFirst(files[..|files| - 1]))
  }

  lemma {:induction false} NewestFirstSorted(files: seq<FileStat>)
    ensures Sorted(NewestFirst(files))
    decreases |files|
  {
    if files != [] {
      NewestFirstSorted(files[..|files| - 1]);
      InsertKeepsSorted(files[|files| - 1], NewestFirst(files[..|files| - 1]));
    }
  }

  /** The candidates of one poll: the fresh files, newest first; `None` when a `statSync` throws. */
  function Candidates(paths: seq<string>, disk: Disk, startedAt: int): Option<seq<FileStat>> {
    match Stat(paths, disk)
    case None => None
    case Some(files) => Some(NewestFirst(Fresh(files, startedAt)))
  }

  /**
   * The candidates are the fresh files and nothing else, newest first, so
   * the first one is at least as new as every fresh file.
   */
  lemma CandidatesSpec(paths: seq<string>, disk: Disk, startedAt: int)
    requires Stat(paths, disk).Some?
    ensures var c := Candidates(paths, disk, startedAt).value;
      Sorted(c) &&
      multiset(c) == multiset(Fresh(Stat(paths, disk).value, startedAt)) &&
      (forall f :: f in c <==> f in Stat(paths, disk).value && f.mtime > startedAt) &&
      (c != [] ==> forall f :: f in c ==> c[0].mtime >= f.mtime)
  {
    var files := Stat(paths, disk).value;
    var kept := Fresh(files, startedAt);
    var c := NewestFirst(kept);
    FreshMembers(files, startedAt);
    NewestFirstSorted(kept);
    forall f ensures f in c <==> f in kept {
      assert f in c <==> f in multiset(c);
      assert f in kept <==> f in multiset(kept);
    }
    SortedHeadIsNewest(c);
  }

  /** A file is fresh exactly when it was listed and modified after the step started. */
  lemma FreshMembers(files: seq<FileStat>, startedAt: int)
    ensures forall f :: f in Fresh(files, startedAt) <==> f in files && f.mtime > startedAt
  {
    FreshSpec(files, startedAt);
    forall f ensures f in Fresh(files, startedAt) <==> f in files && f.mtime > startedAt {
      assert f in Fresh(files, startedAt) <==> f in multiset(Fresh(files, startedAt));
      assert f in files <==> f in multiset(files);
    }
  }

  /** The head of a newest-first list is at least as new as every file in it. */
  lemma SortedHeadIsNewest(c: seq<FileStat>)
    requires Sorted(c)
    ensures c != [] ==> forall f :: f in c ==> c[0].mtime >= f.mtime
  {
    if c != [] {
      forall f | f in c ensures c[0].mtime >= f.mtime {
        var j :| 0 <= j < |c| && c[j] == f;
        if j > 0 {
          assert c[0].mtime >= c[j].mtime;
        }
      }
    }
  }

  /** `(ftp && ftp.waitForFiles || 10000) + 100` */
  function Budget(ftp: Option<FtpSettings>): (ms: int)
    ensures ftp.Some? && ftp.value.waitForFiles.Some? && ftp.value.waitForFiles.value != 0 ==>
      ms == ftp.value.waitForFiles.value + Grace
    ensures ftp.None? || ftp.value.waitForFiles.None? || ftp.value.waitForFiles.value == 0 ==>
      ms == DefaultWaitForFiles + Grace
  {
    (if ftp.Some? then IntOr(ftp.value.waitForFiles, DefaultWaitForFiles) else DefaultWaitForFiles) + Grace
  }

  datatype Decision = GiveUp | Defer | Select(path: string)

  /**
   * With no candidate, give up once the budget has passed since the first
   * poll; with a candidate, select the newest once it is 1000 ms old;
   * otherwise poll again.
   */
  function Decide(cands: seq<FileStat>, firstPoll: int, now: int, budget: int): (d: Decision)
    ensures d == GiveUp <==> cands == [] && now - firstPoll >= budget
    ensures d.Select? <==> cands != [] && now - cands[0].mtime >= SettleMs
    ensures d.Select? ==> d.path == cands[0].path
  {
    if cands == [] && now - firstPoll >= budget then GiveUp
    else if cands == [] || now - cands[0].mtime < SettleMs then Defer
    else Select(cands[0].path)
  }

  /** What one invocation does. */
  datatype PollResult =
    | Finished          // `done()` with no image
    | Retry             // rescheduled after 100 ms
    | Chosen(path: string)
    | StatFailed        // `statSync` threw: the process dies of an uncaught exception

  /**
   * One invocation at time `now`, given the direct candidates it looks at.
   * Without an FTP drop and without a direct candidate it is done at once;
   * otherwise it stats the direct candidate, or every entry of the FTP root.
   */
  function PollAt(direct: seq<string>, ftp: Option<FtpSettings>, startedAt: int, firstPoll: int,
                  disk: Disk, now: int): PollResult
  {
    if ftp.None? && direct == [] then Finished
    else
      var paths := if direct != [] then direct else disk.listing;
      match Candidates(paths, disk, startedAt)
      case None => StatFailed
      case Some(cands) =>
        match Decide(cands, firstPoll, now, Budget(ftp))
        case GiveUp => Finished
        case Defer => Retry
        case Select(p) => Chosen(p)
  }

  /** The time by which a poll against `disk` stops being rescheduled. */
  function Horizon(direct: seq<string>, ftp: Option<FtpSettings>, startedAt: int, firstPoll: int, disk: Disk): int {
    var paths := if direct != [] then direct else disk.listing;
    match Candidates(paths, disk, startedAt)
    case None => firstPoll
    case Some(cands) => if cands == [] then firstPoll + Budget(ftp) else cands[0].mtime + SettleMs
  }

  /** Polling is only rescheduled before the horizon: after it, the poll gives up or selects. */
  lemma RetryBeforeHorizon(direct: seq<string>, ftp: Option<FtpSettings>, startedAt: int, firstPoll: int,
                           disk: Disk, now: int)
    requires PollAt(direct, ftp, startedAt, firstPoll, disk, now) == Retry
    ensures now < Horizon(direct, ftp, startedAt, firstPoll, disk)
  {
  }

  /**
   * A fresh direct candidate is never dropped: every poll waits for it until
   * it is 1000 ms old and then selects it.
   */
  lemma FreshDirectCandidateKept(p: string, ftp: Option<FtpSettings>, startedAt: int, firstPoll: int,
                                 disk: Disk, now: int)
    requires p in disk.mtime && disk.mtime[p] > startedAt
    ensures PollAt([p], ftp, startedAt, firstPoll, disk, now) ==
      if now - disk.mtime[p] >= SettleMs then Chosen(p) else Retry
  {
    var file := FileStat(p, disk.mtime[p]);
    assert [p][..0] == [] && [file][..0] == [];
    assert Stat([p], disk) == Some([] + [file]);
    assert [] + [file] == [file];
    assert Fresh([file], startedAt) == [] + [file];
    assert NewestFirst([file]) == [file];
  }

  /** Each reschedule happens at least 100 ms after the previous poll. */
  predicate Gap(clock: nat -> int, k: nat) {
    clock(k) + RetryMs <= clock(k + 1)
  }

  /** The polls at the first `n` ticks were all rescheduled. */
  ghost predicate Retried(direct: seq<string>, ftp: Option<FtpSettings>, startedAt: int, disk: Disk,
                          clock: nat -> int, n: nat)
    decreases n
  {
    n == 0 ||
    (Retried(direct, ftp, startedAt, disk, clock, n - 1) &&
     PollAt(direct, ftp, startedAt, clock(0), disk, clock(n - 1)) == Retry)
  }

  lemma {:induction false} RetriedEvery(direct: seq<string>, ftp: Option<FtpSettings>, startedAt: int, disk: Disk,
                                        clock: nat -> int, n: nat)
    requires Retried(direct, ftp, startedAt, disk, clock, n)
    ensures forall k :: 0 <= k < n ==> PollAt(direct, ftp, startedAt, clock(0), disk, clock(k)) == Retry
    decreases n
  {
    if n > 0 {
      RetriedEvery(direct, ftp, startedAt, disk, clock, n - 1);
    }
  }

  /** A rescheduled poll happens before the horizon, and the next one is closer to it. */
  lemma RetryAdvances(direct: seq<string>, ftp: Option<FtpSettings>, startedAt: int, disk: Disk,
                      clock: nat -> int, t: nat)
    requires forall k: nat :: Gap(clock, k)
    requires PollAt(direct, ftp, startedAt, clock(0), disk, clock(t)) == Retry
    ensures clock(t) < Horizon(direct, ftp, startedAt, clock(0), disk)
    ensures clock(t) < clock(t + 1)
  {
    RetryBeforeHorizon(direct, ftp, startedAt, clock(0), disk, clock(t));
    assert Gap(clock, t);
  }

  /**
   * The self-rescheduling poll as a loop over the clock's ticks, against a
   * disk that does not change meanwhile. Every tick before the last was
   * rescheduled, each tick's outcome is `PollAt` at that time, and the loop
   * ends in a selection, an expiry or a failing `statSync`, never in a retry.
   */
  method Poll(direct: seq<string>, ftp: Option<FtpSettings>, startedAt: int, disk: Disk, clock: nat -> int)
    returns (result: PollResult, ticks: nat)
    requires 0 < clock(0)
    requires forall k: nat :: Gap(clock, k)
    ensures result != Retry
    ensures result == PollAt(direct, ftp, startedAt, clock(0), disk, clock(ticks))
    ensures forall k :: 0 <= k < ticks ==> PollAt(direct, ftp, startedAt, clock(0), disk, clock(k)) == Retry
  {
    ticks := 0;
    var firstPoll := IntOr(None, clock(0));
    result := PollAt(direct, ftp, startedAt, firstPoll, disk, clock(0));
    ghost var horizon := Horizon(direct, ftp, startedAt, clock(0), disk);
    while result == Retry
      invariant firstPoll == clock(0)
      invariant result == PollAt(direct, ftp, startedAt, clock(0), disk, clock(ticks))
      invariant Retried(direct, ftp, startedAt, disk, clock, ticks)
      decreases horizon - clock(ticks)
    {
      RetryAdvances(direct, ftp, startedAt, disk, clock, ticks);
      ticks := ticks + 1;
      firstPoll := IntOr(Some(firstPoll), clock(ticks));  // `if (!startedAt) startedAt = now`
      result := PollAt(direct, ftp, startedAt, firstPoll, disk, clock(ticks));
    }
    RetriedEvery(direct, ftp, startedAt, disk, clock, ticks);
  }

  /**
   * As written, the reschedule passes on the step result whose `image` the
   * first invocation already set to null, so later invocations see no direct
   * candidate.
   */
  function PollAsWritten(image: Value, tick: nat, ftp: Option<FtpSettings>, startedAt: int, firstPoll: int,
                         disk: Disk, now: int): PollResult
  {
    PollAt(DirectCandidates(if tick == 0 then image else Null), ftp, startedAt, firstPoll, disk, now)
  }

  /** A driver reporting `a.bmp`, written 500 ms into a step that started at 0. */
  const ReportedImage := Str("a.bmp")
  const ReportedDisk := Disk([], map["a.bmp" := 500])

  /**
   * Without an FTP drop, the reported image is still settling at the first
   * poll (1000 ms); as written, the second poll (1100 ms) finishes with no
   * image, while a poll that keeps the reported path selects it at 1500 ms.
   */
  lemma DirectImageForgottenAsWritten()
    ensures PollAsWritten(ReportedImage, 0, None, 0, 1000, ReportedDisk, 1000) == Retry
    ensures PollAsWritten(ReportedImage, 1, None, 0, 1000, ReportedDisk, 1100) == Finished
    ensures PollAt(DirectCandidates(ReportedImage), None, 0, 1000, ReportedDisk, 1100) == Retry
    ensures PollAt(DirectCandidates(ReportedImage), None, 0, 1000, ReportedDisk, 1500) == Chosen("a.bmp")
  {
    ReportedImageIsDirect();
    assert ReportedDisk.mtime["a.bmp"] == 500;
    FreshDirectCandidateKept("a.bmp", None, 0, 1000, ReportedDisk, 1000);
    FreshDirectCandidateKept("a.bmp", None, 0, 1000, ReportedDisk, 1100);
    FreshDirectCandidateKept("a.bmp", None, 0, 1000, ReportedDisk, 1500);
  }

  lemma ReportedImageIsDirect()
    ensures DirectCandidates(ReportedImage) == ["a.bmp"]
  {
    var ext := "a.bmp"[|"a.bmp"| - 4..];
    assert ext == ".bmp";
    assert LowerAsciiString(ext) == ".bmp";
  }

  /** A reported image is removed from the step result, then found by polling for it. */
  lemma PolledDirectImageIsSelected(p: string, ftp: Option<FtpSettings>, startedAt: int, disk: Disk,
                                    clock: nat -> int, result: PollResult, ticks: nat)
    requires p in disk.mtime && disk.mtime[p] > startedAt
    requires result != Retry && result == PollAt([p], ftp, startedAt, clock(0), disk, clock(ticks))
    ensures result == Chosen(p)
  {
    FreshDirectCandidateKept(p, ftp, startedAt, clock(0), disk, clock(ticks));
  }

  /** The image of an image path is an `.svg` path with the same base name, and is not an image path. */
  lemma OverlayIsNotImage(path: string)
    requires HasImageExtension(path)
    ensures OverlayPath(path) != path
    ensures !HasImageExtension(OverlayPath(path))
  {
    var o := OverlayPath(path);
    assert o[|o| - 4..] == ".svg";
    assert LowerAsciiString(".svg") == ".svg";
  }

  /** How the converter ended: its `error` event, or `close` with the chunks it wrote. */
  datatype Conversion = ConvertFailed | Converted(chunks: seq<seq<byte>>)

  /** `Buffer.concat(buffers)` */
  function Flatten(chunks: seq<seq<byte>>): seq<byte> {
    if chunks == [] then [] else Flatten(chunks[..|chunks| - 1]) + chunks[|chunks| - 1]
  }

  /**
   * The error of the finalisation chain, by the order of its steps: the
   * conversion, then the overlay (only when the `.svg` exists), then the save
   * (only when `writeLastImage` is a string).
   */
  function FinalError(path: string, disk: Disk, conv: Conversion, overlay: Option<seq<byte>>,
                      writeLastImage: Value, saveOk: bool): (err: Option<string>)
    ensures err == Some(ImageConvertError) <==> conv == ConvertFailed || conv.chunks == []
    ensures err == Some(ImageOverlayError) <==>
      conv.Converted? && conv.chunks != [] && OverlayPath(path) in disk.mtime && overlay.None?
    ensures err == Some(ImageSaveError) <==>
      conv.Converted? && conv.chunks != [] && !(OverlayPath(path) in disk.mtime && overlay.None?) &&
      writeLastImage.Str? && !saveOk
    ensures err == None <==>
      conv.Converted? && conv.chunks != [] && !(OverlayPath(path) in disk.mtime && overlay.None?) &&
      (!writeLastImage.Str? || saveOk)
  {
    if conv == ConvertFailed || conv.chunks == [] then Some(ImageConvertError)
    else if OverlayPath(path) in disk.mtime && overlay.None? then Some(ImageOverlayError)
    else if writeLastImage.Str? && !saveOk then Some(ImageSaveError)
    else None
  }

  /** The bytes in `stepResult.image` after the overlay step: the composite, or the converter's output. */
  function FinalBytes(path: string, disk: Disk, conv: Conversion, overlay: Option<seq<byte>>): seq<byte>
    requires conv.Converted?
  {
    if OverlayPath(path) in disk.mtime && overlay.Some? then overlay.value else Flatten(conv.chunks)
  }

  /** `stepResult.image` when `done` is called. */
  function FinalImage(path: string, disk: Disk, conv: Conversion, overlay: Option<seq<byte>>,
                      writeLastImage: Value, saveOk: bool): Value
  {
    if FinalError(path, disk, conv, overlay, writeLastImage, saveOk).Some? then Null
    else if Truthy(writeLastImage) then Undefined
    else Str(Base64.Encode(FinalBytes(path, disk, conv, overlay)))
  }

  /**
   * A failed finalisation leaves no image; a successful one leaves nothing
   * when the last image was written to disk and otherwise the base64 text of
   * the final bytes, which decodes back to them.
   */
  lemma FinalImageSpec(path: string, disk: Disk, conv: Conversion, overlay: Option<seq<byte>>,
                       writeLastImage: Value, saveOk: bool)
    ensures FinalError(path, disk, conv, overlay, writeLastImage, saveOk).Some? ==>
      FinalImage(path, disk, conv, overlay, writeLastImage, saveOk) == Null
    ensures FinalError(path, disk, conv, overlay, writeLastImage, saveOk).None? && Truthy(writeLastImage) ==>
      FinalImage(path, disk, conv, overlay, writeLastImage, saveOk) == Undefined
    ensures FinalError(path, disk, conv, overlay, writeLastImage, saveOk).None? && !Truthy(writeLastImage) ==>
      FinalImage(path, disk, conv, overlay, writeLastImage, saveOk).Str? &&
      Base64.Decode(FinalImage(path, disk, conv, overlay, writeLastImage, saveOk).s) ==
        Some(FinalBytes(path, disk, conv, overlay))
  {
    if conv.Converted? {
      Base64.EncodeDecode(FinalBytes(path, disk, conv, overlay));
    }
  }

  /** The overlay replaces the converted image only when the `.svg` exists and compositing succeeded. */
  lemma OverlayReplacesImage(path: string, disk: Disk, chunks: seq<seq<byte>>, overlay: Option<seq<byte>>)
    ensures OverlayPath(path) !in disk.mtime ==> FinalBytes(path, disk, Converted(chunks), overlay) == Flatten(chunks)
    ensures OverlayPath(path) in disk.mtime && overlay.Some? ==>
      FinalBytes(path, disk, Converted(chunks), overlay) == overlay.value
  {
  }

  /** The finalisation chain, writing `stepResult.image` at each step. */
  method Finalise(fields: StepResult, path: string, disk: Disk, conv: Conversion, overlay: Option<seq<byte>>,
                  writeLastImage: Value, saveOk: bool)
    returns (result: StepResult, err: Option<string>)
    ensures err == FinalError(path, disk, conv, overlay, writeLastImage, saveOk)
    ensures result == fields["image" := FinalImage(path, disk, conv, overlay, writeLastImage, saveOk)]
  {
    result := fields;
    err := None;
    var image: seq<byte> := [];
    if conv == ConvertFailed || conv.chunks == [] {
      err := Some(ImageConvertError);
    } else {
      image := Flatten(conv.chunks);
      result := result["image" := Bytes(image)];
      if OverlayPath(path) in disk.mtime {
        if overlay.None? {
          err := Some(ImageOverlayError);
        } else {
          image := overlay.value;
          result := result["image" := Bytes(image)];
        }
      }
      if err.None? && writeLastImage.Str? && !saveOk {
        err := Some(ImageSaveError);
      }
    }
    if err.Some? {
      result := result["image" := Null];
    } else if Truthy(writeLastImage) {
      result := result["image" := Undefined];
    } else {
      result := result["image" := Str(Base64.Encode(image))];
    }
  }

  /** `after` is `before` with `image` set: every other key keeps its presence and its value. */
  ghost predicate OnlyImageSet(before: StepResult, after: StepResult) {
    && "image" in after
    && (forall k :: k != "image" ==> (k in after <==> k in before))
    && (forall k :: k in before && k != "image" ==> after[k] == before[k])
  }

  lemma SetImage(m: StepResult, v: Value)
    ensures OnlyImageSet(m, m["image" := v])
  {
  }

  lemma SetImageAgain(before: StepResult, mid: StepResult, v: Value)
    requires OnlyImageSet(before, mid)
    ensures OnlyImageSet(before, mid["image" := v])
  {
  }

  datatype Outcome =
    | Completed(err: Option<string>)  // `done(err)`
    | Died                            // a `statSync` threw

  /**
   * The whole acquisition for one step, polling with the reported image
   * remembered across reschedules. Only `image` changes in the step result.
   */
  method WaitForFiles(fields: StepResult, ftp: Option<FtpSettings>, startedAt: int, disk: Disk,
                      clock: nat -> int, conv: Conversion, overlay: Option<seq<byte>>,
                      writeLastImage: Value, saveOk: bool)
    returns (result: StepResult, outcome: Outcome, chosen: Option<string>, ticks: nat)
    requires 0 < clock(0)
    requires forall k: nat :: Gap(clock, k)
    ensures OnlyImageSet(fields, result)
    // Unless it is done at once, the reported outcome is what the first
    // non-rescheduled invocation decided, after `ticks` reschedules.
    ensures !(ftp.None? && DirectCandidates(Field(fields, "image")) == []) ==>
      var last := PollAt(DirectCandidates(Field(fields, "image")), ftp, startedAt, clock(0), disk, clock(ticks));
      && last != Retry
      && (forall k :: 0 <= k < ticks ==>
            PollAt(DirectCandidates(Field(fields, "image")), ftp, startedAt, clock(0), disk, clock(k)) == Retry)
      && (last.Chosen? <==> chosen.Some?)
      && (last.Chosen? ==> chosen == Some(last.path))
      && (last == Finished ==> outcome == Completed(None))
      && (last == StatFailed <==> outcome == Died)
    ensures ftp.None? && DirectCandidates(Field(fields, "image")) == [] ==>
      outcome == Completed(None) && chosen == None && result["image"] == Null
    ensures chosen.None? ==> result["image"] == Null
    ensures chosen.Some? ==>
      outcome == Completed(FinalError(chosen.value, disk, conv, overlay, writeLastImage, saveOk)) &&
      result["image"] == FinalImage(chosen.value, disk, conv, overlay, writeLastImage, saveOk)
    ensures var image := Field(fields, "image");
      (DirectCandidates(image) != [] && image.s in disk.mtime && disk.mtime[image.s] > startedAt) ==>
        outcome.Completed? && chosen == Some(image.s)
  {
    var direct := DirectCandidates(Field(fields, "image"));
    result := fields["image" := Null];
    SetImage(fields, Null);
    chosen := None;
    ticks := 0;
    if ftp.None? && direct == [] {
      outcome := Completed(None);
      return;
    }
    var polled;
    polled, ticks := Poll(direct, ftp, startedAt, disk, clock);
    if direct != [] && direct[0] in disk.mtime && disk.mtime[direct[0]] > startedAt {
      PolledDirectImageIsSelected(direct[0], ftp, startedAt, disk, clock, polled, ticks);
    }
    match polled {
      case Finished =>
        outcome := Completed(None);
      case StatFailed =>
        outcome := Died;
      case Chosen(p) =>
        var err;
        ghost var before := result;
        result, err := Finalise(result, p, disk, conv, overlay, writeLastImage, saveOk);
        SetImageAgain(fields, before, FinalImage(p, disk, conv, overlay, writeLastImage, saveOk));
        outcome := Completed(err);
        chosen := Some(p);
    }
  }
}
