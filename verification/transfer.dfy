/** The download service: a foreground service that runs one download job
    per package at a time, keeps a progress record per package, persists
    each job's state in the download store, and reports a batch summary once
    no job is left. The network, the clock and the file system are inputs:
    a fetch outcome with the reads it delivers, the clock reading after each
    read, and the set of files that exist. */
module Transfer {
  import opened Util
  import DownloadStore

  /** One `read(buffer)` that returned data: how many bytes, and the clock
      reading (`System.currentTimeMillis()`) taken right after writing them. */
  datatype Read = Read(bytes: nat, time: int)

  /** One progress publication inside the copy loop. */
  datatype Sample = Sample(time: int, downloaded: nat, progress: real, speed: int)

  /** One piece of an in-flight status line: literal text, or a byte count
      as `formatBytes` renders it (floating point, kept as the count). */
  datatype TextPiece = Literal(text: string) | Bytes(count: int)

  /** The text of a progress record. */
  datatype ProgressText =
    | Starting
    | Done
    | Failure(message: string)
    | Transferred(line: seq<TextPiece>)

  /** The bullet that opens the speed part of a status line. */
  const SPEED_SEPARATOR: TextPiece := Literal(" \U{2022} ")

  /** The in-flight status line as the copy loop builds it. The `if` is an
      expression whose `else` branch runs to the end of the statement, so
      the speed belongs to the `else` branch: it is shown only when the
      length is unknown. */
  function StatusLine(downloaded: nat, total: int, speed: int): (line: seq<TextPiece>)
    ensures |line| >= 2 && line[0] == Literal("Downloaded: ") && line[1] == Bytes(downloaded)
    ensures total > 0 ==> line[2..] == [Literal(" / "), Bytes(total)]
    ensures SPEED_SEPARATOR in line <==> total <= 0
  {
    [Literal("Downloaded: "), Bytes(downloaded)] +
    (if total > 0 then [Literal(" / "), Bytes(total)] else [SPEED_SEPARATOR, Bytes(speed), Literal("/s")])
  }

  /** The status line with the speed after the sizes whatever the length:
      the bytes so far, the total when it is known, then the speed. */
  function StatusLineIntended(downloaded: nat, total: int, speed: int): (line: seq<TextPiece>)
    ensures |line| >= 5 && line[0] == Literal("Downloaded: ") && line[1] == Bytes(downloaded)
    ensures line[|line| - 3..] == [SPEED_SEPARATOR, Bytes(speed), Literal("/s")]
    ensures total > 0 <==> |line| == 7
    ensures total > 0 ==> line[2..4] == [Literal(" / "), Bytes(total)]
  {
    [Literal("Downloaded: "), Bytes(downloaded)] +
    (if total > 0 then [Literal(" / "), Bytes(total)] else []) +
    [SPEED_SEPARATOR, Bytes(speed), Literal("/s")]
  }

  /** The two lines coincide exactly when the length is unknown. */
  lemma StatusLinesAgree(downloaded: nat, total: int, speed: int)
    ensures StatusLine(downloaded, total, speed) == StatusLineIntended(downloaded, total, speed) <==> total <= 0
  {
    if total > 0 {
      assert |StatusLine(downloaded, total, speed)| == 4;
    }
  }

  /** The input that shows it: 1 MiB of a 2 MiB file at 512 KiB/s gives a
      line without the speed. */
  lemma StatusLineHidesSpeedExample()
    ensures StatusLine(1048576, 2097152, 524288) == [Literal("Downloaded: "), Bytes(1048576), Literal(" / "), Bytes(2097152)]
    ensures StatusLineIntended(1048576, 2097152, 524288)[4..] == [SPEED_SEPARATOR, Bytes(524288), Literal("/s")]
  {
  }

  /** `DownloadService.DownloadProgress`; `progress` is the Float percentage, read as a real. */
  datatype DownloadProgress = DownloadProgress(
    packageName: string,
    progress: real,
    status: ProgressText,
    isComplete: bool,
    appName: string,
    filePath: Option<string>,
    error: Option<string>)

  datatype DownloadResult = Success(filePath: string) | Error(message: string)

  /** The minimum spacing of progress publications, in milliseconds. */
  const THROTTLE_MS: int := 500

  /** The text of the summary notification the service is promoted to the
      foreground with, before any job has reported. */
  const PREPARING_TEXT: string := "Preparing downloads..."

  /** Bytes delivered by a run of reads. */
  function Total(chunks: seq<Read>): nat
  {
    if chunks == [] then 0 else Total(chunks[..|chunks| - 1]) + chunks[|chunks| - 1].bytes
  }

  /** `(downloaded / totalBytes * 100).coerceIn(0, 100)`, or 0 when the
      length is unknown. */
  function Percent(downloaded: nat, totalBytes: int): (p: real)
    ensures 0.0 <= p <= 100.0
    ensures totalBytes <= 0 ==> p == 0.0
    ensures 0 < totalBytes && downloaded <= totalBytes ==> p * (totalBytes as real) == (downloaded as real) * 100.0
    ensures 0 < totalBytes < downloaded ==> p == 100.0
  {
    if totalBytes > 0 then
      var raw := (downloaded as real) / (totalBytes as real) * 100.0;
      ScaledRatio(downloaded as real, totalBytes as real);
      if raw < 0.0 then 0.0 else if raw > 100.0 then 100.0 else raw
    else 0.0
  }

  /** The scaled ratio is a percentage: between 0 and 100 when the part
      does not exceed the whole, and 100 times the part once multiplied
      back by the whole. */
  lemma ScaledRatio(d: real, t: real)
    requires 0.0 <= d && 0.0 < t
    ensures 0.0 <= d / t * 100.0
    ensures d / t * 100.0 * t == d * 100.0
    ensures d <= t ==> d / t * 100.0 <= 100.0
    ensures t < d ==> d / t * 100.0 > 100.0
  {
    var q := d / t;
    assert q * t == d;
    assert q * 100.0 * t == q * t * 100.0;
    if d <= t {
      assert q <= 1.0;
    } else {
      assert q > 1.0;
    }
  }

  /** The throughput in bytes per second: whole bytes per elapsed
      millisecond times 1000, rounded down; 0 before any time has passed. */
  function Speed(downloaded: nat, startTime: int, now: int): (s: int)
    ensures s >= 0
    ensures now > startTime ==> s * (now - startTime) <= downloaded * 1000 < (s + 1) * (now - startTime)
    ensures now <= startTime ==> s == 0
  {
    if now > startTime then downloaded * 1000 / (now - startTime) else 0
  }

  /** The time of the last publication, or 0 (`lastUpdateTime`'s initial value). */
  function LastTime(samples: seq<Sample>): int
  {
    if samples == [] then 0 else samples[|samples| - 1].time
  }

  /** The publications the copy loop makes over `chunks`: a read is published
      when its clock reading is more than 500 ms after the last publication. */
  function Publications(chunks: seq<Read>, startTime: int, totalBytes: int): seq<Sample>
  {
    if chunks == [] then []
    else
      var earlier := Publications(chunks[..|chunks| - 1], startTime, totalBytes);
      var r := chunks[|chunks| - 1];
      if r.time - LastTime(earlier) > THROTTLE_MS then
        var d := Total(chunks);
        earlier + [Sample(r.time, d, Percent(d, totalBytes), Speed(d, startTime, r.time))]
      else earlier
  }

  /** Publications are more than 500 ms apart, the first one more than
      500 ms after time 0, and each one carries the bytes delivered so far. */
  lemma {:induction false} PublicationsSpaced(chunks: seq<Read>, startTime: int, totalBytes: int)
    ensures var p := Publications(chunks, startTime, totalBytes);
      && |p| <= |chunks|
      && (p != [] ==> p[0].time > THROTTLE_MS)
      && (forall j :: 0 <= j < |p| - 1 ==> p[j + 1].time - p[j].time > THROTTLE_MS)
      && (forall j :: 0 <= j < |p| ==> p[j].downloaded <= Total(chunks))
  {
    if chunks != [] {
      PublicationsSpaced(chunks[..|chunks| - 1], startTime, totalBytes);
    }
  }

  /** When every read comes more than 500 ms after the one before it (the
      first more than 500 ms after time 0), every read is published. */
  lemma {:induction false} SparseReadsAllPublished(chunks: seq<Read>, startTime: int, totalBytes: int)
    requires chunks != [] ==> chunks[0].time > THROTTLE_MS
    requires forall i :: 0 < i < |chunks| ==> chunks[i].time - chunks[i - 1].time > THROTTLE_MS
    ensures |Publications(chunks, startTime, totalBytes)| == |chunks|
    ensures forall j :: 0 <= j < |chunks| ==> Publications(chunks, startTime, totalBytes)[j].time == chunks[j].time
  {
    if chunks != [] {
      var front := chunks[..|chunks| - 1];
      SparseReadsAllPublished(front, startTime, totalBytes);
      assert |front| > 0 ==> LastTime(Publications(front, startTime, totalBytes)) == chunks[|chunks| - 2].time;
    }
  }

  /** How many reads are written before the job is seen to be cancelled:
      `activeReads` is the number of reads after which the coroutine is
      still active, or None when it is never cancelled. */
  function ReadsWritten(chunks: seq<Read>, activeReads: Option<nat>): (n: nat)
    ensures n <= |chunks|
  {
    if activeReads.Some? && activeReads.value < |chunks| then activeReads.value else |chunks|
  }

  /** The `while (input.read(buffer) != -1)` loop of `downloadFile`: it
      stops at the first read after cancellation, otherwise it adds up the
      bytes and publishes progress at most every 500 ms. */
  method CopyLoop(chunks: seq<Read>, startTime: int, totalBytes: int, activeReads: Option<nat>)
    returns (cancelled: bool, downloadedBytes: nat, samples: seq<Sample>)
    ensures cancelled <==> activeReads.Some? && activeReads.value < |chunks|
    ensures downloadedBytes == Total(chunks[..ReadsWritten(chunks, activeReads)])
    ensures samples == Publications(chunks[..ReadsWritten(chunks, activeReads)], startTime, totalBytes)
  {
    downloadedBytes := 0;
    var lastUpdateTime := 0;
    samples := [];
    var i := 0;
    while i < |chunks|
      invariant 0 <= i <= |chunks|
      invariant activeReads.Some? ==> i <= activeReads.value
      invariant downloadedBytes == Total(chunks[..i])
      invariant samples == Publications(chunks[..i], startTime, totalBytes)
      invariant lastUpdateTime == LastTime(samples)
    {
      if activeReads.Some? && activeReads.value == i {
        return true, downloadedBytes, samples;
      }
      assert chunks[..i + 1][..i] == chunks[..i];
      downloadedBytes := downloadedBytes + chunks[i].bytes;
      var currentTime := chunks[i].time;
      if currentTime - lastUpdateTime > THROTTLE_MS {
        var progress := Percent(downloadedBytes, totalBytes);
        var speed := Speed(downloadedBytes, startTime, currentTime);
        samples := samples + [Sample(currentTime, downloadedBytes, progress, speed)];
        lastUpdateTime := currentTime;
      }
      i := i + 1;
    }
    assert chunks[..i] == chunks;
    cancelled := false;
  }

  /** The progress record of a job that just started. */
  function StartingProgress(pkg: string, appName: string): DownloadProgress
  {
    DownloadProgress(pkg, 0.0, Starting, false, appName, None, None)
  }

  /** The progress record a finished job leaves: complete either way; a
      success carries the file and 100 %, a failure the error and 0 %. */
  function FinishedProgress(pkg: string, appName: string, result: DownloadResult): (p: DownloadProgress)
    ensures p.isComplete && p.packageName == pkg && p.appName == appName
    ensures p.error.None? <==> result.Success?
    ensures result.Success? ==> p.filePath == Some(result.filePath) && p.progress == 100.0
    ensures result.Error? ==> p.error == Some(result.message) && p.filePath.None? && p.progress == 0.0
  {
    match result
    case Success(path) => DownloadProgress(pkg, 100.0, Done, true, appName, Some(path), None)
    case Error(message) => DownloadProgress(pkg, 0.0, Failure(message), true, appName, None, Some(message))
  }

  /** The records `checkAllDownloadsComplete` reports as completed. */
  function CompletedOnes(progresses: map<string, DownloadProgress>): map<string, DownloadProgress>
  {
    map k | k in progresses && progresses[k].isComplete && progresses[k].error.None? :: progresses[k]
  }

  /** The records it reports as failed. */
  function FailedOnes(progresses: map<string, DownloadProgress>): map<string, DownloadProgress>
  {
    map k | k in progresses && progresses[k].isComplete && progresses[k].error.Some? :: progresses[k]
  }

  function FinishedOnes(progresses: map<string, DownloadProgress>): map<string, DownloadProgress>
  {
    map k | k in progresses && progresses[k].isComplete :: progresses[k]
  }

  /** Completed and failed never overlap, and together they are exactly the
      finished records, so the two counts add up to the finished count. */
  lemma CompletedFailedPartition(progresses: map<string, DownloadProgress>)
    ensures CompletedOnes(progresses).Keys !! FailedOnes(progresses).Keys
    ensures CompletedOnes(progresses).Keys + FailedOnes(progresses).Keys == FinishedOnes(progresses).Keys
    ensures |CompletedOnes(progresses)| + |FailedOnes(progresses)| == |FinishedOnes(progresses)|
  {
    var c, f := CompletedOnes(progresses).Keys, FailedOnes(progresses).Keys;
    assert c + f == FinishedOnes(progresses).Keys;
    assert |c + f| == |c| + |f|;
  }

  /** The summary notification's text: once nothing is active, which of
      completed and failed are present; while downloads run, how many are
      active and, if any have finished, how many. */
  function SummaryText(activeCount: nat, progresses: map<string, DownloadProgress>): (text: string)
    ensures activeCount == 0 && FinishedOnes(progresses) == map[] ==> text == "All downloads finished"
    ensures activeCount > 0 && FinishedOnes(progresses) == map[] ==> text == NatToString(activeCount) + " downloads active"
  {
    if activeCount == 0 then
      var completedCount := |CompletedOnes(progresses)|;
      var failedCount := |FailedOnes(progresses)|;
      CompletedFailedPartition(progresses);
      if completedCount > 0 && failedCount > 0 then
        NatToString(completedCount) + " completed, " + NatToString(failedCount) + " failed"
      else if completedCount > 0 then NatToString(completedCount) + " downloads completed"
      else if failedCount > 0 then NatToString(failedCount) + " downloads failed"
      else "All downloads finished"
    else
      var completedCount := |FinishedOnes(progresses)|;
      if completedCount > 0 then NatToString(activeCount) + " active, " + NatToString(completedCount) + " completed"
      else NatToString(activeCount) + " downloads active"
  }

  predicate EndsWith(s: string, suffix: string)
  {
    |suffix| <= |s| && s[|s| - |suffix|..] == suffix
  }

  lemma EndsWithConcat(a: string, t: string, suffix: string)
    requires |suffix| <= |t|
    ensures EndsWith(a + t, suffix) <==> EndsWith(t, suffix)
  {
    assert (a + t)[|a + t| - |suffix|..] == t[|t| - |suffix|..];
  }

  /** Which of the two endings each fixed tail of the idle texts has. */
  lemma TailEndings()
    ensures EndsWith(" failed", "failed") && !EndsWith(" failed", "completed")
    ensures EndsWith(" downloads completed", "completed") && !EndsWith(" downloads completed", "failed")
    ensures EndsWith(" downloads failed", "failed") && !EndsWith(" downloads failed", "completed")
    ensures !EndsWith("All downloads finished", "failed") && !EndsWith("All downloads finished", "completed")
  {
    assert " downloads completed"[14..] == "pleted";
    assert " downloads completed"[11..] == "completed";
    assert " downloads failed"[11..] == "failed";
    assert " downloads failed"[8..] == "ds failed";
    assert "All downloads finished"[16..] == "nished";
    assert "All downloads finished"[13..] == " finished";
    assert " failed"[1..] == "failed";
  }

  /** With nothing active, the text says "All downloads finished" exactly
      when no record has finished, ends in "failed" exactly when some record
      failed, and ends in "completed" exactly when some completed and none
      failed. */
  lemma IdleSummaryCases(progresses: map<string, DownloadProgress>)
    ensures SummaryText(0, progresses) == "All downloads finished" <==> FinishedOnes(progresses) == map[]
    ensures EndsWith(SummaryText(0, progresses), "failed") <==> FailedOnes(progresses) != map[]
    ensures EndsWith(SummaryText(0, progresses), "completed") <==>
      CompletedOnes(progresses) != map[] && FailedOnes(progresses) == map[]
  {
    CompletedFailedPartition(progresses);
    TailEndings();
    var c, f := |CompletedOnes(progresses)|, |FailedOnes(progresses)|;
    var text := SummaryText(0, progresses);
    if c > 0 && f > 0 {
      var head := NatToString(c) + " completed, " + NatToString(f);
      assert text == head + " failed";
      EndsWithConcat(head, " failed", "failed");
      assert !EndsWith(text, "completed") by {
        assert text[|text| - 7] == ' ';
      }
      assert text != "All downloads finished" by {
        assert text[|text| - 7] == ' ';
      }
    } else if c > 0 {
      assert text == NatToString(c) + " downloads completed";
      EndsWithConcat(NatToString(c), " downloads completed", "failed");
      EndsWithConcat(NatToString(c), " downloads completed", "completed");
    } else if f > 0 {
      assert text == NatToString(f) + " downloads failed";
      EndsWithConcat(NatToString(f), " downloads failed", "failed");
      EndsWithConcat(NatToString(f), " downloads failed", "completed");
    } else {
      assert text == "All downloads finished";
    }
  }

  /** A job: what the coroutine registered under a package downloads. */
  datatype Job = Job(downloadUrl: string, appName: string)

  /** The broadcasts the service sends. The batch summary carries the
      completed and the failed records; the six string lists of the intent
      are projections of them. */
  datatype Broadcast =
    | DownloadComplete(packageName: string, filePath: string)
    | AllDownloadsComplete(completed: map<string, DownloadProgress>, failed: map<string, DownloadProgress>)

  /** A successful response's body: its declared length, the reads it
      delivers, the clock when copying starts, and after how many reads the
      job is found cancelled (None: never). */
  datatype Body = Body(contentLength: int, chunks: seq<Read>, startTime: int, activeReads: Option<nat>)

  /** How the HTTP call ended: it threw (with a possibly-null message), or a
      response came back with a status code and a possibly-null body. */
  datatype Fetch = Thrown(message: Option<string>) | Response(code: int, body: Option<Body>)

  /** The download directory (`getExternalFilesDir(null)/downloads`). */
  const DOWNLOAD_DIR: string := "downloads/"

  /** The file a package's APK is written to. */
  function ApkPath(pkg: string): string
  {
    DOWNLOAD_DIR + pkg + ".apk"
  }

  /** `response.isSuccessful`. */
  predicate IsSuccessful(code: int)
  {
    200 <= code < 300
  }

  /** Whether the copy loop stops on cancellation. */
  predicate CancelledDuring(body: Body)
  {
    body.activeReads.Some? && body.activeReads.value < |body.chunks|
  }

  /** The result `downloadFile` returns. */
  function FetchResult(pkg: string, fetch: Fetch): (r: DownloadResult)
    ensures r.Success? <==> fetch.Response? && IsSuccessful(fetch.code) && fetch.body.Some? && !CancelledDuring(fetch.body.value)
    ensures r.Success? ==> r.filePath == ApkPath(pkg)
    ensures fetch.Thrown? ==> r == Error(if fetch.message.Some? then fetch.message.value else "Download failed")
    ensures fetch.Response? && !IsSuccessful(fetch.code) ==> r == Error("HTTP Error: " + IntToString(fetch.code))
  {
    match fetch
    case Thrown(m) => Error(if m.Some? then m.value else "Download failed")
    case Response(code, body) =>
      if !IsSuccessful(code) then Error("HTTP Error: " + IntToString(code))
      else if body.None? then Error("Empty response")
      else if CancelledDuring(body.value) then Error("Download cancelled")
      else Success(ApkPath(pkg))
  }

  /** The last progress publication of a body's copy loop, if any. */
  function LastSampleOf(b: Body): Option<Sample>
  {
    var samples := Publications(b.chunks[..ReadsWritten(b.chunks, b.activeReads)], b.startTime, b.contentLength);
    if samples == [] then None else Some(samples[|samples| - 1])
  }

  /** The last progress publication of a fetch, if any. */
  function LastSample(fetch: Fetch): Option<Sample>
  {
    if fetch.Response? && IsSuccessful(fetch.code) && fetch.body.Some? then LastSampleOf(fetch.body.value) else None
  }

  /** The progress record one publication writes. */
  function SampleProgress(pkg: string, appName: string, totalBytes: int, s: Sample): DownloadProgress
  {
    DownloadProgress(pkg, s.progress, Transferred(StatusLine(s.downloaded, totalBytes, s.speed)), false, appName, None, None)
  }

  /** The stored row after the copy loop's progress writes. */
  function ProgressRows(t: DownloadStore.Table, pkg: string, fetch: Fetch): DownloadStore.Table
  {
    match LastSample(fetch)
    case None => t
    case Some(s) => DownloadStore.SetProgress(t, pkg, s.progress, s.time)
  }

  /** The stored row after a job ends: completed with its file, or failed
      with its message. */
  function JobRows(t: DownloadStore.Table, pkg: string, result: DownloadResult, now: int): DownloadStore.Table
  {
    match result
    case Success(path) => DownloadStore.SetCompleted(t, pkg, DownloadStore.COMPLETED, path, now)
    case Error(message) => DownloadStore.SetFailed(t, pkg, DownloadStore.FAILED, message, now)
  }

  /** The broadcasts a job's end sends: one for a success, none for a failure. */
  function JobBroadcasts(pkg: string, result: DownloadResult): seq<Broadcast>
  {
    if result.Success? then [DownloadComplete(pkg, result.filePath)] else []
  }

  /** `DownloadService`: the job registry, the progress records, the files
      it writes and the broadcasts it sends. */
  class DownloadService {
    const store: DownloadStore.DownloadStateRepository
    var activeDownloads: map<string, Job>
    var downloadProgresses: map<string, DownloadProgress>
    /** The last value pushed to the `downloadProgress` state flow. */
    var publishedProgress: map<string, DownloadProgress>
    var files: set<string>
    var inForeground: bool
    var summary: string
    var broadcasts: seq<Broadcast>
    var stopped: bool

    /** Every registered job has an unfinished progress record. */
    ghost predicate Valid()
      reads this, store.dao
    {
      store.dao.Valid() &&
      forall p :: p in activeDownloads ==> p in downloadProgresses && !downloadProgresses[p].isComplete
    }

    constructor (store: DownloadStore.DownloadStateRepository, files: set<string>)
      requires store.dao.Valid()
      ensures Valid() && this.store == store && this.files == files
      ensures activeDownloads == map[] && downloadProgresses == map[] && publishedProgress == map[]
      ensures broadcasts == [] && !inForeground && !stopped && summary == ""
    {
      this.store := store;
      this.files := files;
      activeDownloads := map[];
      downloadProgresses := map[];
      publishedProgress := map[];
      inForeground := false;
      summary := "";
      broadcasts := [];
      stopped := false;
    }

    /** `onStartCommand`: a request without a package name or URL, or for a
        package that already has a job, starts nothing; otherwise exactly
        one job is registered under the package, and it records the
        download in the store and a starting progress record. */
    method OnStartCommand(pkgExtra: Option<string>, urlExtra: Option<string>, appNameExtra: Option<string>, now: int)
      returns (sticky: bool)
      requires Valid()
      modifies this, store.dao
      ensures Valid()
      ensures sticky <==> pkgExtra.Some? && urlExtra.Some? && pkgExtra.value !in old(activeDownloads)
      ensures !sticky ==> (
        && activeDownloads == old(activeDownloads) && downloadProgresses == old(downloadProgresses)
        && publishedProgress == old(publishedProgress)
        && store.dao.rows == old(store.dao.rows) && inForeground == old(inForeground) && summary == old(summary))
      ensures sticky ==>
        var pkg, url := pkgExtra.value, urlExtra.value;
        var appName := if appNameExtra.Some? then appNameExtra.value else pkg;
        && activeDownloads == old(activeDownloads)[pkg := Job(url, appName)]
        && downloadProgresses == old(downloadProgresses)[pkg := StartingProgress(pkg, appName)]
        && publishedProgress == downloadProgresses
        && store.dao.rows == DownloadStore.Upsert(old(store.dao.rows), DownloadStore.NewDownload(pkg, url, appName, now))
        && inForeground == (old(inForeground) || old(activeDownloads) == map[])
        && summary == (if old(activeDownloads) == map[] then PREPARING_TEXT else old(summary))
      ensures files == old(files) && broadcasts == old(broadcasts) && stopped == old(stopped)
    {
      if pkgExtra.None? || urlExtra.None? {
        return false;
      }
      var pkg, url := pkgExtra.value, urlExtra.value;
      var appName := if appNameExtra.Some? then appNameExtra.value else pkg;
      if pkg in activeDownloads {
        return false;
      }
      if activeDownloads == map[] {
        inForeground := true;
        summary := PREPARING_TEXT;
      }
      store.StartDownload(pkg, url, appName, now);
      downloadProgresses := downloadProgresses[pkg := StartingProgress(pkg, appName)];
      publishedProgress := downloadProgresses;
      activeDownloads := activeDownloads[pkg := Job(url, appName)];
      sticky := true;
    }

    /** `downloadFile`: the old file is deleted first; a thrown call, an
        unsuccessful status, a missing body or a cancellation leaves no
        file; a finished copy leaves the APK. The copy loop's last progress
        publication is what remains in the record and the store. */
    method DownloadFile(pkg: string, appName: string, fetch: Fetch) returns (result: DownloadResult)
      requires Valid() && pkg in activeDownloads
      modifies this, store.dao
      ensures Valid()
      ensures result == FetchResult(pkg, fetch)
      ensures files == if result.Success? then old(files) + {ApkPath(pkg)} else old(files) - {ApkPath(pkg)}
      ensures store.dao.rows == ProgressRows(old(store.dao.rows), pkg, fetch)
      ensures downloadProgresses == match LastSample(fetch)
        case None => old(downloadProgresses)
        case Some(s) => old(downloadProgresses)[pkg := SampleProgress(pkg, appName, fetch.body.value.contentLength, s)]
      ensures LastSample(fetch).None? ==> publishedProgress == old(publishedProgress) && summary == old(summary)
      ensures LastSample(fetch).Some? ==>
        && publishedProgress == downloadProgresses
        && summary == SummaryText(|activeDownloads|, downloadProgresses)
      ensures activeDownloads == old(activeDownloads) && broadcasts == old(broadcasts)
      ensures inForeground == old(inForeground) && stopped == old(stopped)
    {
      var outputFile := ApkPath(pkg);
      files := files - {outputFile};
      if fetch.Thrown? {
        return Error(if fetch.message.Some? then fetch.message.value else "Download failed");
      }
      if !IsSuccessful(fetch.code) {
        return Error("HTTP Error: " + IntToString(fetch.code));
      }
      if fetch.body.None? {
        return Error("Empty response");
      }
      var b := fetch.body.value;
      files := files + {outputFile};
      var cancelled := CopyAndPublish(pkg, appName, b);
      if cancelled {
        files := files - {outputFile};
        return Error("Download cancelled");
      }
      result := Success(outputFile);
    }

    /** The copy loop with its side effects: each publication replaces the
        package's progress record, pushes the records to the state flow and
        writes the percentage to the store; what remains is the last one. */
    method CopyAndPublish(pkg: string, appName: string, b: Body) returns (cancelled: bool)
      requires Valid() && pkg in activeDownloads
      modifies this`downloadProgresses, this`publishedProgress, this`summary, store.dao
      ensures Valid()
      ensures cancelled == CancelledDuring(b)
      ensures store.dao.rows == match LastSampleOf(b)
        case None => old(store.dao.rows)
        case Some(s) => DownloadStore.SetProgress(old(store.dao.rows), pkg, s.progress, s.time)
      ensures downloadProgresses == match LastSampleOf(b)
        case None => old(downloadProgresses)
        case Some(s) => old(downloadProgresses)[pkg := SampleProgress(pkg, appName, b.contentLength, s)]
      ensures LastSampleOf(b).None? ==> publishedProgress == old(publishedProgress) && summary == old(summary)
      ensures LastSampleOf(b).Some? ==>
        && publishedProgress == downloadProgresses
        && summary == SummaryText(|activeDownloads|, downloadProgresses)
    {
      var downloadedBytes, samples;
      cancelled, downloadedBytes, samples := CopyLoop(b.chunks, b.startTime, b.contentLength, b.activeReads);
      if samples != [] {
        var last := samples[|samples| - 1];
        downloadProgresses := downloadProgresses[pkg := SampleProgress(pkg, appName, b.contentLength, last)];
        publishedProgress := downloadProgresses;
        store.UpdateDownloadProgress(pkg, last.progress, last.time);
        UpdateSummaryNotification();
      }
    }

    /** One job from its download to its end: the store is marked completed
        or failed, the progress record finished, a success broadcast, and
        whatever happened the package leaves the active jobs; the batch
        check is scheduled once no job is left. */
    method RunJob(pkg: string, fetch: Fetch, now: int) returns (checkScheduled: bool)
      requires Valid() && pkg in activeDownloads
      modifies this, store.dao
      ensures Valid()
      ensures activeDownloads == old(activeDownloads) - {pkg}
      ensures downloadProgresses ==
        old(downloadProgresses)[pkg := FinishedProgress(pkg, old(activeDownloads)[pkg].appName, FetchResult(pkg, fetch))]
      ensures publishedProgress == downloadProgresses
      ensures files == if FetchResult(pkg, fetch).Success? then old(files) + {ApkPath(pkg)} else old(files) - {ApkPath(pkg)}
      ensures store.dao.rows == JobRows(ProgressRows(old(store.dao.rows), pkg, fetch), pkg, FetchResult(pkg, fetch), now)
      ensures broadcasts == old(broadcasts) + JobBroadcasts(pkg, FetchResult(pkg, fetch))
      ensures summary == SummaryText(|activeDownloads|, downloadProgresses)
      ensures checkScheduled <==> activeDownloads == map[]
      ensures inForeground == old(inForeground) && stopped == old(stopped)
    {
      var appName := activeDownloads[pkg].appName;
      var result := DownloadFile(pkg, appName, fetch);
      checkScheduled := FinishJob(pkg, appName, result, now);
    }

    /** The end of a job's coroutine: the `when (result)` bookkeeping, then
        the `finally` block. */
    method FinishJob(pkg: string, appName: string, result: DownloadResult, now: int) returns (checkScheduled: bool)
      requires Valid()
      modifies this`downloadProgresses, this`publishedProgress, this`broadcasts, this`activeDownloads, this`summary, store.dao
      ensures Valid()
      ensures activeDownloads == old(activeDownloads) - {pkg}
      ensures downloadProgresses == old(downloadProgresses)[pkg := FinishedProgress(pkg, appName, result)]
      ensures publishedProgress == downloadProgresses
      ensures store.dao.rows == JobRows(old(store.dao.rows), pkg, result, now)
      ensures broadcasts == old(broadcasts) + JobBroadcasts(pkg, result)
      ensures summary == SummaryText(|activeDownloads|, downloadProgresses)
      ensures checkScheduled <==> activeDownloads == map[]
    {
      match result {
        case Success(path) =>
          store.MarkDownloadCompleted(pkg, path, now);
          broadcasts := broadcasts + [DownloadComplete(pkg, path)];
        case Error(message) =>
          store.MarkDownloadFailed(pkg, message, now);
      }
      downloadProgresses := downloadProgresses[pkg := FinishedProgress(pkg, appName, result)];
      publishedProgress := downloadProgresses;
      activeDownloads := activeDownloads - {pkg};
      UpdateSummaryNotification();
      checkScheduled := activeDownloads == map[];
    }

    /** `updateSummaryNotification`. */
    method UpdateSummaryNotification()
      modifies this`summary
      ensures summary == SummaryText(|activeDownloads|, downloadProgresses)
    {
      summary := SummaryText(|activeDownloads|, downloadProgresses);
    }

    /** `checkAllDownloadsComplete`, once its delay has passed: if still no
        job is active, the completed and failed records are broadcast, the
        records are dropped and the service stops. The state flow is not
        refreshed after the records are dropped. */
    method CheckAllDownloadsComplete()
      requires Valid()
      modifies this`broadcasts, this`downloadProgresses, this`stopped
      ensures Valid()
      ensures old(activeDownloads) != map[] ==> (
        broadcasts == old(broadcasts) && downloadProgresses == old(downloadProgresses) && stopped == old(stopped))
      ensures old(activeDownloads) == map[] ==>
        && broadcasts == old(broadcasts) + [AllDownloadsComplete(CompletedOnes(old(downloadProgresses)), FailedOnes(old(downloadProgresses)))]
        && downloadProgresses == map[] && stopped
      ensures activeDownloads == old(activeDownloads) && publishedProgress == old(publishedProgress) && files == old(files)
      ensures summary == old(summary) && inForeground == old(inForeground)
    {
      if activeDownloads == map[] {
        var completedDownloads := CompletedOnes(downloadProgresses);
        var failedDownloads := FailedOnes(downloadProgresses);
        broadcasts := broadcasts + [AllDownloadsComplete(completedDownloads, failedDownloads)];
        downloadProgresses := map[];
        stopped := true;
      }
    }

    /** `getActiveDownloads`: a copy of the progress records. */
    method GetActiveDownloads() returns (r: map<string, DownloadProgress>)
      ensures r == downloadProgresses
    {
      r := downloadProgresses;
    }
  }
}
