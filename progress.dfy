/**
 * `download_audio`'s progress hook: the downloader calls it with each status
 * update. While downloading it reports the percentage to the caller's
 * callback, at most once per ten points; when a file is finished it records
 * the file's name, which the download returns.
 */
module Progress {
  import opened Wrappers

  /**
   * A status update. The byte counts are the optional fields of the update
   * (`total_bytes`, `total_bytes_estimate`, `downloaded_bytes`).
   */
  datatype HookEvent =
    | Downloading(totalBytes: Option<nat>, totalBytesEstimate: Option<nat>, downloadedBytes: Option<nat>)
    | Finished(filename: string)
    | OtherStatus

  /** What the hook keeps between calls, and the percentages reported so far. */
  datatype HookState = HookState(lastPercent: int, downloadedFile: Option<string>, reported: seq<int>)

  const Initial: HookState := HookState(-1, None, [])

  /** The throttle: a report needs at least this many points over the last one. */
  const ReportStep: nat := 10

  /** `total_bytes or total_bytes_estimate or 0`: the first one present and non-zero. */
  function TotalOf(totalBytes: Option<nat>, totalBytesEstimate: Option<nat>): nat
  {
    if totalBytes.Some? && totalBytes.value != 0 then totalBytes.value
    else if totalBytesEstimate.Some? && totalBytesEstimate.value != 0 then totalBytesEstimate.value
    else 0
  }

  /** `int(downloaded * 100 / total)`: rounded down and not capped at 100. */
  function PercentOf(downloaded: nat, total: nat): (p: nat)
    requires total > 0
    ensures p * total <= downloaded * 100 < (p + 1) * total
  {
    downloaded * 100 / total
  }

  /** One call of the hook. */
  function Step(hasCallback: bool, s: HookState, e: HookEvent): HookState
  {
    match e
    case Downloading(totalBytes, estimate, downloaded) =>
      var total := TotalOf(totalBytes, estimate);
      if hasCallback && total > 0 then
        var p := PercentOf(downloaded.GetOr(0), total);
        if p >= s.lastPercent + ReportStep then s.(lastPercent := p, reported := s.reported + [p]) else s
      else s
    case Finished(name) => s.(downloadedFile := Some(name))
    case OtherStatus => s
  }

  /** The hook's state after a sequence of calls. */
  function Run(hasCallback: bool, s: HookState, events: seq<HookEvent>): HookState
  {
    if events == [] then s
    else Step(hasCallback, Run(hasCallback, s, events[..|events| - 1]), events[|events| - 1])
  }

  /** The name carried by the last `finished` update, if any. */
  function LastFinished(events: seq<HookEvent>): Option<string>
  {
    if events == [] then None
    else if events[|events| - 1].Finished? then Some(events[|events| - 1].filename)
    else LastFinished(events[..|events| - 1])
  }

  /**
   * The throttle invariant: the reports rise by at least ten points each
   * time, the first one is at least 9 (ten over the initial -1), and the
   * remembered percentage is the last report.
   */
  predicate Throttled(s: HookState)
  {
    && (s.reported == [] ==> s.lastPercent == -1)
    && (s.reported != [] ==> s.lastPercent == s.reported[|s.reported| - 1] && s.reported[0] >= 9)
    && forall i :: 0 < i < |s.reported| ==> s.reported[i] >= s.reported[i - 1] + ReportStep
  }

  lemma StepThrottled(hasCallback: bool, s: HookState, e: HookEvent)
    requires Throttled(s)
    ensures Throttled(Step(hasCallback, s, e))
    ensures |Step(hasCallback, s, e).reported| <= |s.reported| + 1
    ensures Step(hasCallback, s, e).reported[..|s.reported|] == s.reported
  {
  }

  lemma {:induction false} RunThrottled(hasCallback: bool, events: seq<HookEvent>)
    ensures Throttled(Run(hasCallback, Initial, events))
  {
    if events != [] {
      RunThrottled(hasCallback, events[..|events| - 1]);
      StepThrottled(hasCallback, Run(hasCallback, Initial, events[..|events| - 1]), events[|events| - 1]);
    }
  }

  /** The `i`-th report is at least `9 + 10 i`. */
  lemma {:induction false} ReportsSpread(s: HookState, i: nat)
    requires Throttled(s) && i < |s.reported|
    ensures s.reported[i] >= 9 + 10 * i
  {
    if i > 0 {
      ReportsSpread(s, i - 1);
    }
  }

  /** While the percentages stay within 100, the callback fires at most ten times. */
  lemma ReportsBounded(s: HookState)
    requires Throttled(s)
    requires forall i :: 0 <= i < |s.reported| ==> s.reported[i] <= 100
    ensures |s.reported| <= 10
  {
    if |s.reported| > 10 {
      ReportsSpread(s, 10);
    }
  }

  /** Without a callback, or without a known total, nothing is ever reported. */
  lemma {:induction false} SilentRun(hasCallback: bool, s: HookState, events: seq<HookEvent>)
    requires !hasCallback || forall i :: 0 <= i < |events| && events[i].Downloading? ==>
      TotalOf(events[i].totalBytes, events[i].totalBytesEstimate) == 0
    ensures Run(hasCallback, s, events).reported == s.reported
    ensures Run(hasCallback, s, events).lastPercent == s.lastPercent
  {
    if events != [] {
      SilentRun(hasCallback, s, events[..|events| - 1]);
    }
  }

  /** The recorded file is the one named by the last `finished` update; earlier ones are overwritten. */
  lemma {:induction false} RunFile(hasCallback: bool, s: HookState, events: seq<HookEvent>)
    ensures Run(hasCallback, s, events).downloadedFile ==
      if LastFinished(events).Some? then LastFinished(events) else s.downloadedFile
  {
    if events != [] {
      RunFile(hasCallback, s, events[..|events| - 1]);
    }
  }

  /** The hook as the object the downloader calls. */
  class ProgressHook {
    const hasCallback: bool
    var lastPercent: int
    var downloadedFile: Option<string>
    var reported: seq<int>

    function State(): HookState
      reads this
    {
      HookState(lastPercent, downloadedFile, reported)
    }

    constructor(hasCallback: bool)
      ensures this.hasCallback == hasCallback && State() == Initial
    {
      this.hasCallback := hasCallback;
      lastPercent := -1;
      downloadedFile := None;
      reported := [];
    }

    /** `progress_hook`: one status update. */
    method Hook(e: HookEvent)
      modifies this
      ensures State() == Step(hasCallback, old(State()), e)
    {
      if e.Downloading? && hasCallback {
        var total := TotalOf(e.totalBytes, e.totalBytesEstimate);
        var downloaded := e.downloadedBytes.GetOr(0);
        if total > 0 {
          var percent := downloaded * 100 / total;
          if percent >= lastPercent + ReportStep {
            lastPercent := percent;
            reported := reported + [percent];
          }
        }
      } else if e.Finished? {
        downloadedFile := Some(e.filename);
      }
    }
  }

  /**
   * `download_audio`, once the downloader has delivered `events` to the
   * hook: the reported percentages and the returned path, which falls back
   * to the output directory when no file name was recorded (or it was empty).
   */
  method DownloadAudio(outputDir: string, events: seq<HookEvent>, hasCallback: bool)
    returns (path: string, reported: seq<int>)
    ensures reported == Run(hasCallback, Initial, events).reported
    ensures reported != [] ==> reported[0] >= 9
    ensures forall i :: 0 < i < |reported| ==> reported[i] >= reported[i - 1] + ReportStep
    ensures var f := LastFinished(events); path == if f.Some? && f.value != [] then f.value else outputDir
  {
    var hook := new ProgressHook(hasCallback);
    var i := 0;
    while i < |events|
      invariant 0 <= i <= |events|
      invariant hook.hasCallback == hasCallback
      invariant hook.State() == Run(hasCallback, Initial, events[..i])
    {
      assert events[..i + 1][..i] == events[..i];
      hook.Hook(events[i]);
      i := i + 1;
    }
    assert events[..i] == events;
    RunThrottled(hasCallback, events);
    RunFile(hasCallback, Initial, events);
    reported := hook.reported;
    if hook.downloadedFile.Some? && hook.downloadedFile.value != [] {
      path := hook.downloadedFile.value;
    } else {
      path := outputDir;
    }
  }

  /** A download update with a total of 100 bytes, `p` of them done. */
  function At(p: nat): HookEvent
  {
    Downloading(Some(100), None, Some(p))
  }

  /**
   * Raw percentages 3, 7, 11, 15, 22, 31 report only 11 and 22: after 22
   * the next report needs 32.
   */
  lemma ExampleThrottle()
    ensures Run(true, Initial, [At(3), At(7), At(11), At(15), At(22), At(31)]).reported == [11, 22]
  {
    var events := [At(3), At(7), At(11), At(15), At(22), At(31)];
    assert events[..5] == [At(3), At(7), At(11), At(15), At(22)];
    assert events[..5][..4] == [At(3), At(7), At(11), At(15)];
    assert events[..5][..4][..3] == [At(3), At(7), At(11)];
    assert events[..5][..4][..3][..2] == [At(3), At(7)];
    assert events[..5][..4][..3][..2][..1] == [At(3)];
    assert [At(3)][..0] == [];
    var s1 := Run(true, Initial, [At(3)]);
    assert s1 == Initial;
    var s2 := Run(true, Initial, [At(3), At(7)]);
    assert s2 == Initial;
    var s3 := Run(true, Initial, [At(3), At(7), At(11)]);
    assert s3.reported == [11] && s3.lastPercent == 11;
    var s4 := Run(true, Initial, [At(3), At(7), At(11), At(15)]);
    assert s4.reported == [11] && s4.lastPercent == 11;
    var s5 := Run(true, Initial, [At(3), At(7), At(11), At(15), At(22)]);
    assert s5.reported == [11, 22] && s5.lastPercent == 22;
  }
}
