/**
 * The per-item download flow of the APKPure source: lookup status, URL
 * extraction, the initial request to the streaming writer and up to three
 * download attempts, each ending in exactly one terminal log line.
 *
 * The network, the regular-expression engine and the streaming writer are
 * replaced by what they report: the lookup status, the capture found by a
 * pattern, whether the initial request succeeded together with the content
 * length, and the result of each download attempt.
 */
module Download {
  import opened Wrappers
  import opened Naming

  /** HTTP 200, the only lookup status that leads on to extraction. */
  const StatusOk: int := 200
  /** Download attempts made at most for one item: the first try and two retries. */
  const MaxAttempts: nat := 3

  /** Capture groups 1 (payload-kind tag) and 2 (download URL) of a match. */
  datatype Capture = Capture(tag: string, url: string)

  /** What the streaming writer reports for one download attempt. */
  datatype AttemptResult = Done | FileExists | PermissionDenied | OtherError

  /**
   * What the streaming writer reports for the first, second and third
   * attempt; no item is attempted more often.
   */
  datatype Attempts = Attempts(first: AttemptResult, second: AttemptResult, third: AttemptResult)
  {
    /** The result of attempt `k`, counting from 0. */
    function At(k: nat): AttemptResult
    {
      if k == 0 then first else if k == 1 then second else third
    }
  }

  /** Terminal state of one item. */
  datatype Outcome =
    | Downloaded
    | SkippedExists
    | SkippedPermission
    | Failed
    | InvalidAppResponse
    | NoDownloadUrl
    | InvalidResponse

  /** The URL and file name every download attempt of an item uses. */
  datatype Transfer = Transfer(url: string, fname: string)

  /** A progress bar of the shared display, with its total length. */
  datatype Track = Track(fname: string, length: nat)

  /** A line of an item's log, before its text is rendered for the item's label. */
  datatype LogLine = Retry(number: nat) | Final(outcome: Outcome)

  /** Everything one run of the flow produces. */
  datatype Run = Run(outcome: Outcome, log: seq<LogLine>, attempts: nat,
                     transfer: Option<Transfer>, track: Option<Track>)

  /** Decimal digits of a natural number. */
  function NatToString(n: nat): (s: string)
    ensures |s| > 0
    decreases n
  {
    var d := [('0' as int + n % 10) as char];
    if n < 10 then d else NatToString(n / 10) + d
  }

  /** The line logged before retry `k` of the item with the given label. */
  function RetryLine(item: string, k: nat): string
  {
    "An error has occurred attempting to download " + item + ".  Retry #" + NatToString(k) + "..."
  }

  /** The retry lines logged after the first `n` failed attempts. */
  function RetryLines(n: nat): (lines: seq<LogLine>)
    ensures |lines| == n
  {
    if n == 0 then [] else RetryLines(n - 1) + [Retry(n)]
  }

  /** The two retry lines are logged with the source's exact wording. */
  lemma RetryLineText(item: string)
    ensures RetryLine(item, 1) == "An error has occurred attempting to download " + item + ".  Retry #1..."
    ensures RetryLine(item, 2) == "An error has occurred attempting to download " + item + ".  Retry #2..."
  {
    assert NatToString(1) == "1" && NatToString(2) == "2";
  }

  /** The one log line that ends the run with the given outcome: a prefix, the label, a suffix. */
  function TerminalLine(outcome: Outcome, item: string): string
  {
    TerminalPrefix(outcome) + item + TerminalSuffix(outcome)
  }

  function TerminalPrefix(outcome: Outcome): string
  {
    match outcome
    case Downloaded => ""
    case SkippedExists => "File already exists for "
    case SkippedPermission => "Permission denied when attempting to write file for "
    case Failed => "An error has occurred attempting to download "
    case InvalidAppResponse => "Invalid app response for "
    case NoDownloadUrl => "Could not get download URL for "
    case InvalidResponse => "Invalid response for "
  }

  function TerminalSuffix(outcome: Outcome): string
  {
    if outcome == Downloaded then " downloaded successfully!" else ". Skipping..."
  }

  /** The terminal line of each outcome carries the source's exact wording. */
  lemma TerminalLineText(item: string)
    ensures LineText(Final(Downloaded), item) == item + " downloaded successfully!"
    ensures LineText(Final(SkippedExists), item) == "File already exists for " + item + ". Skipping..."
    ensures LineText(Final(SkippedPermission), item) ==
      "Permission denied when attempting to write file for " + item + ". Skipping..."
    ensures LineText(Final(Failed), item) ==
      "An error has occurred attempting to download " + item + ". Skipping..."
    ensures LineText(Final(InvalidResponse), item) == "Invalid response for " + item + ". Skipping..."
    ensures LineText(Final(NoDownloadUrl), item) == "Could not get download URL for " + item + ". Skipping..."
    ensures LineText(Final(InvalidAppResponse), item) == "Invalid app response for " + item + ". Skipping..."
  {
    assert "" + item == item;
  }

  /** The text of a log line for an item with the given label. */
  function LineText(line: LogLine, item: string): string
  {
    match line
    case Retry(k) => RetryLine(item, k)
    case Final(outcome) => TerminalLine(outcome, item)
  }

  /** The texts of a run's log lines, in order. */
  function Render(log: seq<LogLine>, item: string): (texts: seq<string>)
    ensures |texts| == |log|
  {
    seq(|log|, i requires 0 <= i < |log| => LineText(log[i], item))
  }

  /** A progress bar is created exactly when the content length is known. */
  function ProgressFor(fname: string, length: Option<nat>): (t: Option<Track>)
  {
    match length
    case Some(n) => Some(Track(fname, n))
    case None => None
  }

  /**
   * Reference definition of the flow with the three retry arms nested by
   * hand, one arm per attempt.
   */
  function Nested(status: int, extraction: Option<Capture>, item: string,
                  fetched: bool, length: Option<nat>,
                  results: Attempts): (r: Run)
    ensures r.attempts <= MaxAttempts
    ensures r.attempts > 0 <==> status == StatusOk && extraction.Some? && fetched
    ensures |r.log| >= 1 && r.log[|r.log| - 1] == Final(r.outcome)
  {
    if status != StatusOk then
      Run(InvalidAppResponse, [Final(InvalidAppResponse)], 0, None, None)
    else match extraction
    case None =>
      Run(NoDownloadUrl, [Final(NoDownloadUrl)], 0, None, None)
    case Some(c) =>
      var fname := FileName(item, c.tag);
      var target := Some(Transfer(c.url, fname));
      if !fetched then
        Run(InvalidResponse, [Final(InvalidResponse)], 0, target, None)
      else
        NestedAttempts(item, target, ProgressFor(fname, length), results)
  }

  /**
   * The download arms of the reference definition: the first attempt, then
   * the hand-nested first and second retry.
   */
  function NestedAttempts(item: string, target: Option<Transfer>, track: Option<Track>,
                          results: Attempts): (r: Run)
    ensures 0 < r.attempts <= MaxAttempts
    ensures |r.log| >= 1 && r.log[|r.log| - 1] == Final(r.outcome)
  {
    match results.At(0)
    case Done =>
      Run(Downloaded, [Final(Downloaded)], 1, target, track)
    case FileExists =>
      Run(SkippedExists, [Final(SkippedExists)], 1, target, track)
    case PermissionDenied =>
      Run(SkippedPermission, [Final(SkippedPermission)], 1, target, track)
    case OtherError =>
      var retry1 := [Retry(1)];
      if results.At(1) == Done then
        Run(Downloaded, retry1 + [Final(Downloaded)], 2, target, track)
      else
        var retry2 := retry1 + [Retry(2)];
        if results.At(2) == Done then
          Run(Downloaded, retry2 + [Final(Downloaded)], 3, target, track)
        else
          Run(Failed, retry2 + [Final(Failed)], 3, target, track)
  }

  /**
   * The flow with the retries as a bounded loop over an attempt counter; it
   * behaves exactly as the hand-nested arms.
   */
  method DownloadFromResponse(status: int, extraction: Option<Capture>, item: string,
                              fetched: bool, length: Option<nat>,
                              results: Attempts)
    returns (run: Run)
    ensures run == Nested(status, extraction, item, fetched, length, results)
    ensures run.attempts <= MaxAttempts
  {
    if status != StatusOk {
      run := Run(InvalidAppResponse, [Final(InvalidAppResponse)], 0, None, None);
      return;
    }
    if extraction.None? {
      run := Run(NoDownloadUrl, [Final(NoDownloadUrl)], 0, None, None);
      return;
    }
    var fname := FileName(item, extraction.value.tag);
    var target := Some(Transfer(extraction.value.url, fname));
    if !fetched {
      run := Run(InvalidResponse, [Final(InvalidResponse)], 0, target, None);
      return;
    }
    run := RunAttempts(item, target, ProgressFor(fname, length), results);
  }

  /**
   * The download attempts as a loop over an attempt counter: the first
   * attempt, then at most two retries, with the same result as the
   * hand-nested arms.
   */
  method RunAttempts(item: string, target: Option<Transfer>, track: Option<Track>,
                     results: Attempts)
    returns (run: Run)
    ensures run == NestedAttempts(item, target, track, results)
    ensures 0 < run.attempts <= MaxAttempts
  {
    var log: seq<LogLine> := [];
    var n: nat := 0;
    var outcome: Option<Outcome> := None;
    while outcome.None?
      invariant n <= MaxAttempts
      invariant outcome.None? ==> n < MaxAttempts
      invariant outcome.None? ==> log == RetryLines(n)
      invariant outcome.None? && n >= 1 ==> results.At(0) == OtherError
      invariant outcome.None? ==> forall k :: 1 <= k < n ==> results.At(k) != Done
      invariant outcome.Some? ==>
        Run(outcome.value, log, n, target, track) == NestedAttempts(item, target, track, results)
      decreases MaxAttempts - n
    {
      var r := results.At(n);
      AttemptDecides(item, target, track, results, n);
      n := n + 1;
      if r == Done {
        outcome := Some(Downloaded);
      } else if n == 1 && r == FileExists {
        outcome := Some(SkippedExists);
      } else if n == 1 && r == PermissionDenied {
        outcome := Some(SkippedPermission);
      } else if n < MaxAttempts {
        log := log + [Retry(n)];
      } else {
        outcome := Some(Failed);
      }
      if outcome.Some? {
        log := log + [Final(outcome.value)];
      }
    }
    run := Run(outcome.value, log, n, target, track);
  }

  /**
   * Once every attempt before attempt `n` (counted from 0) failed with an
   * ordinary error, attempt `n` decides the run as soon as it succeeds, is
   * the first and is refused, or is the last.
   */
  lemma AttemptDecides(item: string, target: Option<Transfer>, track: Option<Track>,
                       results: Attempts, n: nat)
    requires n < MaxAttempts
    requires n >= 1 ==> results.At(0) == OtherError
    requires forall k :: 1 <= k < n ==> results.At(k) != Done
    ensures var e := NestedAttempts(item, target, track, results);
      var r := results.At(n);
      (r == Done ==> e == Run(Downloaded, RetryLines(n) + [Final(Downloaded)], n + 1, target, track)) &&
      (n == 0 && r == FileExists ==> e == Run(SkippedExists, [Final(SkippedExists)], 1, target, track)) &&
      (n == 0 && r == PermissionDenied ==>
        e == Run(SkippedPermission, [Final(SkippedPermission)], 1, target, track)) &&
      (n == MaxAttempts - 1 && r != Done ==>
        e == Run(Failed, RetryLines(n) + [Final(Failed)], MaxAttempts, target, track))
  {
    if n == 2 {
      assert results.At(1) != Done;
      assert RetryLines(2) == [Retry(1)] + [Retry(2)];
    } else if n == 1 {
      assert RetryLines(1) == [Retry(1)];
    } else {
      assert RetryLines(0) == [];
    }
  }

  /**
   * The steps before any download are terminal and make no attempt: a non-OK
   * lookup, a failed match and a failed initial request each end the run with
   * their own line, whatever the later stages would have reported.
   */
  lemma SkipsBeforeDownload(status: int, extraction: Option<Capture>, item: string,
                            fetched: bool, length: Option<nat>,
                            results: Attempts)
    ensures var run := Nested(status, extraction, item, fetched, length, results);
      (status != StatusOk ==>
        run == Run(InvalidAppResponse, [Final(InvalidAppResponse)], 0, None, None) &&
        Render(run.log, item) == ["Invalid app response for " + item + ". Skipping..."]) &&
      (status == StatusOk && extraction.None? ==>
        run == Run(NoDownloadUrl, [Final(NoDownloadUrl)], 0, None, None) &&
        Render(run.log, item) == ["Could not get download URL for " + item + ". Skipping..."]) &&
      (status == StatusOk && extraction.Some? && !fetched ==>
        run.outcome == InvalidResponse && run.attempts == 0 && run.track.None? &&
        Render(run.log, item) == ["Invalid response for " + item + ". Skipping..."])
  {
  }

  /** A non-OK lookup decides the run alone: extraction and download are never consulted. */
  lemma NonOkIgnoresLaterStages(status: int, item: string,
                                e1: Option<Capture>, f1: bool, l1: Option<nat>, r1: Attempts,
                                e2: Option<Capture>, f2: bool, l2: Option<nat>, r2: Attempts)
    requires status != StatusOk
    ensures Nested(status, e1, item, f1, l1, r1) == Nested(status, e2, item, f2, l2, r2)
  {
  }

  /** Downloads are attempted exactly when lookup, match and initial request succeed, at most three times. */
  lemma AttemptsBounded(status: int, extraction: Option<Capture>, item: string,
                        fetched: bool, length: Option<nat>,
                        results: Attempts)
    ensures var run := Nested(status, extraction, item, fetched, length, results);
      run.attempts <= MaxAttempts &&
      (run.attempts > 0 <==> status == StatusOk && extraction.Some? && fetched) &&
      (run.transfer.Some? <==> status == StatusOk && extraction.Some?) &&
      (run.transfer.Some? ==>
        run.transfer.value == Transfer(extraction.value.url, FileName(item, extraction.value.tag))) &&
      (run.track.Some? <==> run.attempts > 0 && length.Some?) &&
      (run.track.Some? ==> run.track.value == Track(run.transfer.value.fname, length.value))
  {
  }

  /** `FileExists` and `PermissionDenied` on the first attempt end the run without a retry. */
  lemma FirstAttemptTerminal(extraction: Option<Capture>, item: string, length: Option<nat>,
                             results: Attempts)
    requires extraction.Some?
    requires results.At(0) == FileExists || results.At(0) == PermissionDenied
    ensures var run := Nested(StatusOk, extraction, item, true, length, results);
      run.attempts == 1 &&
      run.outcome == (if results.At(0) == FileExists then SkippedExists else SkippedPermission) &&
      run.log == [Final(run.outcome)]
  {
  }

  /**
   * Once retrying, every error kind is treated alike: only whether each of the
   * later attempts succeeded matters.
   */
  lemma RetriesTreatErrorsAlike(extraction: Option<Capture>, item: string, length: Option<nat>,
                                r1: Attempts, r2: Attempts)
    requires r1.At(0) == OtherError && r2.At(0) == OtherError
    requires forall k :: 1 <= k < MaxAttempts ==> (r1.At(k) == Done <==> r2.At(k) == Done)
    ensures Nested(StatusOk, extraction, item, true, length, r1) ==
            Nested(StatusOk, extraction, item, true, length, r2)
  {
  }

  /**
   * The first successful attempt ends the run with success; every attempt
   * before it failed, and a run that does not succeed made no successful
   * attempt. Three failures, the first an ordinary error, end in `Failed`.
   */
  lemma FirstDoneStops(status: int, extraction: Option<Capture>, item: string,
                       fetched: bool, length: Option<nat>,
                       results: Attempts)
    ensures var run := Nested(status, extraction, item, fetched, length, results);
      (forall j :: 0 <= j < run.attempts - 1 ==> results.At(j) != Done) &&
      (run.outcome == Downloaded <==> run.attempts > 0 && results.At(run.attempts - 1) == Done) &&
      (run.outcome == Failed <==>
        status == StatusOk && extraction.Some? && fetched &&
        results.At(0) == OtherError && results.At(1) != Done && results.At(2) != Done) &&
      (run.outcome == Failed ==> run.attempts == MaxAttempts)
  {
  }

  /** Every run logs its retry lines in order and then exactly one terminal line. */
  lemma OneTerminalLine(status: int, extraction: Option<Capture>, item: string,
                          fetched: bool, length: Option<nat>,
                          results: Attempts)
    ensures var run := Nested(status, extraction, item, fetched, length, results);
      run.log == RetryLines(if run.attempts > 0 then run.attempts - 1 else 0) + [Final(run.outcome)]
  {
    if status == StatusOk && extraction.Some? && fetched {
      var fname := FileName(item, extraction.value.tag);
      AttemptsLog(item, Some(Transfer(extraction.value.url, fname)), ProgressFor(fname, length), results);
    }
  }

  /** The attempt stage logs one retry line per failed attempt before its terminal line. */
  lemma AttemptsLog(item: string, target: Option<Transfer>, track: Option<Track>, results: Attempts)
    ensures var run := NestedAttempts(item, target, track, results);
      run.log == RetryLines(run.attempts - 1) + [Final(run.outcome)]
  {
    var run := NestedAttempts(item, target, track, results);
    if run.attempts == 3 {
      assert RetryLines(2) == [Retry(1), Retry(2)];
    } else if run.attempts == 2 {
      assert RetryLines(1) == [Retry(1)];
    } else {
      assert RetryLines(0) == [];
    }
  }

  /** The capture a pattern finds in the lookup body; a pattern absent from the map finds none. */
  function Extract(captures: map<Pattern, Capture>, p: Pattern): (c: Option<Capture>)
    ensures c.Some? <==> p in captures
  {
    if p in captures then Some(captures[p]) else None
  }

  /** A requested item: the app id and the version pinned, if any. */
  datatype App = App(id: string, version: Option<string>)

  /**
   * What the outside world reports for one item: the lookup status, the
   * captures the extraction patterns find in the lookup body, whether the
   * initial request to the writer succeeded, the content length it knows,
   * and the result of each download attempt.
   */
  datatype ItemEnv = ItemEnv(status: int, captures: map<Pattern, Capture>,
                             fetched: bool, length: Option<nat>,
                             results: Attempts)

  /**
   * Trace of one item: its label, the pattern used, whether the launch delay
   * happened, the line announcing it, and its run, whose log is printed
   * after the announcement.
   */
  datatype ItemRun = ItemRun(item: string, pattern: Pattern, delayed: bool,
                             announce: string, run: Run)

  /** The line announcing an item before its lookup. */
  function AnnounceLine(app: App): string
  {
    match app.version
    case Some(v) => "Downloading " + app.id + " version " + v + "..."
    case None => "Downloading " + app.id + "..."
  }

  /** One item of the download batch: the announcement, then the flow on the item's label. */
  function DownloadItem(app: App, sleepMs: nat, env: ItemEnv): (r: ItemRun)
    ensures r.item == AppLabel(app.id, app.version)
    ensures r.delayed == (sleepMs > 0)
    ensures r.announce == AnnounceLine(app)
    ensures r.pattern.VersionScoped? <==> app.version.Some?
  {
    var item := AppLabel(app.id, app.version);
    var pattern := PatternFor(app.version);
    var run := Nested(env.status, Extract(env.captures, pattern), item, env.fetched, env.length, env.results);
    ItemRun(item, pattern, sleepMs > 0, AnnounceLine(app), run)
  }

  /** The batch: every item runs the flow with its own environment. */
  function DownloadApps(apps: seq<App>, sleepMs: nat, env: nat -> ItemEnv): (runs: seq<ItemRun>)
    ensures |runs| == |apps|
  {
    seq(|apps|, i requires 0 <= i < |apps| => DownloadItem(apps[i], sleepMs, env(i)))
  }

  /**
   * One item writes to its label plus the extension of the captured tag,
   * makes at most three attempts, and prints one line per retry and then
   * exactly one terminal line, last.
   */
  lemma ItemTerminates(app: App, sleepMs: nat, e: ItemEnv)
    ensures DownloadItem(app, sleepMs, e).run.attempts <= MaxAttempts
    ensures var r := DownloadItem(app, sleepMs, e);
      r.run.transfer.Some? ==>
        var c := Extract(e.captures, PatternFor(app.version));
        c.Some? && r.run.transfer.value.fname == FileName(r.item, c.value.tag)
    ensures var r := DownloadItem(app, sleepMs, e);
      var texts := Render(r.run.log, r.item);
      |texts| == 1 + (if r.run.attempts > 0 then r.run.attempts - 1 else 0) &&
      texts[|texts| - 1] == LineText(Final(r.run.outcome), r.item)
    ensures var r := DownloadItem(app, sleepMs, e);
      r.run.log == RetryLines(if r.run.attempts > 0 then r.run.attempts - 1 else 0) + [Final(r.run.outcome)]
  {
    var item := AppLabel(app.id, app.version);
    var c := Extract(e.captures, PatternFor(app.version));
    var run := Nested(e.status, c, item, e.fetched, e.length, e.results);
    AttemptsBounded(e.status, c, item, e.fetched, e.length, e.results);
    OneTerminalLine(e.status, c, item, e.fetched, e.length, e.results);
    RenderLast(run.log, run.outcome, item);
  }

  /** A log that ends with a final line renders that line's text last. */
  lemma RenderLast(log: seq<LogLine>, outcome: Outcome, item: string)
    requires |log| >= 1 && log[|log| - 1] == Final(outcome)
    ensures Render(log, item)[|log| - 1] == LineText(Final(outcome), item)
  {
  }

  /** Every item of a batch is labelled and announced as `DownloadItem` states. */
  lemma EveryItemAnnounced(apps: seq<App>, sleepMs: nat, env: nat -> ItemEnv, i: nat)
    requires i < |apps|
    ensures var r := DownloadApps(apps, sleepMs, env)[i];
      r.item == AppLabel(apps[i].id, apps[i].version) && r.delayed == (sleepMs > 0) &&
      r.announce == AnnounceLine(apps[i]) &&
      (r.pattern.VersionScoped? <==> apps[i].version.Some?)
  {
    var r := DownloadApps(apps, sleepMs, env)[i];
    assert r == DownloadItem(apps[i], sleepMs, env(i));
  }

  /** Every item of a batch behaves as `ItemTerminates` states. */
  lemma EveryItemTerminates(apps: seq<App>, sleepMs: nat, env: nat -> ItemEnv, i: nat)
    requires i < |apps|
    ensures DownloadApps(apps, sleepMs, env)[i].run.attempts <= MaxAttempts
    ensures var r := DownloadApps(apps, sleepMs, env)[i];
      r.run.transfer.Some? ==>
        var c := Extract(env(i).captures, PatternFor(apps[i].version));
        c.Some? && r.run.transfer.value.fname == FileName(r.item, c.value.tag)
    ensures var r := DownloadApps(apps, sleepMs, env)[i];
      var texts := Render(r.run.log, r.item);
      |texts| == 1 + (if r.run.attempts > 0 then r.run.attempts - 1 else 0) &&
      texts[|texts| - 1] == LineText(Final(r.run.outcome), r.item)
    ensures var r := DownloadApps(apps, sleepMs, env)[i];
      r.run.log == RetryLines(if r.run.attempts > 0 then r.run.attempts - 1 else 0) + [Final(r.run.outcome)]
  {
    ItemTerminates(apps[i], sleepMs, env(i));
  }
}
