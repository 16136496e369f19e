/** The pure computations behind `ralph status` (status.js): the
    completed/pending split, the percentage and the 40-cell progress bar,
    the pending-story listing, the configuration defaults and the recent
    iteration headings taken from `ralph/progress.txt`. Console output is
    not modelled: the report is returned as a value. */
module StatusView {
  import opened JsValues
  import opened JsStrings
  import opened JsNumbers
  import opened Prd

  /** Number of cells of the progress bar. */
  const BarWidth: nat := 40
  /** Number of pending stories listed by name. */
  const PendingShown: nat := 5
  /** Number of iteration headings shown from the progress log. */
  const RecentShown: nat := 3
  /** A progress-log line that opens an iteration entry starts with this. */
  const IterationPrefix: string := "## Iteration"
  /** The text `line.replace('## ', '')` removes. */
  const HeadingMarker: string := "## "

  function Min(a: int, b: int): int {
    if a <= b then a else b
  }

  // ---------------------------------------------------------------------
  // Rounding lemmas for the exact `Math.round` model
  // ---------------------------------------------------------------------

  /** Cancelling a positive factor keeps a strict inequality. */
  lemma CancelFactor(a: int, b: int, d: int)
    requires d > 0 && a * d < b * d
    ensures a < b
  {
  }

  /** The rounded ratio `n / d` stays within `0..m` when `n` does within
      `0..m * d`. */
  lemma RoundRatioRange(n: int, d: int, m: int)
    requires d > 0 && 0 <= n <= m * d
    ensures 0 <= RoundRatio(n, d) <= m
  {
    var r := RoundRatio(n, d);
    CancelFactor(-1, 2 * r, d);
    assert (2 * m + 2) * d == 2 * (m * d) + 2 * d;
    CancelFactor(2 * r, 2 * m + 2, d);
  }

  /** An exact multiple rounds to itself. */
  lemma RoundRatioExact(k: int, d: int)
    requires d > 0
    ensures RoundRatio(k * d, d) == k
  {
    var r := RoundRatio(k * d, d);
    assert (2 * k - 1) * d == 2 * (k * d) - d;
    CancelFactor(2 * k - 1, 2 * r, d);
    assert (2 * k + 2) * d == 2 * (k * d) + 2 * d;
    CancelFactor(2 * r, 2 * k + 2, d);
  }

  /** Rounding is monotone in the numerator. */
  lemma RoundRatioMonotone(n1: int, n2: int, d: int)
    requires d > 0 && n1 <= n2
    ensures RoundRatio(n1, d) <= RoundRatio(n2, d)
  {
    var r1, r2 := RoundRatio(n1, d), RoundRatio(n2, d);
    assert (2 * r2 + 2) * d == 2 * r2 * d + 2 * d;
    CancelFactor(2 * r1, 2 * r2 + 2, d);
  }

  // ---------------------------------------------------------------------
  // Percentage and progress bar (status.js lines 41-46)
  // ---------------------------------------------------------------------

  /** `total > 0 ? Math.round((done / total) * 100) : 0`: the percentage of
      stories done, rounded to the nearest integer, halves up. */
  function Percent(done: nat, total: nat): (pct: int)
    requires done <= total
    ensures 0 <= pct <= 100
    ensures total > 0 ==> 200 * done - total < 2 * pct * total <= 200 * done + total
    ensures done == 0 ==> pct == 0
    ensures 0 < done == total ==> pct == 100
  {
    if total > 0 then
      RoundRatioRange(100 * done, total, 100);
      if done == 0 then
        RoundRatioExact(0, total);
        RoundRatio(100 * done, total)
      else if done == total then
        RoundRatioExact(100, total);
        assert 100 * done == 100 * total;
        RoundRatio(100 * done, total)
      else
        RoundRatio(100 * done, total)
    else
      0
  }

  /** More stories done never shows a smaller percentage. */
  lemma PercentMonotone(done1: nat, done2: nat, total: nat)
    requires done1 <= done2 <= total
    ensures Percent(done1, total) <= Percent(done2, total)
  {
    if total > 0 {
      RoundRatioMonotone(100 * done1, 100 * done2, total);
    }
  }

  /** The progress bar: `filled` cells followed by `empty` cells. */
  datatype Bar = Bar(filled: nat, empty: nat)

  /** `filled = Math.round((done / total) * 40) || 0` and
      `empty = 40 - filled`. With no stories the ratio is `NaN`, which the
      `|| 0` turns into an empty bar. */
  function ProgressBar(done: nat, total: nat): (bar: Bar)
    requires done <= total
    ensures bar.filled + bar.empty == BarWidth
    ensures total == 0 || done == 0 ==> bar.filled == 0
    ensures 0 < done == total ==> bar.filled == BarWidth
    ensures total > 0 ==>
      2 * BarWidth * done - total < 2 * bar.filled * total <= 2 * BarWidth * done + total
  {
    var filled: int :=
      if total > 0 then
        RoundRatioRange(BarWidth * done, total, BarWidth);
        if done == 0 then
          RoundRatioExact(0, total);
          RoundRatio(BarWidth * done, total)
        else if done == total then
          RoundRatioExact(BarWidth, total);
          RoundRatio(BarWidth * done, total)
        else
          RoundRatio(BarWidth * done, total)
      else
        0;
    Bar(filled, BarWidth - filled)
  }

  /** The bar and the percentage agree on the extremes: the bar is full
      exactly at 100% and empty at 0%. */
  lemma BarMatchesPercent(done: nat, total: nat)
    requires done <= total
    ensures Percent(done, total) == 0 ==> ProgressBar(done, total).filled == 0
    ensures done == total > 0 ==> ProgressBar(done, total).empty == 0
  {
    var f := ProgressBar(done, total).filled;
    if total > 0 && Percent(done, total) == 0 {
      // 200 * done < total, so 80 * done < total and the bar rounds to 0
      assert 80 * done < total;
      CancelFactor(2 * f, 2, total);
    }
  }

  // ---------------------------------------------------------------------
  // Pending listing (status.js lines 78-90)
  // ---------------------------------------------------------------------

  /** One listed pending story; `attempts` holds the count shown in the
      `(N attempts)` note, absent when no note is shown. */
  datatype PendingLine = PendingLine(id: string, title: string, attempts: Option<int>)

  /** `const attempts = story.attempts || 0`, shown only when `> 0`. */
  function AttemptsNote(s: Story): (note: Option<int>)
    ensures note.Some? <==> s.attempts.Some? && s.attempts.value > 0
    ensures note.Some? ==> note == s.attempts
  {
    var attempts := OrInt(s.attempts, 0);
    if attempts > 0 then Some(attempts) else None
  }

  function LineOf(s: Story): PendingLine {
    PendingLine(s.id, s.title, AttemptsNote(s))
  }

  /** The "Pending Stories" section: the listed stories and, when some
      are left out, how many (`... and N more`). */
  datatype PendingSection = PendingSection(shown: seq<PendingLine>, more: Option<nat>)

  /** The section for the pending stories `pending`, absent when there are
      none. */
  function PendingListing(pending: seq<Story>): (p: Option<PendingSection>)
    ensures p.None? <==> |pending| == 0
    ensures p.Some? ==> |p.value.shown| == Min(PendingShown, |pending|)
    ensures p.Some? ==>
      forall k :: 0 <= k < |p.value.shown| ==> p.value.shown[k] == LineOf(pending[k])
    ensures p.Some? ==> (p.value.more.Some? <==> |pending| > PendingShown)
    ensures p.Some? && p.value.more.Some? ==> p.value.more.value == |pending| - PendingShown
  {
    if |pending| == 0 then
      None
    else
      var toShow := if |pending| <= PendingShown then pending else pending[..PendingShown];
      var more := if |pending| > PendingShown then Some(|pending| - PendingShown) else None;
      Some(PendingSection(seq(|toShow|, k requires 0 <= k < |toShow| => LineOf(toShow[k])), more))
  }

  /** The listed stories plus the `N more` account for every pending story. */
  lemma PendingListingAccounts(pending: seq<Story>)
    requires |pending| > 0
    ensures var p := PendingListing(pending).value;
      |p.shown| + p.more.GetOr(0) == |pending|
  {
  }

  // ---------------------------------------------------------------------
  // Recent iterations (status.js lines 93-104)
  // ---------------------------------------------------------------------

  predicate IsIterationLine(line: string) {
    StartsWith(line, IterationPrefix)
  }

  /** `lines.filter(l => l.startsWith('## Iteration'))`, in file order. */
  function IterationLines(lines: seq<string>): (r: seq<string>)
    ensures |r| <= |lines|
    ensures forall k :: 0 <= k < |r| ==> IsIterationLine(r[k]) && r[k] in lines
  {
    if |lines| == 0 then []
    else if IsIterationLine(lines[0]) then [lines[0]] + IterationLines(lines[1..])
    else IterationLines(lines[1..])
  }

  lemma {:induction false} IterationLinesAppend(lines: seq<string>, line: string)
    ensures IterationLines(lines + [line]) ==
      IterationLines(lines) + (if IsIterationLine(line) then [line] else [])
  {
    if |lines| > 0 {
      assert (lines + [line])[1..] == lines[1..] + [line];
      IterationLinesAppend(lines[1..], line);
    } else {
      assert lines + [line] == [line];
      assert [line][1..] == [];
    }
  }

  /** Conversely, the filter drops no iteration heading of the log. */
  lemma {:induction false} IterationLinesComplete(lines: seq<string>)
    ensures forall k :: 0 <= k < |lines| && IsIterationLine(lines[k]) ==> lines[k] in IterationLines(lines)
  {
    if |lines| > 0 {
      IterationLinesComplete(lines[1..]);
      forall k | 0 < k < |lines| ensures lines[k] == lines[1..][k - 1] { }
    }
  }

  /** `xs.slice(-n)` for `n > 0`: the last `n` elements, or all of them.
      (`slice(-0)` would return the whole array, hence the requires.) */
  function LastN<T>(xs: seq<T>, n: nat): (r: seq<T>)
    requires n > 0
    ensures |r| == Min(n, |xs|)
    ensures r == xs[|xs| - |r|..]
  {
    if |xs| <= n then xs else xs[|xs| - n..]
  }

  /** `line.replace('## ', '')` over each heading. */
  function StripHeadings(lines: seq<string>): (r: seq<string>)
    ensures |r| == |lines|
    ensures forall k :: 0 <= k < |r| ==> r[k] == ReplaceFirst(lines[k], HeadingMarker, "")
  {
    seq(|lines|, k requires 0 <= k < |lines| => ReplaceFirst(lines[k], HeadingMarker, ""))
  }

  /** An iteration heading loses exactly its leading `## `. */
  lemma StripIterationLine(line: string)
    requires IsIterationLine(line)
    ensures ReplaceFirst(line, HeadingMarker, "") == line[3..]
    ensures HeadingMarker + line[3..] == line
  {
    assert line[..3] == IterationPrefix[..3] == HeadingMarker;
    ReplacePrefix(line, HeadingMarker, "");
    assert "" + line[3..] == line[3..];
    assert line == line[..3] + line[3..];
  }

  /** The "Recent Iterations" entries: the last three iteration headings of
      the progress log, in file order, without their `## `. Empty when the
      log is missing or has no heading (the section is then not shown).
      Which lines they come from is stated by `RecentAreIterationHeadings`. */
  function RecentIterations(progress: Option<string>): (r: seq<string>)
    ensures progress.None? ==> r == []
    ensures |r| <= RecentShown
    ensures progress.Some? ==>
      |r| == Min(RecentShown, |IterationLines(Split(progress.value, '\n'))|)
  {
    match progress
    case None => []
    case Some(text) => StripHeadings(LastN(IterationLines(Split(text, '\n')), RecentShown))
  }

  /** Stripping iteration headings loses nothing but their `## `. */
  lemma StripHeadingsRestores(lines: seq<string>)
    requires forall k :: 0 <= k < |lines| ==> IsIterationLine(lines[k])
    ensures forall k :: 0 <= k < |lines| ==> HeadingMarker + StripHeadings(lines)[k] == lines[k]
  {
    forall k | 0 <= k < |lines| ensures HeadingMarker + StripHeadings(lines)[k] == lines[k] {
      StripIterationLine(lines[k]);
    }
  }

  /** Of any list of iteration headings, the shown entries with their `## `
      put back are the last `min(3, n)` headings, in order. */
  lemma LastHeadingsShown(h: seq<string>)
    requires forall k :: 0 <= k < |h| ==> IsIterationLine(h[k])
    ensures var r := StripHeadings(LastN(h, RecentShown));
      && |r| == Min(RecentShown, |h|)
      && forall k :: 0 <= k < |r| ==> HeadingMarker + r[k] == h[|h| - |r| + k]
  {
    var recent := LastN(h, RecentShown);
    forall k | 0 <= k < |recent| ensures IsIterationLine(recent[k]) {
      assert recent[k] == h[|h| - |recent| + k];
    }
    StripHeadingsRestores(recent);
  }

  /** The recent entries, with their `## ` put back, are the last
      `min(3, n)` of the log's `n` iteration headings, in file order. */
  lemma RecentAreLastHeadings(text: string)
    ensures var r := RecentIterations(Some(text));
      var h := IterationLines(Split(text, '\n'));
      && |r| == Min(RecentShown, |h|)
      && forall k :: 0 <= k < |r| ==> HeadingMarker + r[k] == h[|h| - |r| + k]
  {
    LastHeadingsShown(IterationLines(Split(text, '\n')));
  }

  /** Every recent entry, with its `## ` put back, is a line of the log that
      opens an iteration. */
  lemma RecentAreIterationHeadings(text: string)
    ensures var r := RecentIterations(Some(text));
      forall k :: 0 <= k < |r| ==>
        var line := HeadingMarker + r[k];
        line in Split(text, '\n') && IsIterationLine(line)
  {
    var headings := IterationLines(Split(text, '\n'));
    var recent := LastN(headings, RecentShown);
    forall k | 0 <= k < |recent| ensures recent[k] in Split(text, '\n') && IsIterationLine(recent[k]) {
      assert recent[k] == headings[|headings| - |recent| + k];
    }
    StripHeadingsRestores(recent);
  }

  /** Appending an iteration heading to the log makes it the last recent
      entry, shown without its `## `. */
  lemma NewIterationShownLast(text: string, line: string)
    requires IsIterationLine(line) && '\n' !in line
    ensures var r := RecentIterations(Some(text + "\n" + line));
      |r| > 0 && r[|r| - 1] == line[3..]
  {
    var parts := Split(text, '\n');
    JoinAppend(parts, line, '\n');
    assert forall k :: 0 <= k < |parts + [line]| ==> '\n' !in (parts + [line])[k] by {
      forall k | 0 <= k < |parts + [line]| ensures '\n' !in (parts + [line])[k] {
        if k < |parts| { assert (parts + [line])[k] == parts[k]; }
      }
    }
    SplitJoin(parts + [line], '\n');
    assert text + "\n" + line == text + ['\n'] + line;
    IterationLinesAppend(parts, line);
    StripIterationLine(line);
  }

  // ---------------------------------------------------------------------
  // Configuration and the whole report (status.js lines 17-104)
  // ---------------------------------------------------------------------

  /** The configuration values as displayed. */
  datatype ConfigView = ConfigView(maxIterations: int, stuckThreshold: int)

  /** `prd.config.maxIterations || 50` and `prd.config.stuckThreshold || 3`:
      a missing value or `0` shows the default. */
  function ShowConfig(c: Config): (v: ConfigView)
    ensures c.maxIterations.None? || c.maxIterations == Some(0) ==> v.maxIterations == 50
    ensures c.maxIterations.Some? && c.maxIterations.value != 0 ==> v.maxIterations == c.maxIterations.value
    ensures c.stuckThreshold.None? || c.stuckThreshold == Some(0) ==> v.stuckThreshold == 3
    ensures c.stuckThreshold.Some? && c.stuckThreshold.value != 0 ==> v.stuckThreshold == c.stuckThreshold.value
  {
    ConfigView(OrInt(c.maxIterations, 50), OrInt(c.stuckThreshold, 3))
  }

  /** `text || fallback` for an optional string property: the empty string
      is falsy too. */
  function TextOr(text: Option<string>, fallback: string): (r: string)
    ensures text.Some? && |text.value| > 0 ==> r == text.value
    ensures text.None? || text.value == "" ==> r == fallback
  {
    if text.Some? && |text.value| > 0 then text.value else fallback
  }

  /** Everything `ralph status` shows once the files exist. */
  datatype Report = Report(
    project: string,
    branch: string,
    done: nat,
    total: nat,
    percent: int,
    bar: Bar,
    config: Option<ConfigView>,
    pending: Option<PendingSection>,
    recent: seq<string>)

  datatype StatusOutcome = NotInitialized | NoPrd | Shown(report: Report)

  /** `ralph status` given whether `ralph/` and `ralph/prd.json` exist, the
      parsed document, and the progress log (absent when the file is
      missing). */
  function Status(ralphDirExists: bool, prdExists: bool, prd: Document, progress: Option<string>): (s: StatusOutcome)
    ensures s == NotInitialized <==> !ralphDirExists
    ensures s == NoPrd <==> ralphDirExists && !prdExists
    ensures s.Shown? ==>
      && s.report.total == |StoriesOf(prd)|
      && s.report.done + |Pending(StoriesOf(prd))| == s.report.total
      && s.report.done == |Completed(StoriesOf(prd))|
    ensures s.Shown? ==> (s.report.pending.None? <==> !HasPending(StoriesOf(prd)))
    ensures s.Shown? ==> (s.report.config.Some? <==> prd.config.Some?)
    ensures s.Shown? ==>
      && s.report.percent == Percent(s.report.done, s.report.total)
      && s.report.bar == ProgressBar(s.report.done, s.report.total)
      && s.report.pending == PendingListing(Pending(StoriesOf(prd)))
      && s.report.recent == RecentIterations(progress)
      && (prd.config.Some? ==> s.report.config == Some(ShowConfig(prd.config.value)))
      && s.report.project == TextOr(prd.project, "Unknown")
      && s.report.branch == TextOr(prd.branchName, "N/A")
  {
    if !ralphDirExists then
      NotInitialized
    else if !prdExists then
      NoPrd
    else
      var stories := StoriesOf(prd);
      var completed := Completed(stories);
      var pending := Pending(stories);
      Partition(stories);
      PendingEmptyIff(stories);
      var total := |stories|;
      var done := |completed|;
      Shown(Report(
        TextOr(prd.project, "Unknown"),
        TextOr(prd.branchName, "N/A"),
        done,
        total,
        Percent(done, total),
        ProgressBar(done, total),
        if prd.config.Some? then Some(ShowConfig(prd.config.value)) else None,
        PendingListing(pending),
        RecentIterations(progress)))
  }

  /** A finished project shows 100%, a full bar and no pending section. */
  lemma AllDoneReport(prd: Document, progress: Option<string>)
    requires |StoriesOf(prd)| > 0 && !HasPending(StoriesOf(prd))
    ensures var s := Status(true, true, prd, progress);
      && s.report.percent == 100
      && s.report.bar == Bar(BarWidth, 0)
      && s.report.pending.None?
  {
    PendingEmptyIff(StoriesOf(prd));
    Partition(StoriesOf(prd));
  }
}
