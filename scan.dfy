/** The content script's answer to `SCAN_PROGRESS`: it counts the finished videos on
    the page, reads the highest percentage shown, looks for error messages, and from
    those three readings alone assigns a state to every task of the ordered uuid list.
    The page is given as the readings the source takes from it. */
module Scan {
  import opened Opt
  import opened TextOps
  import opened Tasks
  import Merge

  // ---------------------------------------------------------------------------
  // countCompletedVideos

  /** A source url counted as a finished video. */
  predicate IsVideoUrl(src: string) {
    StartsWith(src, "http") || StartsWith(src, "blob:")
  }

  /** The distinct video urls among the page's video sources (`""` for a video without
      one). */
  function CompletedVideoUrls(srcs: seq<string>): set<string> {
    set s | s in srcs && IsVideoUrl(s)
  }

  /** `countCompletedVideos`: the sources are collected into a set. */
  method CountCompletedVideos(srcs: seq<string>) returns (count: nat)
    ensures count == |CompletedVideoUrls(srcs)|
  {
    var uniqueUrls: set<string> := {};
    for i := 0 to |srcs|
      invariant uniqueUrls == CompletedVideoUrls(srcs[..i])
    {
      if srcs[i] != "" && IsVideoUrl(srcs[i]) {
        uniqueUrls := uniqueUrls + {srcs[i]};
      }
      assert srcs[..i + 1] == srcs[..i] + [srcs[i]];
    }
    assert srcs[..|srcs|] == srcs;
    count := |uniqueUrls|;
  }

  /** The count never exceeds the number of video elements, and a video whose url is
      already on the page does not add to it. */
  lemma {:induction false} CompletedVideosBound(srcs: seq<string>)
    ensures |CompletedVideoUrls(srcs)| <= |srcs|
  {
    if |srcs| > 0 {
      var init := srcs[..|srcs| - 1];
      CompletedVideosBound(init);
      assert srcs == init + [srcs[|srcs| - 1]];
      var last := srcs[|srcs| - 1];
      assert CompletedVideoUrls(srcs) == CompletedVideoUrls(init) + (if IsVideoUrl(last) then {last} else {});
    } else {
      assert CompletedVideoUrls(srcs) == {};
    }
  }

  lemma CompletedVideosRepeat(srcs: seq<string>, s: string)
    requires s in srcs
    ensures CompletedVideoUrls(srcs + [s]) == CompletedVideoUrls(srcs)
  {
  }

  // ---------------------------------------------------------------------------
  // getCurrentGeneratingProgress

  /** An element of the page: its text and whether it has no child elements. */
  datatype Node = Node(text: string, leaf: bool)

  /** `/^\d+%$/` on the trimmed text, read with `parseInt`. */
  function PercentText(text: string): Option<nat> {
    var t := Trim(text);
    if |t| >= 2 && t[|t| - 1] == '%' && AllDigits(t[..|t| - 1]) then Some(DigitsValue(t[..|t| - 1]))
    else None
  }

  /** A number printed with a percent sign reads back as that number. */
  lemma PercentTextRoundTrip(n: nat)
    ensures PercentText(NatToString(n) + "%") == Some(n)
  {
    var t := NatToString(n) + "%";
    assert !IsSpace(t[0]) && !IsSpace(t[|t| - 1]);
    TrimNoop(t);
    assert t[..|t| - 1] == NatToString(n);
    NatToStringRoundTrip(n);
  }

  /** A leaf whose whole text is a percentage from 1 to 100 shows that progress. */
  predicate Shows(n: Node, p: nat) {
    n.leaf && PercentText(n.text) == Some(p) && 0 < p <= 100
  }

  function Reading(n: Node): nat {
    if n.leaf && PercentText(n.text).Some? && 0 < PercentText(n.text).value <= 100 then PercentText(n.text).value
    else 0
  }

  /** The largest value `f` takes on the elements, and 0 for none. */
  function MaxOf<T>(xs: seq<T>, f: T -> nat): nat {
    if |xs| == 0 then 0
    else
      var m, p := MaxOf(xs[..|xs| - 1], f), f(xs[|xs| - 1]);
      if p > m then p else m
  }

  /** The maximum bounds every value, and is one of them when positive. */
  lemma {:induction false} MaxOfSpec<T>(xs: seq<T>, f: T -> nat)
    ensures forall i :: 0 <= i < |xs| ==> f(xs[i]) <= MaxOf(xs, f)
    ensures MaxOf(xs, f) > 0 ==> exists i :: 0 <= i < |xs| && f(xs[i]) == MaxOf(xs, f)
  {
    if |xs| > 0 {
      var k := |xs| - 1;
      var init := xs[..k];
      MaxOfSpec(init, f);
      forall i | 0 <= i < k ensures xs[i] == init[i] {
      }
      if MaxOf(xs, f) > 0 && MaxOf(xs, f) != f(xs[k]) {
        var i :| 0 <= i < |init| && f(init[i]) == MaxOf(init, f);
        assert f(xs[i]) == MaxOf(xs, f);
      }
    }
  }

  /** The running maximum of the readings. */
  function MaxProgress(nodes: seq<Node>): nat {
    MaxOf(nodes, Reading)
  }

  /** `getCurrentGeneratingProgress`: the loop over every element. */
  method GetCurrentGeneratingProgress(nodes: seq<Node>) returns (maxProgress: nat)
    ensures maxProgress == MaxProgress(nodes)
  {
    maxProgress := 0;
    for i := 0 to |nodes|
      invariant maxProgress == MaxProgress(nodes[..i])
    {
      var text := Trim(nodes[i].text);
      if text != "" && nodes[i].leaf {
        var percent := PercentText(text);
        if percent.Some? && 0 < percent.value <= 100 && percent.value > maxProgress {
          maxProgress := percent.value;
        }
      }
      ReadingTrimmed(nodes[i]);
      MaxProgressStep(nodes, i);
    }
    assert nodes[..|nodes|] == nodes;
  }

  /** What the loop reads from one element is its `Reading`: the pattern test on the
      already trimmed text gives the same answer. */
  lemma ReadingTrimmed(n: Node)
    ensures var text := Trim(n.text);
      Reading(n) == if text != "" && n.leaf && PercentText(text).Some? && 0 < PercentText(text).value <= 100
                    then PercentText(text).value else 0
  {
    TrimTwice(n.text);
  }

  lemma MaxProgressStep(nodes: seq<Node>, i: nat)
    requires i < |nodes|
    ensures MaxProgress(nodes[..i + 1]) == if Reading(nodes[i]) > MaxProgress(nodes[..i]) then Reading(nodes[i]) else MaxProgress(nodes[..i])
  {
    assert nodes[..i + 1][..i] == nodes[..i];
  }

  /** An element's reading is the progress it shows, and 0 when it shows none. */
  lemma ReadingShows(n: Node, p: nat)
    ensures Reading(n) <= 100
    ensures Shows(n, p) ==> p == Reading(n)
    ensures Reading(n) > 0 ==> Shows(n, Reading(n))
  {
  }

  /** The progress read from the page is the largest percentage any leaf shows, 0 when
      none shows one, and so always lies between 0 and 100. */
  lemma MaxProgressSpec(nodes: seq<Node>)
    ensures MaxProgress(nodes) <= 100
    ensures forall i, p: nat :: 0 <= i < |nodes| && Shows(nodes[i], p) ==> p <= MaxProgress(nodes)
    ensures MaxProgress(nodes) > 0 ==> exists i :: 0 <= i < |nodes| && Shows(nodes[i], MaxProgress(nodes))
  {
    MaxOfSpec(nodes, Reading);
    forall i, p: nat | 0 <= i < |nodes| && Shows(nodes[i], p) ensures p <= MaxProgress(nodes) {
      ReadingShows(nodes[i], p);
    }
    if MaxProgress(nodes) > 0 {
      var i :| 0 <= i < |nodes| && Reading(nodes[i]) == MaxProgress(nodes);
      ReadingShows(nodes[i], 0);
    }
  }

  /** Trimming is idempotent on the texts the loop reads. */
  lemma TrimTwice(s: string)
    ensures Trim(Trim(s)) == Trim(s)
  {
    TrimNoop(Trim(s));
  }

  // ---------------------------------------------------------------------------
  // checkForErrors

  const ErrorTexts: seq<string> := ["error", "failed", "lỗi", "không thể", "try a different"]

  /** The lower-cased text contains one of the error phrases. */
  predicate MentionsError(text: string) {
    exists k :: 0 <= k < |ErrorTexts| && Contains(ToLower(text), ErrorTexts[k])
  }

  /** The loop over the alert elements, which stops at the first that mentions an error. */
  function AnyMentions(alerts: seq<string>): (b: bool)
    ensures b <==> exists i :: 0 <= i < |alerts| && MentionsError(alerts[i])
  {
    |alerts| > 0 && (MentionsError(alerts[0]) || AnyMentions(alerts[1..]))
  }

  /** `checkForErrors`: the alert texts, then the main content's text when there is a
      main content element. */
  function CheckForErrors(alerts: seq<string>, main: Option<string>): bool {
    AnyMentions(alerts) || (main.Some? && MentionsError(main.value))
  }

  /** An error phrase written in any mix of ASCII letter cases, anywhere in any alert, is
      reported, whatever else the page shows. */
  lemma ErrorPhraseReported(alerts: seq<string>, i: nat, a: string, m: string, b: string, k: nat, main: Option<string>)
    requires i < |alerts| && alerts[i] == a + m + b
    requires k < |ErrorTexts| && ToLower(m) == ErrorTexts[k]
    ensures CheckForErrors(alerts, main)
  {
    LowerContainsMiddle(a, m, b);
  }

  // ---------------------------------------------------------------------------
  // scanProgress

  /** The page as `scanProgress` reads it. */
  datatype Page = Page(videoSrcs: seq<string>, nodes: seq<Node>, alerts: seq<string>, main: Option<string>)

  /** The state given to the task at position `i` when `completed` videos are on the
      page. Fields the source leaves out read as `false` and as an empty url list. */
  function Classify(uuid: string, i: nat, completed: nat, progress: int, hasError: bool): ScanResult {
    if i < completed then ScanResult(uuid, 100, true, false, [])
    else if i == completed then
      if progress > 0 then ScanResult(uuid, progress, progress >= 100, hasError, [])
      else if hasError then ScanResult(uuid, 0, true, true, [])
      else ScanResult(uuid, 0, false, false, [])
    else ScanResult(uuid, 0, false, false, [])
  }

  function ScanWith(uuids: seq<string>, completed: nat, progress: int, hasError: bool): (r: seq<ScanResult>)
    ensures |r| == |uuids|
    ensures forall i :: 0 <= i < |r| ==> r[i] == Classify(uuids[i], i, completed, progress, hasError)
  {
    seq(|uuids|, i requires 0 <= i < |uuids| => Classify(uuids[i], i, completed, progress, hasError))
  }

  /** `scanProgress` on a page. */
  function ScanProgress(uuids: seq<string>, page: Page): seq<ScanResult> {
    ScanWith(uuids, |CompletedVideoUrls(page.videoSrcs)|, MaxProgress(page.nodes), CheckForErrors(page.alerts, page.main))
  }

  /** One result per uuid, in order. The tasks before position C (the number of
      finished videos) are done at 100 and the tasks after it pending at 0, neither
      with an error; only the task at C can carry an error or a partial progress. */
  lemma ScanWithShape(uuids: seq<string>, completed: nat, progress: int, hasError: bool)
    ensures var r := ScanWith(uuids, completed, progress, hasError);
      |r| == |uuids|
      && (forall i :: 0 <= i < |r| ==> r[i].uuid == uuids[i] && r[i].videoUrls == [])
      && (forall i :: 0 <= i < |r| && i < completed ==> r[i].process == 100 && r[i].isDone && !r[i].isError)
      && (forall i :: 0 <= i < |r| && i > completed ==> r[i].process == 0 && !r[i].isDone && !r[i].isError)
      && (forall i :: 0 <= i < |r| && (r[i].isError || 0 < r[i].process < 100) ==> i == completed)
  {
  }

  /** The task at position C: a positive progress is reported as is, done from 100 on,
      with the error flag as read; without progress an error makes it done and failed at
      once, and otherwise it is still running at 0. */
  lemma ScanWithCurrent(uuids: seq<string>, completed: nat, progress: int, hasError: bool)
    requires completed < |uuids|
    ensures var c := ScanWith(uuids, completed, progress, hasError)[completed];
      (progress > 0 ==> c.process == progress && (c.isDone <==> progress >= 100) && c.isError == hasError)
      && (progress <= 0 ==> c.process == 0 && c.isDone == hasError && c.isError == hasError)
  {
  }

  /** On a real page, the reported progress never rises along the list, each value lies
      in 0..100, and the done tasks form a prefix of the list. */
  lemma ScanProgressOrdered(uuids: seq<string>, page: Page)
    ensures var r := ScanProgress(uuids, page);
      (forall i :: 0 <= i < |r| ==> 0 <= r[i].process <= 100)
      && (forall i, j :: 0 <= i < j < |r| ==> r[i].process >= r[j].process)
      && (forall i, j :: 0 <= i < j < |r| && r[j].isDone ==> r[i].isDone)
  {
    MaxProgressSpec(page.nodes);
  }

  /** An error message on the page fails the task at position C when the panel merges
      the scan, even when the same scan reports it done: with a progress of 100 shown, or
      with none shown at all. */
  lemma ErrorFailsCurrent(uuids: seq<string>, completed: nat, progress: int, t: Task, now: int)
    requires completed < |uuids|
    ensures var c := ScanWith(uuids, completed, progress, true)[completed];
      (progress >= 100 || progress <= 0) ==> c.isDone && c.isError
    ensures Merge.MergeTask(t, ScanWith(uuids, completed, progress, true)[completed], now).status == Failed
  {
  }
}
