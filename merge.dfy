/** How the side panel folds what it learns from the page into its tasks: the
    `SCAN_PROGRESS` replies handled by `monitor` and the `VIDEO_COMPLETED` push
    handled by `handleVideoCompleted`. */
module Merge {
  import opened Opt
  import opened Tasks

  /** `list.find(x => x.uuid === uuid)`: the first task with that uuid. */
  function FindByUuid(l: seq<Task>, uuid: string): (r: Option<nat>)
    ensures r.Some? ==> (r.value < |l| && l[r.value].uuid == uuid
      && forall j :: 0 <= j < r.value ==> l[j].uuid != uuid)
    ensures r.None? ==> forall j :: 0 <= j < |l| ==> l[j].uuid != uuid
  {
    if |l| == 0 then None
    else if l[0].uuid == uuid then Some(0)
    else match FindByUuid(l[1..], uuid)
      case Some(j) => Some(j + 1)
      case None => None
  }

  /** `completionTimes.slice(-20)` once there are more than 20. */
  function KeepLast20(times: seq<int>): (r: seq<int>)
    ensures |r| == (if |times| > 20 then 20 else |times|)
    ensures r == times[|times| - |r|..]
  {
    if |times| > 20 then times[|times| - 20..] else times
  }

  /** One scan result applied to its task, in the order of the source's four steps:
      progress, completion, video urls, error. */
  function MergeTask(t: Task, r: ScanResult, now: int): Task {
    var t1 := t.(progress := r.process);
    var t2 := if r.isDone && t1.status != Done then t1.(status := Done, completedAt := now) else t1;
    var t3 := if |r.videoUrls| > 0 then t2.(videoUrls := r.videoUrls) else t2;
    if r.isError && t3.status != Failed then t3.(status := Failed) else t3
  }

  /** The elapsed time recorded when a task newly completes and its start time is
      known (a start time of 0 counts as unknown, like JavaScript's falsy test). */
  function RecordTime(times: seq<int>, t: Task, r: ScanResult, starts: map<string, int>, now: int): seq<int> {
    if r.isDone && t.status != Done && t.uuid in starts && starts[t.uuid] != 0 then
      KeepLast20(times + [now - starts[t.uuid]])
    else times
  }

  /** A completion with a recorded start time appends the elapsed time, and the history
      keeps the newest 20 entries, in order; any other result leaves it as it was. */
  lemma RecordTimeSpec(times: seq<int>, t: Task, r: ScanResult, starts: map<string, int>, now: int)
    ensures var h := RecordTime(times, t, r, starts, now);
      if r.isDone && t.status != Done && t.uuid in starts && starts[t.uuid] != 0 then
        var all := times + [now - starts[t.uuid]];
        |h| == (if |all| > 20 then 20 else |all|) && h == all[|all| - |h|..]
        && h[|h| - 1] == now - starts[t.uuid]
      else h == times
  {
  }

  /** The tasks and the completion times the panel keeps. */
  datatype Merged = Merged(tasks: seq<Task>, times: seq<int>)

  /** One iteration of `monitor`'s loop over the results. */
  function MergeOne(m: Merged, r: ScanResult, starts: map<string, int>, now: int): Merged {
    match FindByUuid(m.tasks, r.uuid)
    case None => m
    case Some(i) => Merged(m.tasks[i := MergeTask(m.tasks[i], r, now)], RecordTime(m.times, m.tasks[i], r, starts, now))
  }

  /** The body of `monitor`'s loop for one result: find the task, then update its
      progress, completion (recording the elapsed time), video urls and error in turn. */
  method ApplyResult(tasks: seq<Task>, times: seq<int>, r: ScanResult, starts: map<string, int>, now: int)
    returns (tasks': seq<Task>, times': seq<int>)
    ensures Merged(tasks', times') == MergeOne(Merged(tasks, times), r, starts, now)
  {
    tasks', times' := tasks, times;
    var found := FindByUuid(tasks, r.uuid);
    if found.Some? {
      var k := found.value;
      var item := tasks[k];
      item := item.(progress := r.process);
      if r.isDone && item.status != Done {
        item := item.(status := Done, completedAt := now);
        if item.uuid in starts && starts[item.uuid] != 0 {
          times' := KeepLast20(times + [now - starts[item.uuid]]);
        }
      }
      if |r.videoUrls| > 0 {
        item := item.(videoUrls := r.videoUrls);
      }
      if r.isError && item.status != Failed {
        item := item.(status := Failed);
      }
      tasks' := tasks[k := item];
    }
  }

  /** The whole loop of `monitor`. */
  function MergeAll(m: Merged, results: seq<ScanResult>, starts: map<string, int>, now: int): Merged
    decreases |results|
  {
    if |results| == 0 then m
    else MergeAll(MergeOne(m, results[0], starts, now), results[1..], starts, now)
  }

  /** What merging one result may do to its task: the status only ever becomes done or
      failed, completion is stamped only on a task not already done, and the video urls
      are replaced only by a non-empty list. Uuid, scene and texts are untouched. */
  lemma MergeTaskSpec(t: Task, r: ScanResult, now: int)
    ensures var u := MergeTask(t, r, now);
      (u.status == t.status || u.status == Done || u.status == Failed)
      && (u.completedAt != t.completedAt ==> t.status != Done && u.completedAt == now)
      && (u.videoUrls == t.videoUrls || (|r.videoUrls| > 0 && u.videoUrls == r.videoUrls))
      && u.progress == r.process
      && u.uuid == t.uuid && u.sceneIndex == t.sceneIndex && u.text == t.text && u.retryCount == t.retryCount
  {
  }

  /** A result that reports completion and an error together turns a done task into a
      failed one: the error step runs after the completion step. */
  lemma MergeTaskDoneToFailed(t: Task, r: ScanResult, now: int)
    requires t.status == Done && r.isDone && r.isError
    ensures MergeTask(t, r, now).status == Failed
  {
  }

  /** The relation between a task before and after any number of merges. */
  predicate Evolved(a: Task, b: Task, now: int) {
    (b.status == a.status || b.status == Done || b.status == Failed)
    && (b.completedAt != a.completedAt ==> b.completedAt == now)
    && b.uuid == a.uuid && b.sceneIndex == a.sceneIndex && b.text == a.text && b.retryCount == a.retryCount
  }

  predicate AllEvolved(a: seq<Task>, b: seq<Task>, now: int) {
    |a| == |b| && forall i :: 0 <= i < |a| ==> Evolved(a[i], b[i], now)
  }

  lemma EvolvedTrans(a: Task, b: Task, c: Task, now: int)
    requires Evolved(a, b, now) && Evolved(b, c, now)
    ensures Evolved(a, c, now)
  {
  }

  /** Over the whole loop: the list keeps its length and uuids, no task moves back to
      pending or generating, completion times only ever take the value `now`, and a
      history of at most 20 elapsed times stays at most 20 long. */
  lemma {:induction false} MergeAllSpec(m: Merged, results: seq<ScanResult>, starts: map<string, int>, now: int)
    ensures AllEvolved(m.tasks, MergeAll(m, results, starts, now).tasks, now)
    ensures |m.times| <= 20 ==> |MergeAll(m, results, starts, now).times| <= 20
    decreases |results|
  {
    if |results| > 0 {
      var m1 := MergeOne(m, results[0], starts, now);
      var found := FindByUuid(m.tasks, results[0].uuid);
      if found.Some? {
        var i := found.value;
        MergeTaskSpec(m.tasks[i], results[0], now);
        assert Evolved(m.tasks[i], m1.tasks[i], now);
      }
      assert AllEvolved(m.tasks, m1.tasks, now);
      MergeAllSpec(m1, results[1..], starts, now);
      var fin := MergeAll(m, results, starts, now).tasks;
      forall k | 0 <= k < |m.tasks| ensures Evolved(m.tasks[k], fin[k], now) {
        EvolvedTrans(m.tasks[k], m1.tasks[k], fin[k], now);
      }
    } else {
      assert forall k :: 0 <= k < |m.tasks| ==> Evolved(m.tasks[k], m.tasks[k], now);
    }
  }

  // ---------------------------------------------------------------------------
  // handleVideoCompleted

  /** The first generating task. */
  function FirstGenerating(l: seq<Task>): (r: Option<nat>)
    ensures r.Some? ==> (r.value < |l| && l[r.value].status == Generating
      && forall j :: 0 <= j < r.value ==> l[j].status != Generating)
    ensures r.None? ==> forall j :: 0 <= j < |l| ==> l[j].status != Generating
  {
    if |l| == 0 then None
    else if l[0].status == Generating then Some(0)
    else match FirstGenerating(l[1..])
      case Some(j) => Some(j + 1)
      case None => None
  }

  /** The first generating task is characterised by its two properties. */
  lemma FirstGeneratingIs(l: seq<Task>, k: nat)
    requires k < |l| && l[k].status == Generating
    requires forall j :: 0 <= j < k ==> l[j].status != Generating
    ensures FirstGenerating(l) == Some(k)
  {
  }

  /** A pushed video url completes a task: the url is added once, progress is 100. */
  function Complete(t: Task, url: string, now: int): Task {
    t.(videoUrls := if url in t.videoUrls then t.videoUrls else t.videoUrls + [url],
       progress := 100, status := Done, completedAt := now)
  }

  /** `handleVideoCompleted`: the first generating task of `[...prompts, ...imageTasks]`. */
  function VideoCompleted(prompts: seq<Task>, images: seq<Task>, url: string, now: int): (r: (seq<Task>, seq<Task>)) {
    match FirstGenerating(prompts)
    case Some(i) => (prompts[i := Complete(prompts[i], url, now)], images)
    case None =>
      match FirstGenerating(images)
      case Some(i) => (prompts, images[i := Complete(images[i], url, now)])
      case None => (prompts, images)
  }

  /** The two lists change as the one combined list `[...prompts, ...imageTasks]` of the
      source does: its first generating task is completed in place. */
  lemma VideoCompletedCombined(prompts: seq<Task>, images: seq<Task>, url: string, now: int)
    ensures var (p, g) := VideoCompleted(prompts, images, url, now);
      var before := prompts + images;
      |p| == |prompts| && |g| == |images|
      && p + g == match FirstGenerating(before)
                  case None => before
                  case Some(k) => before[k := Complete(before[k], url, now)]
  {
    var before := prompts + images;
    match FirstGenerating(prompts)
    case Some(i) =>
      assert forall j :: 0 <= j < i ==> before[j] == prompts[j];
      FirstGeneratingIs(before, i);
      UpdateLeft(prompts, images, i, Complete(prompts[i], url, now));
    case None =>
      match FirstGenerating(images)
      case Some(i) =>
        assert forall j :: 0 <= j < |prompts| ==> before[j] == prompts[j];
        assert forall j :: |prompts| <= j < |prompts| + i ==> before[j] == images[j - |prompts|];
        FirstGeneratingIs(before, |prompts| + i);
        UpdateRight(prompts, images, i, Complete(images[i], url, now));
      case None =>
        assert forall j :: 0 <= j < |prompts| ==> before[j] == prompts[j];
        assert forall j :: |prompts| <= j < |before| ==> before[j] == images[j - |prompts|];
        assert FirstGenerating(before).None?;
  }

  lemma UpdateLeft<T>(a: seq<T>, b: seq<T>, i: nat, x: T)
    requires i < |a|
    ensures a[i := x] + b == (a + b)[i := x]
  {
  }

  lemma UpdateRight<T>(a: seq<T>, b: seq<T>, i: nat, x: T)
    requires i < |b|
    ensures a + b[i := x] == (a + b)[|a| + i := x]
  {
  }

  /** On the combined list: exactly the first generating task becomes done, with the url
      among its videos and none of its old ones lost, and one task fewer is generating;
      with no generating task nothing changes. */
  lemma CompleteFirstSpec(l: seq<Task>, url: string, now: int)
    ensures match FirstGenerating(l)
      case None => true
      case Some(k) =>
        var after := l[k := Complete(l[k], url, now)];
        after[k].status == Done && url in after[k].videoUrls && after[k].progress == 100
        && multiset(l[k].videoUrls) <= multiset(after[k].videoUrls)
        && (forall j :: 0 <= j < |l| && j != k ==> after[j] == l[j])
        && CountStatus(after, Generating) == CountStatus(l, Generating) - 1
  {
    match FirstGenerating(l)
    case None =>
    case Some(k) =>
      CountUpdate(l, k, Complete(l[k], url, now), Generating);
  }

  /** Replacing one task changes a status count by the change at that position. */
  lemma {:induction false} CountUpdate(l: seq<Task>, i: nat, t: Task, s: Status)
    requires i < |l|
    ensures CountStatus(l[i := t], s)
         == CountStatus(l, s) - (if l[i].status == s then 1 else 0) + (if t.status == s then 1 else 0)
  {
    if i > 0 {
      CountUpdate(l[1..], i - 1, t, s);
      assert l[i := t][1..] == l[1..][i - 1 := t];
    } else {
      assert l[i := t][1..] == l[1..];
    }
  }
}
