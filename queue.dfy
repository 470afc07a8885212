/** The queue rules of the side panel: `SmartQueue.reorder`, the choice of the next
    scene in `processNext`, its retry and batch-rest rules, and `verifySceneOrder`. */
module Queue {
  import opened TextOps
  import opened Opt
  import opened Tasks
  import Ordering
  import Enhancer

  // ---------------------------------------------------------------------------
  // SmartQueue.reorder

  /** `p.priority || 2` */
  function EffectivePriority(t: Task): int {
    if t.priority == 0 then 2 else t.priority
  }

  /** The sort key of the `priority` strategy: higher priority first. */
  function PriorityKey(t: Task): int { -EffectivePriority(t) }

  /** The sort key of the `short-first` strategy: `a.text?.length || 0`. */
  function LengthKey(t: Task): int { |t.text| }

  /** `SmartQueue.reorder(tasks, strategy)` for every strategy but the random one. */
  function Reorder(tasks: seq<Task>, strategy: string): seq<Task>
    requires strategy != "shuffle"
  {
    if strategy == "priority" then Ordering.SortBy(tasks, PriorityKey)
    else if strategy == "short-first" then Ordering.SortBy(tasks, LengthKey)
    else tasks
  }

  /** Reordering is a permutation; `priority` puts higher priorities first and
      `short-first` shorter texts first, both keeping the input order among ties;
      `fifo` and unknown strategies return the input as it is. */
  lemma ReorderSpec(tasks: seq<Task>, strategy: string)
    requires strategy != "shuffle"
    ensures multiset(Reorder(tasks, strategy)) == multiset(tasks)
    ensures strategy == "priority" ==>
      (forall i, j :: 0 <= i < j < |Reorder(tasks, strategy)| ==>
         EffectivePriority(Reorder(tasks, strategy)[i]) >= EffectivePriority(Reorder(tasks, strategy)[j]))
      && (forall k :: Ordering.WithKey(Reorder(tasks, strategy), PriorityKey, k) == Ordering.WithKey(tasks, PriorityKey, k))
    ensures strategy == "short-first" ==>
      (forall i, j :: 0 <= i < j < |Reorder(tasks, strategy)| ==>
         |Reorder(tasks, strategy)[i].text| <= |Reorder(tasks, strategy)[j].text|)
      && (forall k :: Ordering.WithKey(Reorder(tasks, strategy), LengthKey, k) == Ordering.WithKey(tasks, LengthKey, k))
    ensures strategy != "priority" && strategy != "short-first" ==> Reorder(tasks, strategy) == tasks
  {
    if strategy == "priority" {
      Ordering.SortByCorrect(tasks, PriorityKey);
      var r := Reorder(tasks, strategy);
      assert forall i, j :: 0 <= i < j < |r| ==> PriorityKey(r[i]) <= PriorityKey(r[j]);
    } else if strategy == "short-first" {
      Ordering.SortByCorrect(tasks, LengthKey);
      var r := Reorder(tasks, strategy);
      assert forall i, j :: 0 <= i < j < |r| ==> LengthKey(r[i]) <= LengthKey(r[j]);
    }
  }

  /** `settings.queueStrategy`, the strategy `startQueue` reorders by: `'fifo'` when the
      panel loads, and never written afterwards. The strategy chosen in the settings
      form only reaches the `config` object sent to the content script. */
  const ConfiguredStrategy: string := "fifo"

  /** The strategy chosen in the settings form makes no difference to the queue: with
      two prompts of different priority, choosing `priority` would put the higher one
      first, yet the reorder `startQueue` performs keeps the list as it is. */
  lemma DropdownIgnored(a: Task, b: Task)
    requires EffectivePriority(a) < EffectivePriority(b)
    ensures Reorder([a, b], ConfiguredStrategy) == [a, b]
    ensures Reorder([a, b], "priority") == [b, a]
  {
    var r := Reorder([a, b], "priority");
    ReorderSpec([a, b], "priority");
    assert |r| == |multiset(r)| == 2;
    assert r[0] in multiset(r) && r[1] in multiset(r);
    assert r == [r[0], r[1]];
    if r[0] == a {
      assert false;
    }
    assert r[0] == b;
    assert multiset(r) == multiset{b} + multiset{r[1]};
    assert r[1] == a;
  }

  // ---------------------------------------------------------------------------
  // Choosing the next scene

  /** The filter of `processNext`: pending, or failed with retries left. */
  predicate Eligible(t: Task, maxRetries: int) {
    t.status == Pending || (t.status == Failed && t.retryCount < maxRetries)
  }

  /** `pendingScenes[0]`: among the eligible tasks, one with the smallest `sceneIndex`,
      the first in list order among equals (the sort is stable). */
  function NextIndex(l: seq<Task>, maxRetries: int): (r: Option<nat>)
    ensures r.Some? ==> r.value < |l|
    decreases |l|
  {
    if |l| == 0 then None
    else
      var prev := NextIndex(l[..|l| - 1], maxRetries);
      var last := |l| - 1;
      if !Eligible(l[last], maxRetries) then prev
      else if prev.None? || l[last].sceneIndex < l[prev.value].sceneIndex then Some(last)
      else prev
  }

  /** The choice is the eligible task with the smallest `sceneIndex`, no eligible task
      before it has the same index, and there is none exactly when nothing is eligible. */
  lemma {:induction false} NextIndexSpec(l: seq<Task>, maxRetries: int)
    ensures NextIndex(l, maxRetries).None? <==> forall j :: 0 <= j < |l| ==> !Eligible(l[j], maxRetries)
    ensures NextIndex(l, maxRetries).Some? ==>
      var i := NextIndex(l, maxRetries).value;
      Eligible(l[i], maxRetries)
      && (forall j :: 0 <= j < |l| && Eligible(l[j], maxRetries) ==> l[i].sceneIndex <= l[j].sceneIndex)
      && (forall j :: 0 <= j < i && Eligible(l[j], maxRetries) ==> l[i].sceneIndex < l[j].sceneIndex)
    decreases |l|
  {
    if |l| > 0 {
      var init := l[..|l| - 1];
      NextIndexSpec(init, maxRetries);
      assert forall j :: 0 <= j < |init| ==> init[j] == l[j];
    }
  }

  /** Any index with the properties of `NextIndexSpec` is the one chosen. */
  lemma NextIndexUnique(l: seq<Task>, maxRetries: int, k: nat)
    requires k < |l| && Eligible(l[k], maxRetries)
    requires forall j :: 0 <= j < |l| && Eligible(l[j], maxRetries) ==> l[k].sceneIndex <= l[j].sceneIndex
    requires forall j :: 0 <= j < k && Eligible(l[j], maxRetries) ==> l[k].sceneIndex < l[j].sceneIndex
    ensures NextIndex(l, maxRetries) == Some(k)
  {
    NextIndexSpec(l, maxRetries);
  }

  // ---------------------------------------------------------------------------
  // The retry rule

  /** A failed task put back in the queue by `processNext`. */
  function Retried(t: Task): Task {
    t.(retryCount := t.retryCount + 1, status := Pending)
  }

  predicate Retryable(t: Task, maxRetries: int) {
    t.status == Failed && t.retryCount < maxRetries
  }

  /** `autoRetryFailed` and the Retry-Failed button: every failed task with retries
      left becomes pending with one more retry and progress 0. */
  function RetryFailed(l: seq<Task>, maxRetries: int): (r: seq<Task>)
    ensures |r| == |l|
  {
    seq(|l|, i requires 0 <= i < |l| => if Retryable(l[i], maxRetries) then Retried(l[i]).(progress := 0) else l[i])
  }

  /** The number `autoRetryFailed` returns. */
  function RetryableCount(l: seq<Task>, maxRetries: int): (n: nat)
    ensures n <= |l|
  {
    if |l| == 0 then 0 else (if Retryable(l[0], maxRetries) then 1 else 0) + RetryableCount(l[1..], maxRetries)
  }

  /** Retry counts never go past `maxRetries` through the retry rule. */
  predicate RetriesBounded(l: seq<Task>, maxRetries: int) {
    forall i :: 0 <= i < |l| ==> l[i].retryCount <= maxRetries
  }

  /** What retrying the failed tasks does: exactly the retryable ones move to pending with
      one more retry, the bound on retries is kept, nothing retryable is left, and so a
      second retry changes nothing. */
  lemma RetryFailedSpec(l: seq<Task>, maxRetries: int)
    ensures forall i :: 0 <= i < |l| && Retryable(l[i], maxRetries) ==>
      RetryFailed(l, maxRetries)[i].status == Pending
      && RetryFailed(l, maxRetries)[i].retryCount == l[i].retryCount + 1
      && RetryFailed(l, maxRetries)[i].progress == 0
    ensures forall i :: 0 <= i < |l| && !Retryable(l[i], maxRetries) ==> RetryFailed(l, maxRetries)[i] == l[i]
    ensures RetriesBounded(l, maxRetries) ==> RetriesBounded(RetryFailed(l, maxRetries), maxRetries)
    ensures RetryableCount(RetryFailed(l, maxRetries), maxRetries) == 0
    ensures RetryFailed(RetryFailed(l, maxRetries), maxRetries) == RetryFailed(l, maxRetries)
  {
    var r := RetryFailed(l, maxRetries);
    assert forall i :: 0 <= i < |r| ==> !Retryable(r[i], maxRetries);
    NoneRetryable(r, maxRetries);
  }

  lemma {:induction false} NoneRetryable(l: seq<Task>, maxRetries: int)
    requires forall i :: 0 <= i < |l| ==> !Retryable(l[i], maxRetries)
    ensures RetryableCount(l, maxRetries) == 0
  {
    if |l| > 0 {
      assert forall i :: 0 <= i < |l[1..]| ==> l[1..][i] == l[i + 1];
      NoneRetryable(l[1..], maxRetries);
    }
  }

  // ---------------------------------------------------------------------------
  // The batch-rest rule

  /** `doneCount`: the tasks done or generating. */
  function ActiveCount(l: seq<Task>): nat {
    CountStatus(l, Done) + CountStatus(l, Generating)
  }

  /** `parseInt(batchSize) || 4` */
  function EffectiveBatch(batch: int): int {
    if batch == 0 then 4 else batch
  }

  function Abs(x: int): nat { if x < 0 then -x else x }

  /** The queue rests before `t` when the active count is a positive multiple of the
      batch size and `t` has not rested yet. The count is positive, so JavaScript's `%`
      agrees with the remainder modulo the absolute value of the batch size. */
  predicate ShouldRest(l: seq<Task>, batch: int, t: Task) {
    ActiveCount(l) > 0 && ActiveCount(l) % Abs(EffectiveBatch(batch)) == 0 && !t.hasRestedBatch
  }

  // ---------------------------------------------------------------------------
  // processNext

  /** The message a dispatched task sends to the content script. */
  datatype Submission = TextPrompt(text: string) | ImageTask(uuid: string, prompt: string)

  /** Text tasks send the enhanced and optimised text, tagged with their uuid. */
  function SubmissionFor(t: Task, style: string, ctx: Enhancer.SceneContext): Submission {
    if Contains(t.uuid, "TXT") then
      TextPrompt("[" + t.uuid + "] " + Enhancer.Optimize(Enhancer.Enhance(t.text, style, true, ctx)))
    else ImageTask(t.uuid, t.prompt)
  }

  datatype Verdict = InOrder | FailedScenes(labels: string) | GapAt(expected: nat)

  /** What one run of `processNext` does (when the queue is running and not paused). */
  datatype Step =
    | Waiting                                      // nothing eligible, some task still generating
    | Drained(verdict: Verdict)                    // nothing eligible, nothing generating: the queue stops
    | Rested(index: nat)                           // the batch limit is reached before this task
    | Dispatched(index: nat, submission: Submission)
    | SubmitFailed(index: nat)                     // the submission step threw

  datatype Outcome = Outcome(step: Step, tasks: seq<Task>)

  /** `processNext` on the task list. `submitThrows` says whether the submission step
      throws; the page's reply itself never makes it fail. */
  function ProcessStep(l: seq<Task>, maxRetries: int, batch: int, style: string,
                       ctx: Enhancer.SceneContext, submitThrows: bool): Outcome
  {
    match NextIndex(l, maxRetries)
    case None =>
      if CountStatus(l, Generating) > 0 then Outcome(Waiting, l)
      else Outcome(Drained(VerifySceneOrder(l)), l)
    case Some(i) =>
      var t := if l[i].status == Failed then Retried(l[i]) else l[i];
      if ShouldRest(l, batch, t) then Outcome(Rested(i), l[i := t.(hasRestedBatch := true)])
      else if submitThrows then Outcome(SubmitFailed(i), l[i := t.(status := Failed)])
      else Outcome(Dispatched(i, SubmissionFor(t, style, ctx)), l[i := t.(status := Generating)])
  }

  /** The task `processNext` acts on is the one `NextIndex` picks; only that task changes,
      a failed one is retried first, and its new status says what happened. The queue
      rests exactly when the batch-rest rule holds for the picked task, and the task fails
      exactly when it does not rest and the submission throws. When nothing is eligible,
      the list is left as it is. */
  lemma ProcessStepSpec(l: seq<Task>, maxRetries: int, batch: int, style: string,
                        ctx: Enhancer.SceneContext, submitThrows: bool)
    ensures var o := ProcessStep(l, maxRetries, batch, style, ctx, submitThrows);
      |o.tasks| == |l|
      && (o.step.Waiting? || o.step.Drained? ==> o.tasks == l && NextIndex(l, maxRetries).None?)
      && (o.step.Waiting? <==> NextIndex(l, maxRetries).None? && CountStatus(l, Generating) > 0)
      && (!o.step.Waiting? && !o.step.Drained? ==>
            NextIndex(l, maxRetries) == Some(o.step.index)
            && (forall j :: 0 <= j < |l| && j != o.step.index ==> o.tasks[j] == l[j])
            && o.tasks[o.step.index].retryCount
               == l[o.step.index].retryCount + (if l[o.step.index].status == Failed then 1 else 0)
            && o.tasks[o.step.index].sceneIndex == l[o.step.index].sceneIndex)
      && (o.step.Rested? ==> o.tasks[o.step.index].status == Pending && o.tasks[o.step.index].hasRestedBatch)
      && (o.step.Dispatched? ==> o.tasks[o.step.index].status == Generating)
      && (o.step.SubmitFailed? ==> o.tasks[o.step.index].status == Failed)
      && (o.step.Rested? <==>
            (NextIndex(l, maxRetries).Some? && ShouldRest(l, batch, l[NextIndex(l, maxRetries).value])))
      && (o.step.SubmitFailed? <==>
            (NextIndex(l, maxRetries).Some? && !ShouldRest(l, batch, l[NextIndex(l, maxRetries).value])
             && submitThrows))
  {
    NextIndexSpec(l, maxRetries);
  }

  /** The retry rule inside `processNext` keeps retry counts within `maxRetries`. */
  lemma ProcessStepKeepsRetriesBounded(l: seq<Task>, maxRetries: int, batch: int, style: string,
                                       ctx: Enhancer.SceneContext, submitThrows: bool)
    requires RetriesBounded(l, maxRetries)
    ensures RetriesBounded(ProcessStep(l, maxRetries, batch, style, ctx, submitThrows).tasks, maxRetries)
  {
    NextIndexSpec(l, maxRetries);
  }

  /** A rest is taken at most once per task: right after resting, the next run picks the
      same task again and, since its flag is now set, submits it instead of resting. */
  lemma {:induction false} RestedThenProceeds(l: seq<Task>, maxRetries: int, batch: int, style: string,
                                              ctx: Enhancer.SceneContext, submitThrows: bool)
    requires ProcessStep(l, maxRetries, batch, style, ctx, submitThrows).step.Rested?
    ensures var o := ProcessStep(l, maxRetries, batch, style, ctx, submitThrows);
      var o2 := ProcessStep(o.tasks, maxRetries, batch, style, ctx, submitThrows);
      (o2.step.Dispatched? || o2.step.SubmitFailed?) && o2.step.index == o.step.index
  {
    var o := ProcessStep(l, maxRetries, batch, style, ctx, submitThrows);
    var i := o.step.index;
    var l2 := o.tasks;
    NextIndexSpec(l, maxRetries);
    assert Eligible(l2[i], maxRetries);
    forall j | 0 <= j < |l2| && Eligible(l2[j], maxRetries)
      ensures l2[i].sceneIndex <= l2[j].sceneIndex
      ensures j < i ==> l2[i].sceneIndex < l2[j].sceneIndex
    {
      if j != i {
        assert l2[j] == l[j];
      }
    }
    NextIndexUnique(l2, maxRetries, i);
  }

  // ---------------------------------------------------------------------------
  // verifySceneOrder

  /** The scene indexes of the done tasks, in list order. */
  function DoneScenes(l: seq<Task>): (r: seq<nat>)
    ensures |r| == CountStatus(l, Done)
  {
    if |l| == 0 then []
    else (if l[0].status == Done then [l[0].sceneIndex] else []) + DoneScenes(l[1..])
  }

  /** `p.sceneLabel || \`S${p.sceneIndex}\``. A scene index of 0 stands for an absent
      one (an image task has none), which the template literal prints as `undefined`. */
  function Label(t: Task): string {
    if t.sceneLabel != "" then t.sceneLabel
    else if t.sceneIndex == 0 then "Sundefined"
    else "S" + NatToString(t.sceneIndex)
  }

  predicate IsFailed(t: Task) { t.status == Failed }

  /** `failed.map(p => ...)`: the labels of the failed tasks, in list order. */
  function FailedLabels(l: seq<Task>): (r: seq<string>)
    ensures |r| == CountStatus(l, Failed)
  {
    if |l| == 0 then []
    else (if l[0].status == Failed then [Label(l[0])] else []) + FailedLabels(l[1..])
  }

  /** The labels are those of the failed tasks, one each and in list order. */
  lemma {:induction false} FailedLabelsSpec(l: seq<Task>)
    ensures var r, f := FailedLabels(l), Keep(l, IsFailed);
      |r| == |f| && forall k :: 0 <= k < |r| ==> r[k] == Label(f[k])
  {
    if |l| > 0 {
      FailedLabelsSpec(l[1..]);
      var r, f := FailedLabels(l[1..]), Keep(l[1..], IsFailed);
      if IsFailed(l[0]) {
        assert FailedLabels(l) == [Label(l[0])] + r;
        assert Keep(l, IsFailed) == [l[0]] + f;
      } else {
        assert FailedLabels(l) == r;
        assert Keep(l, IsFailed) == f;
      }
    }
  }

  /** A failed image task, which has neither a scene label nor a scene index, is
      reported as `Sundefined`. */
  lemma FailedImageLabel(t: Task)
    requires t.status == Failed && t.sceneLabel == "" && t.sceneIndex == 0
    ensures VerifySceneOrder([t]) == FailedScenes("Sundefined")
  {
    assert [t][1..] == [];
  }

  function SceneKey(n: nat): int { n }

  /** The first position, from `i` on, where the sorted indexes leave the run 1, 2, ... */
  function FirstGap(s: seq<nat>, i: nat): (r: Option<nat>)
    ensures r.Some? ==> i + 1 <= r.value <= |s| && s[r.value - 1] != r.value
    decreases |s| - i
  {
    if i >= |s| then None
    else if s[i] != i + 1 then Some(i + 1)
    else FirstGap(s, i + 1)
  }

  /** The run 1, 2, ..., k. */
  function Run(k: nat): (r: seq<nat>)
    ensures |r| == k && forall i :: 0 <= i < k ==> r[i] == i + 1
  {
    seq(k, i requires 0 <= i < k => i + 1)
  }

  /** `verifySceneOrder(list)` */
  function VerifySceneOrder(l: seq<Task>): Verdict {
    var failed := FailedLabels(l);
    if |failed| > 0 then FailedScenes(Join(failed, ", "))
    else match FirstGap(Ordering.SortBy(DoneScenes(l), SceneKey), 0)
      case Some(e) => GapAt(e)
      case None => InOrder
  }

  lemma {:induction false} FirstGapNone(s: seq<nat>, i: nat)
    requires i <= |s|
    requires forall j :: 0 <= j < i ==> s[j] == j + 1
    ensures FirstGap(s, i).None? <==> s == Run(|s|)
    decreases |s| - i
  {
    if i < |s| && s[i] == i + 1 {
      FirstGapNone(s, i + 1);
    }
  }

  /** Two sorted sequences with the same elements start with the same element. */
  lemma SortedHeads(a: seq<nat>, b: seq<nat>)
    requires Ordering.SortedBy(a, SceneKey) && Ordering.SortedBy(b, SceneKey)
    requires multiset(a) == multiset(b) && |a| > 0
    ensures |b| == |a| && a[0] == b[0]
  {
    assert |b| == |multiset(b)| == |multiset(a)| == |a|;
    assert a[0] in multiset(b) && b[0] in multiset(a);
    var i :| 0 <= i < |b| && b[i] == a[0];
    var j :| 0 <= j < |a| && a[j] == b[0];
    assert SceneKey(b[0]) <= SceneKey(b[i]);
    assert SceneKey(a[0]) <= SceneKey(a[j]);
  }

  /** Dropping the same first element leaves the same elements. */
  lemma TailsSameElements(a: seq<nat>, b: seq<nat>)
    requires multiset(a) == multiset(b) && |a| > 0 && |b| > 0 && a[0] == b[0]
    ensures multiset(a[1..]) == multiset(b[1..])
  {
    assert a == [a[0]] + a[1..] && b == [b[0]] + b[1..];
    assert multiset(a) == multiset{a[0]} + multiset(a[1..]);
    assert multiset(b) == multiset{b[0]} + multiset(b[1..]);
    assert multiset(a[1..]) == multiset(a) - multiset{a[0]};
    assert multiset(b[1..]) == multiset(b) - multiset{b[0]};
  }

  /** Two sorted sequences with the same elements are equal. */
  lemma {:induction false} SortedUnique(a: seq<nat>, b: seq<nat>)
    requires Ordering.SortedBy(a, SceneKey) && Ordering.SortedBy(b, SceneKey)
    requires multiset(a) == multiset(b)
    ensures a == b
  {
    if |a| > 0 {
      SortedHeads(a, b);
      TailsSameElements(a, b);
      assert Ordering.SortedBy(a[1..], SceneKey) && Ordering.SortedBy(b[1..], SceneKey);
      SortedUnique(a[1..], b[1..]);
      assert a == [a[0]] + a[1..] && b == [b[0]] + b[1..];
    } else {
      assert |multiset(b)| == 0;
    }
  }

  /** The verdict is `InOrder` exactly when no task failed and the done tasks' scene
      indexes are, as a multiset, exactly 1..k for k the number of done tasks. */
  lemma VerifySceneOrderSpec(l: seq<Task>)
    ensures VerifySceneOrder(l) == InOrder <==>
      CountStatus(l, Failed) == 0 && multiset(DoneScenes(l)) == multiset(Run(CountStatus(l, Done)))
    ensures VerifySceneOrder(l).FailedScenes? <==> CountStatus(l, Failed) > 0
  {
    var d := DoneScenes(l);
    var s := Ordering.SortBy(d, SceneKey);
    Ordering.SortByCorrect(d, SceneKey);
    FirstGapNone(s, 0);
    var k := |d|;
    assert Ordering.SortedBy(Run(k), SceneKey);
    if multiset(d) == multiset(Run(k)) {
      SortedUnique(s, Run(k));
    }
  }

  // ---------------------------------------------------------------------------
  // checkDownload

  /** A task `checkDownload` picks: done and not yet downloaded. */
  predicate ToDownload(t: Task) {
    t.status == Done && !t.isDownloaded
  }

  function Downloaded(t: Task): Task {
    if ToDownload(t) then t.(isDownloaded := true) else t
  }

  /** The list after `checkDownload` with auto-download on: every picked task has been
      sent for download and is marked. */
  function MarkDownloaded(l: seq<Task>): seq<Task> {
    seq(|l|, i requires 0 <= i < |l| => Downloaded(l[i]))
  }

  /** The loop of `checkDownload` over the done, undownloaded tasks. The download request
      itself is I/O; `sendMessage` never rejects, so every picked task gets its flag. */
  method CheckDownload(l: seq<Task>) returns (r: seq<Task>)
    ensures r == MarkDownloaded(l)
  {
    r := l;
    for i := 0 to |l|
      invariant |r| == |l|
      invariant forall k :: 0 <= k < i ==> r[k] == Downloaded(l[k])
      invariant forall k :: i <= k < |l| ==> r[k] == l[k]
    {
      if ToDownload(l[i]) {
        r := r[i := l[i].(isDownloaded := true)];
      }
    }
  }

  /** Afterwards no task is left to download; exactly the done tasks that were not
      downloaded change, and only in their flag; a second check changes nothing. */
  lemma MarkDownloadedSpec(l: seq<Task>)
    ensures var r := MarkDownloaded(l);
      |r| == |l|
      && (forall i :: 0 <= i < |r| ==> !ToDownload(r[i]))
      && (forall i :: 0 <= i < |l| ==> (r[i] != l[i] <==> ToDownload(l[i])))
      && (forall i :: 0 <= i < |l| ==> r[i].(isDownloaded := l[i].isDownloaded) == l[i])
      && MarkDownloaded(r) == r
  {
  }
}
