/** The side panel's module-level state (`prompts`, `imageTasks`, `logs`,
    `completionTimes`, `taskStartTimes`, `isRunning`, `isPaused`, `currentMode`) and the
    handlers that update it in place. Each handler is proved against the function that
    specifies it in `Queue`, `Merge`, `Edits` or `PanelLog`; the properties of those
    functions are proved there. */
module Panel {
  import opened Opt
  import opened TextOps
  import opened Tasks
  import opened Queue
  import Merge
  import Edits
  import PanelLog
  import Enhancer

  /** The open tab: the text tab, the dashboard, or any other (the image tab among them). */
  datatype Mode = TextTab | DashboardTab | OtherTab

  /** `(l.retryCount || 0) < max` counted over a prefix grows one task at a time. */
  lemma {:induction false} RetryableCountAppend(a: seq<Task>, b: seq<Task>, maxRetries: int)
    ensures RetryableCount(a + b, maxRetries) == RetryableCount(a, maxRetries) + RetryableCount(b, maxRetries)
  {
    if |a| > 0 {
      RetryableCountAppend(a[1..], b, maxRetries);
      assert (a + b)[1..] == a[1..] + b;
    } else {
      assert a + b == b;
    }
  }

  class PanelState {
    var prompts: seq<Task>
    var imageTasks: seq<Task>
    var mode: Mode
    var running: bool
    var paused: bool
    var completionTimes: seq<int>
    var taskStartTimes: map<string, int>
    var logs: seq<PanelLog.LogEntry>

    /** The list the queue works on: the prompts on the text tab and the dashboard, the
        image tasks otherwise. */
    function Active(): seq<Task>
      reads this
    {
      if mode == OtherTab then imageTasks else prompts
    }

    constructor ()
      ensures prompts == [] && imageTasks == [] && mode == TextTab && !running && !paused
      ensures completionTimes == [] && taskStartTimes == map[] && logs == []
    {
      prompts := [];
      imageTasks := [];
      mode := TextTab;
      running := false;
      paused := false;
      completionTimes := [];
      taskStartTimes := map[];
      logs := [];
    }

    /** Stores `l` as the active list. */
    method SetActive(l: seq<Task>)
      modifies this
      ensures Active() == l
      ensures mode == OtherTab ==> prompts == old(prompts)
      ensures mode != OtherTab ==> imageTasks == old(imageTasks)
      ensures mode == old(mode) && running == old(running) && paused == old(paused)
      ensures completionTimes == old(completionTimes) && taskStartTimes == old(taskStartTimes) && logs == old(logs)
    {
      if mode == OtherTab {
        imageTasks := l;
      } else {
        prompts := l;
      }
    }

    // -------------------------------------------------------------------------
    // addLog

    method AddLog(kind: string, message: string, data: string)
      modifies this
      ensures logs == PanelLog.AddLog(old(logs), PanelLog.MakeEntry(kind, message, data))
      ensures prompts == old(prompts) && imageTasks == old(imageTasks) && mode == old(mode)
      ensures running == old(running) && paused == old(paused)
      ensures completionTimes == old(completionTimes) && taskStartTimes == old(taskStartTimes)
    {
      var entry := PanelLog.MakeEntry(kind, message, data);
      logs := [entry] + logs;
      if |logs| > PanelLog.MaxPanelLogs {
        logs := logs[..PanelLog.KeptPanelLogs];
      }
    }

    // -------------------------------------------------------------------------
    // Editing the lists

    /** `addPrompts(text)` */
    method AddPrompts(text: string, now: int)
      modifies this
      ensures prompts == Edits.AddPrompts(old(prompts), text, now)
      ensures imageTasks == old(imageTasks) && mode == old(mode) && running == old(running) && paused == old(paused)
      ensures completionTimes == old(completionTimes) && taskStartTimes == old(taskStartTimes) && logs == old(logs)
    {
      var newItems := Edits.NewTasks(prompts, text, now);
      prompts := prompts + newItems;
    }

    /** `handleDrop`: two splices. */
    method HandleDrop(from: nat, to: nat)
      requires from < |prompts| && to < |prompts|
      modifies this
      ensures prompts == Edits.Move(old(prompts), from, to)
      ensures imageTasks == old(imageTasks) && mode == old(mode) && running == old(running) && paused == old(paused)
      ensures completionTimes == old(completionTimes) && taskStartTimes == old(taskStartTimes) && logs == old(logs)
    {
      var item := prompts[from];
      prompts := prompts[..from] + prompts[from + 1..];
      prompts := prompts[..to] + [item] + prompts[to..];
    }

    /** `duplicatePrompt(idx)` */
    method DuplicatePrompt(idx: nat, now: int)
      requires idx < |prompts|
      modifies this
      ensures prompts == Edits.Duplicate(old(prompts), idx, now)
      ensures imageTasks == old(imageTasks) && mode == old(mode) && running == old(running) && paused == old(paused)
      ensures completionTimes == old(completionTimes) && taskStartTimes == old(taskStartTimes) && logs == old(logs)
    {
      var copy := Edits.Copy(prompts, idx, now);
      prompts := prompts[..idx + 1] + [copy] + prompts[idx + 1..];
    }

    /** `importProfile`: false for the invalid-profile error, which changes nothing. */
    method ImportProfile(p: Edits.Profile) returns (ok: bool)
      modifies this
      ensures ok <==> p.version != ""
      ensures var r := Edits.ImportProfile(p, old(prompts), old(imageTasks));
        (r.Some? ==> prompts == r.value.0 && imageTasks == r.value.1)
        && (r.None? ==> prompts == old(prompts) && imageTasks == old(imageTasks))
      ensures mode == old(mode) && running == old(running) && paused == old(paused)
      ensures completionTimes == old(completionTimes) && taskStartTimes == old(taskStartTimes) && logs == old(logs)
    {
      if p.version == "" {
        return false;
      }
      if p.prompts.Some? {
        prompts := Edits.ResetAll(p.prompts.value);
      }
      if p.imageTasks.Some? {
        imageTasks := Edits.ResetAll(p.imageTasks.value);
      }
      ok := true;
    }

    /** `applyPromptsToImages(rawText)`: the `forEach` over the image tasks. */
    method ApplyPromptsToImages(raw: string)
      modifies this
      ensures imageTasks == Edits.ApplyPrompts(old(imageTasks), raw)
      ensures prompts == old(prompts) && mode == old(mode) && running == old(running) && paused == old(paused)
      ensures completionTimes == old(completionTimes) && taskStartTimes == old(taskStartTimes) && logs == old(logs)
    {
      imageTasks := Edits.AssignPrompts(imageTasks, Lines(raw));
    }

    // -------------------------------------------------------------------------
    // Retrying failed scenes

    /** `autoRetryFailed()`: the loop over the retryable prompts; returns how many were
        queued again. */
    method AutoRetryFailed(maxRetries: int) returns (count: nat)
      modifies this
      ensures prompts == RetryFailed(old(prompts), maxRetries)
      ensures count == RetryableCount(old(prompts), maxRetries)
      ensures imageTasks == old(imageTasks) && mode == old(mode) && running == old(running) && paused == old(paused)
      ensures completionTimes == old(completionTimes) && taskStartTimes == old(taskStartTimes) && logs == old(logs)
    {
      ghost var l := prompts;
      var i := 0;
      count := 0;
      while i < |prompts|
        invariant |prompts| == |l| && 0 <= i <= |l|
        invariant forall j :: 0 <= j < i ==> prompts[j] == RetryFailed(l, maxRetries)[j]
        invariant forall j :: i <= j < |l| ==> prompts[j] == l[j]
        invariant count == RetryableCount(l[..i], maxRetries)
        invariant l == old(prompts)
        invariant imageTasks == old(imageTasks) && mode == old(mode) && running == old(running) && paused == old(paused)
        invariant completionTimes == old(completionTimes) && taskStartTimes == old(taskStartTimes) && logs == old(logs)
      {
        RetryableCountAppend(l[..i], [l[i]], maxRetries);
        assert l[..i + 1] == l[..i] + [l[i]];
        if Retryable(prompts[i], maxRetries) {
          prompts := prompts[i := Retried(prompts[i]).(progress := 0)];
          count := count + 1;
        }
        i := i + 1;
      }
      assert l[..|l|] == l;
    }

    /** The Retry-Failed button: the same rule applied to the failed prompts; the
        number it reports is the count of failed prompts, retryable or not. */
    method RetryFailedButton(maxRetries: int) returns (reported: nat)
      modifies this
      ensures prompts == RetryFailed(old(prompts), maxRetries)
      ensures reported == CountStatus(old(prompts), Failed)
      ensures imageTasks == old(imageTasks) && mode == old(mode) && running == old(running) && paused == old(paused)
      ensures completionTimes == old(completionTimes) && taskStartTimes == old(taskStartTimes) && logs == old(logs)
    {
      reported := CountStatus(prompts, Failed);
      if reported == 0 {
        CountStatusZero(prompts, Failed);
        assert prompts == RetryFailed(prompts, maxRetries);
        return;
      }
      var _ := AutoRetryFailed(maxRetries);
    }

    // -------------------------------------------------------------------------
    // Running the queue

    /** `startQueue()` up to its first `processNext`: refused for an empty or finished
        list. On the text tab it reorders the prompts by `settings.queueStrategy`, which
        is always `fifo`, so the prompts keep their order. */
    method StartQueue() returns (started: bool)
      modifies this
      ensures started <==> |old(Active())| > 0 && CountStatus(old(Active()), Done) < |old(Active())|
      ensures started ==> running && !paused
      ensures !started ==> running == old(running) && paused == old(paused)
      ensures prompts == old(prompts) && imageTasks == old(imageTasks) && mode == old(mode)
      ensures completionTimes == old(completionTimes) && taskStartTimes == old(taskStartTimes) && logs == old(logs)
    {
      var l := Active();
      if |l| == 0 || CountStatus(l, Done) == |l| {
        return false;
      }
      running := true;
      paused := false;
      if mode == TextTab {
        prompts := Reorder(prompts, ConfiguredStrategy);
      }
      started := true;
    }

    method StopQueue()
      modifies this
      ensures !running && !paused
      ensures prompts == old(prompts) && imageTasks == old(imageTasks) && mode == old(mode)
      ensures completionTimes == old(completionTimes) && taskStartTimes == old(taskStartTimes) && logs == old(logs)
    {
      running := false;
      paused := false;
    }

    /** The filter-and-sort of `processNext` as one pass that keeps the first task with
        the smallest scene index among the eligible ones. */
    method SelectNext(maxRetries: int) returns (r: Option<nat>)
      ensures r == NextIndex(Active(), maxRetries)
    {
      var l := Active();
      r := None;
      var i := 0;
      while i < |l|
        invariant 0 <= i <= |l|
        invariant r == NextIndex(l[..i], maxRetries)
      {
        assert l[..i + 1][..i] == l[..i];
        if Eligible(l[i], maxRetries) && (r.None? || l[i].sceneIndex < l[r.value].sceneIndex) {
          r := Some(i);
        }
        i := i + 1;
      }
      assert l[..|l|] == l;
    }

    /** `processNext()`: `None` when the queue is stopped or paused. A dispatched task
        (or one whose submission threw) gets its start time recorded; a drained queue
        marks its done tasks downloaded when auto-download is on (`checkDownload`), then
        stops. */
    method ProcessNext(maxRetries: int, batch: int, style: string, ctx: Enhancer.SceneContext,
                       submitThrows: bool, autoDownload: bool, now: int) returns (step: Option<Step>)
      modifies this
      ensures !old(running) || old(paused) ==>
        step.None? && prompts == old(prompts) && imageTasks == old(imageTasks)
        && running == old(running) && paused == old(paused) && taskStartTimes == old(taskStartTimes)
      ensures old(running) && !old(paused) ==>
        var o := ProcessStep(old(Active()), maxRetries, batch, style, ctx, submitThrows);
        step == Some(o.step)
        && Active() == (if o.step.Drained? && autoDownload then MarkDownloaded(o.tasks) else o.tasks)
        && (mode == OtherTab ==> prompts == old(prompts))
        && (mode != OtherTab ==> imageTasks == old(imageTasks))
        && running == !o.step.Drained? && !paused
        && taskStartTimes == (if o.step.Dispatched? || o.step.SubmitFailed?
                              then old(taskStartTimes)[old(Active())[o.step.index].uuid := now]
                              else old(taskStartTimes))
      ensures mode == old(mode) && completionTimes == old(completionTimes) && logs == old(logs)
    {
      if !running || paused {
        return None;
      }
      var l := Active();
      var next := SelectNext(maxRetries);
      match next
      case None =>
        if CountStatus(l, Generating) > 0 {
          step := Some(Waiting);
        } else {
          step := Some(Drained(VerifySceneOrder(l)));
          if autoDownload {
            l := CheckDownload(l);
            SetActive(l);
          }
          StopQueue();
        }
      case Some(i) =>
        var item := l[i];
        if item.status == Failed {
          item := Retried(item);
        }
        if ShouldRest(l, batch, item) {
          l := l[i := item.(hasRestedBatch := true)];
          step := Some(Rested(i));
        } else {
          taskStartTimes := taskStartTimes[item.uuid := now];
          if submitThrows {
            l := l[i := item.(status := Failed)];
            step := Some(SubmitFailed(i));
          } else {
            l := l[i := item.(status := Generating)];
            step := Some(Dispatched(i, SubmissionFor(item, style, ctx)));
          }
        }
        SetActive(l);
    }

    // -------------------------------------------------------------------------
    // Progress from the page

    /** The `monitor` loop over one `SCAN_PROGRESS` reply, applied to the active list. */
    method Monitor(results: seq<ScanResult>, now: int)
      modifies this
      ensures Merge.Merged(Active(), completionTimes)
           == Merge.MergeAll(Merge.Merged(old(Active()), old(completionTimes)), results, old(taskStartTimes), now)
      ensures mode == OtherTab ==> prompts == old(prompts)
      ensures mode != OtherTab ==> imageTasks == old(imageTasks)
      ensures mode == old(mode) && running == old(running) && paused == old(paused)
      ensures taskStartTimes == old(taskStartTimes) && logs == old(logs)
    {
      var tasks := Active();
      var times := completionTimes;
      var i := 0;
      while i < |results|
        invariant 0 <= i <= |results|
        invariant Merge.MergeAll(Merge.Merged(tasks, times), results[i..], taskStartTimes, now)
               == Merge.MergeAll(Merge.Merged(old(Active()), old(completionTimes)), results, taskStartTimes, now)
        invariant prompts == old(prompts) && imageTasks == old(imageTasks) && mode == old(mode)
        invariant completionTimes == old(completionTimes) && taskStartTimes == old(taskStartTimes)
        invariant running == old(running) && paused == old(paused) && logs == old(logs)
      {
        assert results[i..][1..] == results[i + 1..];
        tasks, times := Merge.ApplyResult(tasks, times, results[i], taskStartTimes, now);
        i := i + 1;
      }
      assert results[|results|..] == [];
      SetActive(tasks);
      completionTimes := times;
    }

    /** `handleVideoCompleted`: the rescan it triggers is a separate `Monitor` call. */
    method HandleVideoCompleted(url: string, now: int)
      modifies this
      ensures (prompts, imageTasks) == Merge.VideoCompleted(old(prompts), old(imageTasks), url, now)
      ensures mode == old(mode) && running == old(running) && paused == old(paused)
      ensures completionTimes == old(completionTimes) && taskStartTimes == old(taskStartTimes) && logs == old(logs)
    {
      var found := Merge.FirstGenerating(prompts);
      if found.Some? {
        var i := found.value;
        prompts := prompts[i := Merge.Complete(prompts[i], url, now)];
      } else {
        found := Merge.FirstGenerating(imageTasks);
        if found.Some? {
          var i := found.value;
          imageTasks := imageTasks[i := Merge.Complete(imageTasks[i], url, now)];
        }
      }
    }

    /** `checkErrorThreshold()`: pauses the queue when the threshold is reached. */
    method CheckErrorThreshold() returns (reached: bool)
      modifies this
      ensures reached == PanelLog.ErrorThresholdReached(old(prompts) + old(imageTasks))
      ensures paused == (old(paused) || reached)
      ensures prompts == old(prompts) && imageTasks == old(imageTasks) && mode == old(mode) && running == old(running)
      ensures completionTimes == old(completionTimes) && taskStartTimes == old(taskStartTimes) && logs == old(logs)
    {
      reached := PanelLog.ErrorThresholdReached(prompts + imageTasks);
      if reached {
        paused := true;
      }
    }
  }
}
