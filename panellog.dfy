/** The panel's activity log and the two health checks over recently finished tasks:
    the batch-size tuning and the error threshold that pauses the queue. */
module PanelLog {
  import opened Tasks

  // ---------------------------------------------------------------------------
  // addLog

  const MaxPanelLogs: nat := 300
  /** `Math.floor(MAX_PANEL_LOGS * 0.8)`. */
  const KeptPanelLogs: nat := 240

  /** One log entry; `data` is the already serialised payload, and the time stamps are
      not modelled. */
  datatype LogEntry = LogEntry(kind: string, message: string, data: string)

  /** `message.substring(0, 200)` and the data cut to 150 characters plus `...`. */
  function MakeEntry(kind: string, message: string, data: string): (e: LogEntry)
    ensures e.kind == kind
    ensures e.message == message[..if |message| < 200 then |message| else 200]
    ensures |data| <= 150 ==> e.data == data
    ensures |data| > 150 ==> e.data == data[..150] + "..."
  {
    LogEntry(kind, if |message| > 200 then message[..200] else message,
             if |data| > 150 then data[..150] + "..." else data)
  }

  /** `logs.unshift(entry)`, then keep the newest 240 once there are more than 300. */
  function AddLog(logs: seq<LogEntry>, e: LogEntry): seq<LogEntry> {
    var l := [e] + logs;
    if |l| > MaxPanelLogs then l[..KeptPanelLogs] else l
  }

  /** The newest entry comes first, the older ones follow in order, nothing is
      invented, and a log within the bound stays within it. */
  lemma AddLogSpec(logs: seq<LogEntry>, e: LogEntry)
    ensures var r := AddLog(logs, e);
      |r| >= 1 && r[0] == e && r[1..] == logs[..|r| - 1]
      && (|logs| < MaxPanelLogs ==> |r| == |logs| + 1)
      && (|logs| >= MaxPanelLogs ==> |r| == KeptPanelLogs)
      && (|logs| <= MaxPanelLogs ==> |r| <= MaxPanelLogs)
  {
  }

  // ---------------------------------------------------------------------------
  // Recently finished tasks

  predicate IsFinished(t: Task) { t.status == Done || t.status == Failed }

  /** `.filter(t => t.status === 'done' || t.status === 'failed')`. */
  function Finished(l: seq<Task>): (r: seq<Task>)
    ensures |r| <= |l|
    ensures forall i :: 0 <= i < |r| ==> IsFinished(r[i])
  {
    if |l| == 0 then []
    else if IsFinished(l[0]) then [l[0]] + Finished(l[1..])
    else Finished(l[1..])
  }

  /** `.slice(-k)`. */
  function Last<T>(l: seq<T>, k: nat): (r: seq<T>)
    ensures |r| == if |l| < k then |l| else k
  {
    if |l| <= k then l else l[|l| - k..]
  }

  lemma {:induction false} FinishedAppend(a: seq<Task>, b: seq<Task>)
    ensures Finished(a + b) == Finished(a) + Finished(b)
  {
    if |a| > 0 {
      FinishedAppend(a[1..], b);
      assert (a + b)[1..] == a[1..] + b;
    } else {
      assert a + b == b;
    }
  }

  /** A status count over a suffix never exceeds the count over the whole list. */
  lemma {:induction false} CountStatusSuffix(l: seq<Task>, k: nat, s: Status)
    requires k <= |l|
    ensures CountStatus(l[k..], s) <= CountStatus(l, s)
  {
    if k > 0 {
      CountStatusSuffix(l[1..], k - 1, s);
      assert l[1..][k - 1..] == l[k..];
    }
  }

  // ---------------------------------------------------------------------------
  // optimizeBatchSize

  /** The batch size and rest time after tuning, from the last 20 finished tasks. The
      success-rate comparisons `< 0.5` and `> 0.9` are made exact on integers. */
  function OptimizeBatch(l: seq<Task>, batch: int, rest: int): (r: (int, int)) {
    var recent := Last(Finished(l), 20);
    var n, done := |recent|, CountStatus(recent, Done);
    if n < 5 then (batch, rest)
    else if 2 * done < n then (if batch - 1 < 2 then 2 else batch - 1, if rest + 15 > 120 then 120 else rest + 15)
    else if 10 * done > 9 * n && n >= 10 then (if batch + 1 > 6 then 6 else batch + 1, rest)
    else (batch, rest)
  }

  /** Tuning keeps a batch size in 2..6 and a rest time in 0..120 within those ranges.
      With fewer than five finished tasks it changes nothing. When under half of the
      recent tasks succeeded, the batch becomes one smaller but at least 2 and the rest
      15 seconds longer but at most 120. When ten or more recent tasks succeeded at over
      90%, the batch becomes one larger but at most 6 and the rest is kept. Otherwise
      nothing changes. */
  lemma OptimizeBatchSpec(l: seq<Task>, batch: int, rest: int)
    ensures var (b, r) := OptimizeBatch(l, batch, rest);
      var recent := Last(Finished(l), 20);
      var n, done := |recent|, CountStatus(recent, Done);
      (2 <= batch <= 6 && 0 <= rest <= 120 ==> 2 <= b <= 6 && 0 <= r <= 120)
      && (|Finished(l)| < 5 ==> b == batch && r == rest)
      && (n >= 5 && 2 * done < n ==>
            b == (if batch - 1 < 2 then 2 else batch - 1) && r == (if rest + 15 > 120 then 120 else rest + 15))
      && (n >= 10 && 10 * done > 9 * n ==> b == (if batch + 1 > 6 then 6 else batch + 1) && r == rest)
      && (!(n >= 5 && 2 * done < n) && !(n >= 10 && 10 * done > 9 * n) ==> b == batch && r == rest)
  {
  }

  /** Twenty finished tasks with at most one failure among them raise the batch size by
      one. */
  lemma OptimizeBatchRaises(l: seq<Task>, batch: int, rest: int)
    requires |Finished(l)| >= 20 && CountStatus(Last(Finished(l), 20), Failed) <= 1
    requires batch < 6
    ensures OptimizeBatch(l, batch, rest) == (batch + 1, rest)
  {
    var recent := Last(Finished(l), 20);
    FinishedSplit(recent);
  }

  /** Every finished task is either done or failed. */
  lemma {:induction false} FinishedSplit(l: seq<Task>)
    requires forall i :: 0 <= i < |l| ==> IsFinished(l[i])
    ensures CountStatus(l, Done) + CountStatus(l, Failed) == |l|
  {
    if |l| > 0 {
      FinishedSplit(l[1..]);
    }
  }

  // ---------------------------------------------------------------------------
  // checkErrorThreshold

  /** At least three of the last ten finished tasks failed. */
  predicate ErrorThresholdReached(l: seq<Task>) {
    CountStatus(Last(Finished(l), 10), Failed) >= 3
  }

  /** Without any failed task the threshold is never reached. */
  lemma NoFailuresNoPause(l: seq<Task>)
    requires CountStatus(l, Failed) == 0
    ensures !ErrorThresholdReached(l)
  {
    var f := Finished(l);
    FailedCountFiltered(l);
    CountStatusSuffix(f, |f| - |Last(f, 10)|, Failed);
    assert Last(f, 10) == f[|f| - |Last(f, 10)|..];
  }

  /** Filtering the finished tasks keeps every failed one. */
  lemma {:induction false} FailedCountFiltered(l: seq<Task>)
    ensures CountStatus(Finished(l), Failed) == CountStatus(l, Failed)
  {
    if |l| > 0 {
      FailedCountFiltered(l[1..]);
    }
  }

  /** Three failures as the most recent finished tasks pause the queue, whatever came
      before them. */
  lemma ThreeFailuresPause(l: seq<Task>, a: Task, b: Task, c: Task)
    requires a.status == Failed && b.status == Failed && c.status == Failed
    ensures ErrorThresholdReached(l + [a, b, c])
  {
    FinishedAppend(l, [a, b, c]);
    var f := Finished(l + [a, b, c]);
    assert Finished([a, b, c]) == [a, b, c] by {
      assert Finished([c]) == [c] by { assert [c][1..] == []; }
      assert Finished([b, c]) == [b, c] by { assert [b, c][1..] == [c]; }
      assert [a, b, c][1..] == [b, c];
    }
    var tail := Last(f, 10);
    assert tail[|tail| - 3..] == [a, b, c];
    CountStatusSuffix(tail, |tail| - 3, Failed);
    assert CountStatus([a, b, c], Failed) == 3 by {
      assert CountStatus([c], Failed) == 1 by { assert [c][1..] == []; }
      assert CountStatus([b, c], Failed) == 2 by { assert [b, c][1..] == [c]; }
      assert [a, b, c][1..] == [b, c];
    }
  }
}
