/** The task records of the side panel (`prompts` and `imageTasks` in panel.js)
    and the scan results the content script sends back for them. */
module Tasks {
  import opened TextOps

  datatype Status = Pending | Generating | Done | Failed

  /** The status as the panel stores and exports it. */
  function StatusName(s: Status): string {
    match s
    case Pending => "pending"
    case Generating => "generating"
    case Done => "done"
    case Failed => "failed"
  }

  /** One scene (text mode) or one image (image mode). Absent optional fields are
      represented by their falsy value: `""` for strings and `0` for numbers. */
  datatype Task = Task(
    id: int,
    uuid: string,
    sceneIndex: nat,
    sceneLabel: string,
    text: string,
    originalText: string,
    prompt: string,
    name: string,
    status: Status,
    progress: int,
    priority: int,
    videoUrls: seq<string>,
    isDownloaded: bool,
    retryCount: nat,
    hasRestedBatch: bool,
    createdAt: int,
    completedAt: int)

  /** One entry of the `SCAN_PROGRESS` reply. */
  datatype ScanResult = ScanResult(uuid: string, process: int, isDone: bool, isError: bool, videoUrls: seq<string>)

  const UuidPrefix: string := "AF_"

  /** `text.split('\n').filter(l => l.trim())`: the lines that are not blank, untrimmed. */
  function NonBlank(lines: seq<string>): (r: seq<string>)
    ensures |r| <= |lines|
    ensures forall i :: 0 <= i < |r| ==> Trim(r[i]) != ""
  {
    if |lines| == 0 then []
    else if Trim(lines[0]) != "" then [lines[0]] + NonBlank(lines[1..])
    else NonBlank(lines[1..])
  }

  function Lines(text: string): seq<string> {
    NonBlank(Split(text, '\n'))
  }

  /** Filtering keeps exactly the lines that are not blank. */
  lemma {:induction false} NonBlankMembers(lines: seq<string>, l: string)
    ensures l in NonBlank(lines) <==> l in lines && Trim(l) != ""
  {
    if |lines| > 0 {
      NonBlankMembers(lines[1..], l);
      assert lines == [lines[0]] + lines[1..];
    }
  }

  /** `xs.filter(keep)`. */
  function Keep<T>(xs: seq<T>, keep: T -> bool): seq<T> {
    if |xs| == 0 then [] else (if keep(xs[0]) then [xs[0]] else []) + Keep(xs[1..], keep)
  }

  lemma {:induction false} KeepAppend<T>(a: seq<T>, b: seq<T>, keep: T -> bool)
    ensures Keep(a + b, keep) == Keep(a, keep) + Keep(b, keep)
  {
    if |a| > 0 {
      KeepAppend(a[1..], b, keep);
      assert (a + b)[1..] == a[1..] + b;
    } else {
      assert a + b == b;
    }
  }

  /** The blank-line filter is `Keep` with the test `l.trim()`. */
  lemma {:induction false} NonBlankKeeps(lines: seq<string>)
    ensures NonBlank(lines) == Keep(lines, l => Trim(l) != "")
  {
    if |lines| > 0 {
      NonBlankKeeps(lines[1..]);
    }
  }

  /** The filter works line by line, so it keeps the order and the repeats of the lines
      it keeps. */
  lemma NonBlankAppend(a: seq<string>, b: seq<string>)
    ensures NonBlank(a + b) == NonBlank(a) + NonBlank(b)
  {
    NonBlankKeeps(a);
    NonBlankKeeps(b);
    NonBlankKeeps(a + b);
    KeepAppend(a, b, l => Trim(l) != "");
  }

  /** The number of tasks in the given status. */
  function CountStatus(l: seq<Task>, s: Status): (n: nat)
    ensures n <= |l|
  {
    if |l| == 0 then 0 else (if l[0].status == s then 1 else 0) + CountStatus(l[1..], s)
  }

  lemma {:induction false} CountStatusAppend(a: seq<Task>, b: seq<Task>, s: Status)
    ensures CountStatus(a + b, s) == CountStatus(a, s) + CountStatus(b, s)
  {
    if |a| > 0 {
      CountStatusAppend(a[1..], b, s);
      assert (a + b)[1..] == a[1..] + b;
    } else {
      assert a + b == b;
    }
  }

  /** A status is absent exactly when the count is zero. */
  lemma {:induction false} CountStatusZero(l: seq<Task>, s: Status)
    ensures CountStatus(l, s) == 0 <==> forall i :: 0 <= i < |l| ==> l[i].status != s
  {
    if |l| > 0 {
      CountStatusZero(l[1..], s);
      assert forall i :: 1 <= i < |l| ==> l[i] == l[1..][i - 1];
    }
  }
}
