/** The edits the side panel makes to its task lists on the user's behalf: adding
    scenes from text, moving and duplicating a scene, importing a saved profile, and
    spreading prompt lines over the image tasks. */
module Edits {
  import opened TextOps
  import opened Opt
  import opened Tasks

  // ---------------------------------------------------------------------------
  // addPrompts

  /** `Math.max(...prompts.map(p => p.sceneIndex || 0))`, and 0 for an empty list. */
  function MaxSceneIndex(l: seq<Task>): (m: nat)
    ensures forall i :: 0 <= i < |l| ==> l[i].sceneIndex <= m
    ensures |l| > 0 ==> exists i :: 0 <= i < |l| && l[i].sceneIndex == m
  {
    if |l| == 0 then 0
    else
      var rest := MaxSceneIndex(l[1..]);
      if l[0].sceneIndex >= rest then l[0].sceneIndex
      else
        assert |l[1..]| > 0;
        rest
  }

  /** The uuid of a text task: `AF_TXT_<time>_<position>`. */
  function TextUuid(now: int, position: nat): string {
    UuidPrefix + "TXT_" + IntToString(now) + "_" + NatToString(position)
  }

  /** The task made from the `i`-th non-blank line when `len` tasks exist already and
      the highest scene index is `base`. */
  function NewTextTask(line: string, i: nat, base: nat, len: nat, now: int): Task {
    Task(id := len + i + 1, uuid := TextUuid(now, len + i),
         sceneIndex := base + i + 1, sceneLabel := "S" + NatToString(base + i + 1),
         text := Trim(line), originalText := Trim(line), prompt := "", name := "",
         status := Pending, progress := 0, priority := 2, videoUrls := [],
         isDownloaded := false, retryCount := 0, hasRestedBatch := false,
         createdAt := now, completedAt := 0)
  }

  /** The tasks `addPrompts` creates for `text`. */
  function NewTasks(l: seq<Task>, text: string, now: int): seq<Task> {
    var lines := Lines(text);
    seq(|lines|, i requires 0 <= i < |lines| => NewTextTask(lines[i], i, MaxSceneIndex(l), |l|, now))
  }

  /** `prompts = prompts.concat(newItems)`. */
  function AddPrompts(l: seq<Task>, text: string, now: int): seq<Task> {
    l + NewTasks(l, text, now)
  }

  /** No two tasks share a scene index. */
  predicate UniqueScenes(l: seq<Task>) {
    forall i, j :: 0 <= i < j < |l| ==> l[i].sceneIndex != l[j].sceneIndex
  }

  /** One pending, untried task per non-blank line, with the trimmed line as its text
      and scene indexes continuing consecutively after the highest existing one; the
      existing tasks stay unchanged at the front. */
  lemma AddPromptsSpec(l: seq<Task>, text: string, now: int)
    ensures var r, lines := AddPrompts(l, text, now), Lines(text);
      |r| == |l| + |lines|
      && r[..|l|] == l
      && forall i :: 0 <= i < |lines| ==>
           var t := r[|l| + i];
           t.text == Trim(lines[i]) && t.text != "" && t.originalText == t.text
           && t.status == Pending && t.progress == 0 && t.retryCount == 0
           && t.sceneIndex == MaxSceneIndex(l) + i + 1
  {
  }

  /** Adding scenes keeps scene indexes unique. */
  lemma AddPromptsKeepsScenesUnique(l: seq<Task>, text: string, now: int)
    requires UniqueScenes(l)
    ensures UniqueScenes(AddPrompts(l, text, now))
  {
    var r := AddPrompts(l, text, now);
    forall i, j | 0 <= i < j < |r| ensures r[i].sceneIndex != r[j].sceneIndex {
      if j >= |l| && i < |l| {
        assert r[i] == l[i];
      }
    }
  }

  /** The decimal form of a number determines the number. */
  lemma NatToStringInjective(a: nat, b: nat)
    requires NatToString(a) == NatToString(b)
    ensures a == b
  {
    NatToStringRoundTrip(a);
    NatToStringRoundTrip(b);
  }

  lemma PrefixCancel<T>(pre: seq<T>, a: seq<T>, b: seq<T>)
    requires pre + a == pre + b
    ensures a == b
  {
    assert a == (pre + a)[|pre|..];
    assert b == (pre + b)[|pre|..];
  }

  /** Text uuids made at one time differ exactly where their positions differ. */
  lemma TextUuidInjective(now: int, p: nat, q: nat)
    requires TextUuid(now, p) == TextUuid(now, q)
    ensures p == q
  {
    var pre := UuidPrefix + "TXT_" + IntToString(now) + "_";
    PrefixCancel(pre, NatToString(p), NatToString(q));
    NatToStringInjective(p, q);
  }

  /** The new tasks of one call get pairwise different uuids. */
  lemma NewUuidsDistinct(l: seq<Task>, text: string, now: int, i: nat, j: nat)
    requires i < j < |NewTasks(l, text, now)|
    ensures NewTasks(l, text, now)[i].uuid != NewTasks(l, text, now)[j].uuid
  {
    var r := NewTasks(l, text, now);
    assert r[i].uuid == TextUuid(now, |l| + i);
    assert r[j].uuid == TextUuid(now, |l| + j);
    if r[i].uuid == r[j].uuid {
      TextUuidInjective(now, |l| + i, |l| + j);
    }
  }

  // ---------------------------------------------------------------------------
  // handleDrop

  /** `const item = prompts.splice(from, 1)[0]; prompts.splice(to, 0, item)`. */
  function Move<T>(l: seq<T>, from: nat, to: nat): (r: seq<T>)
    requires from < |l| && to < |l|
  {
    var rest := l[..from] + l[from + 1..];
    rest[..to] + [l[from]] + rest[to..]
  }

  /** A move keeps the same elements, puts the moved one at the target position, and
      moving it back restores the list. */
  lemma MoveSpec<T>(l: seq<T>, from: nat, to: nat)
    requires from < |l| && to < |l|
    ensures |Move(l, from, to)| == |l|
    ensures multiset(Move(l, from, to)) == multiset(l)
    ensures Move(l, from, to)[to] == l[from]
    ensures Move(Move(l, from, to), to, from) == l
  {
    MoveSameElements(l, from, to);
    MoveBack(l, from, to);
  }

  lemma MoveSameElements<T>(l: seq<T>, from: nat, to: nat)
    requires from < |l| && to < |l|
    ensures multiset(Move(l, from, to)) == multiset(l)
  {
    var rest := l[..from] + l[from + 1..];
    calc {
      multiset(Move(l, from, to));
      multiset(rest[..to]) + multiset{l[from]} + multiset(rest[to..]);
      { assert rest == rest[..to] + rest[to..]; }
      multiset(rest) + multiset{l[from]};
      { assert l == l[..from] + [l[from]] + l[from + 1..]; }
      multiset(l);
    }
  }

  lemma MoveBack<T>(l: seq<T>, from: nat, to: nat)
    requires from < |l| && to < |l|
    ensures Move(Move(l, from, to), to, from) == l
  {
    var rest := l[..from] + l[from + 1..];
    var r := Move(l, from, to);
    assert r[..to] + r[to + 1..] == rest;
    assert l == rest[..from] + [l[from]] + rest[from..];
  }

  // ---------------------------------------------------------------------------
  // duplicatePrompt

  /** `{...p, id, uuid, status: 'pending', progress: 0, isDownloaded: false, createdAt}`:
      the copy keeps everything else, the scene index included. */
  function Copy(l: seq<Task>, idx: nat, now: int): Task
    requires idx < |l|
  {
    l[idx].(id := |l| + 1, uuid := TextUuid(now, |l|), status := Pending, progress := 0,
            isDownloaded := false, createdAt := now)
  }

  /** `prompts.splice(idx + 1, 0, newP)`. */
  function Duplicate(l: seq<Task>, idx: nat, now: int): seq<Task>
    requires idx < |l|
  {
    l[..idx + 1] + [Copy(l, idx, now)] + l[idx + 1..]
  }

  /** The copy sits right after its original, as a pending, undownloaded task at progress
      0 created now; it equals the original in every field but its id, uuid, status,
      progress, download flag and creation time, so it keeps the text, the scene, the
      retry count, the rest flag, the video urls and the completion time. Every other task
      keeps its order. */
  lemma DuplicateSpec(l: seq<Task>, idx: nat, now: int)
    requires idx < |l|
    ensures var r := Duplicate(l, idx, now);
      |r| == |l| + 1 && r[..idx + 1] == l[..idx + 1] && r[idx + 2..] == l[idx + 1..]
      && r[idx + 1].status == Pending && r[idx + 1].progress == 0
      && !r[idx + 1].isDownloaded && r[idx + 1].createdAt == now
      && r[idx + 1].uuid == TextUuid(now, |l|)
      && l[idx] == r[idx + 1].(id := l[idx].id, uuid := l[idx].uuid, status := l[idx].status,
                               progress := l[idx].progress, isDownloaded := l[idx].isDownloaded,
                               createdAt := l[idx].createdAt)
  {
    var r := Duplicate(l, idx, now);
    assert r[idx + 2..] == l[idx + 1..];
  }

  /** A duplicated list always has two tasks with the same scene index. */
  lemma DuplicateBreaksUniqueScenes(l: seq<Task>, idx: nat, now: int)
    requires idx < |l|
    ensures !UniqueScenes(Duplicate(l, idx, now))
  {
    var r := Duplicate(l, idx, now);
    assert r[idx].sceneIndex == r[idx + 1].sceneIndex;
  }

  // ---------------------------------------------------------------------------
  // importProfile

  /** The part of a saved profile that concerns the task lists. A missing list is
      `None`; a missing or empty version is `""`. */
  datatype Profile = Profile(version: string, prompts: Option<seq<Task>>, imageTasks: Option<seq<Task>>)

  /** `{...p, status: 'pending', progress: 0, isDownloaded: false}`. */
  function Reset(t: Task): Task {
    t.(status := Pending, progress := 0, isDownloaded := false)
  }

  function ResetAll(l: seq<Task>): (r: seq<Task>)
  {
    seq(|l|, i requires 0 <= i < |l| => Reset(l[i]))
  }

  /** The lists after importing; `None` for the invalid-profile error, which leaves the
      lists as they were. */
  function ImportProfile(p: Profile, prompts: seq<Task>, images: seq<Task>): Option<(seq<Task>, seq<Task>)> {
    if p.version == "" then None
    else Some((if p.prompts.Some? then ResetAll(p.prompts.value) else prompts,
               if p.imageTasks.Some? then ResetAll(p.imageTasks.value) else images))
  }

  /** A profile is refused exactly when it has no version. A list present in the profile
      replaces the current one, with every task pending, at progress 0 and not
      downloaded and every other field as saved; an absent list keeps the current one.
      Resetting twice is resetting once. */
  lemma ImportProfileSpec(p: Profile, prompts: seq<Task>, images: seq<Task>)
    ensures ImportProfile(p, prompts, images).None? <==> p.version == ""
    ensures match ImportProfile(p, prompts, images)
      case None => true
      case Some((np, ni)) =>
        (p.prompts.None? ==> np == prompts) && (p.imageTasks.None? ==> ni == images)
        && (p.prompts.Some? ==> (|np| == |p.prompts.value| && CountStatus(np, Done) == 0
              && forall i :: 0 <= i < |np| ==> (np[i].status == Pending && np[i].progress == 0
                   && !np[i].isDownloaded && np[i] == p.prompts.value[i].(status := Pending, progress := 0, isDownloaded := false))))
        && (p.imageTasks.Some? ==> (|ni| == |p.imageTasks.value|
              && forall i :: 0 <= i < |ni| ==> ni[i].status == Pending && ni[i] == Reset(p.imageTasks.value[i])))
    ensures forall l :: ResetAll(ResetAll(l)) == ResetAll(l)
  {
    if p.version != "" && p.prompts.Some? {
      CountStatusZero(ResetAll(p.prompts.value), Done);
    }
  }

  // ---------------------------------------------------------------------------
  // applyPromptsToImages

  /** Each image takes the trimmed line at its index modulo the number of lines; with
      no lines, or no images, nothing changes. */
  function ApplyLines(images: seq<Task>, lines: seq<string>): (r: seq<Task>)
    ensures |r| == |images|
  {
    if |lines| == 0 || |images| == 0 then images
    else seq(|images|, i requires 0 <= i < |images| => images[i].(prompt := LineFor(lines, i)))
  }

  /** `lines[i % lines.length].trim()` */
  function LineFor(lines: seq<string>, i: nat): string
    requires |lines| > 0
  {
    Trim(lines[i % |lines|])
  }

  /** `applyPromptsToImages`: the non-blank lines of the raw text. */
  function ApplyPrompts(images: seq<Task>, raw: string): (r: seq<Task>) {
    ApplyLines(images, Lines(raw))
  }

  /** Every image gets a prompt and keeps its other fields, and as long as there are no
      more images than lines, image `i` gets line `i`; without lines nothing changes. */
  lemma ApplyLinesSpec(images: seq<Task>, lines: seq<string>)
    ensures var r := ApplyLines(images, lines);
      |r| == |images|
      && (|lines| == 0 ==> r == images)
      && (|lines| > 0 ==>
            (forall i :: 0 <= i < |r| ==> r[i] == images[i].(prompt := r[i].prompt))
            && (forall i :: 0 <= i < |r| && i < |lines| ==> r[i].prompt == Trim(lines[i])))
  {
    var r := ApplyLines(images, lines);
    if |lines| > 0 {
      forall i | 0 <= i < |r| ensures r[i] == images[i].(prompt := r[i].prompt) {
        ApplyLinesAt(images, lines, i);
      }
      forall i | 0 <= i < |r| && i < |lines| ensures r[i].prompt == Trim(lines[i]) {
        ApplyLinesAt(images, lines, i);
        ModSmall(i, |lines|);
      }
    }
  }

  /** The prompts repeat with the period of the line count. */
  lemma ApplyLinesPeriodic(images: seq<Task>, lines: seq<string>, i: nat)
    requires |lines| > 0 && i + |lines| < |images|
    ensures ApplyLines(images, lines)[i + |lines|].prompt == ApplyLines(images, lines)[i].prompt
  {
    var n, j := |lines|, i + |lines|;
    ModShift(i, n);
    assert j % n == i % n;
    ApplyLinesAt(images, lines, i);
    ApplyLinesAt(images, lines, j);
  }

  lemma ApplyLinesAt(images: seq<Task>, lines: seq<string>, i: nat)
    requires |lines| > 0 && i < |images|
    ensures ApplyLines(images, lines)[i] == images[i].(prompt := LineFor(lines, i))
  {
  }

  /** The `forEach` of `applyPromptsToImages`: each image's prompt is set in turn. */
  method AssignPrompts(images: seq<Task>, lines: seq<string>) returns (r: seq<Task>)
    ensures r == ApplyLines(images, lines)
  {
    r := images;
    if |lines| == 0 {
      return;
    }
    var i := 0;
    while i < |r|
      invariant |r| == |images| && 0 <= i <= |r|
      invariant forall j :: 0 <= j < i ==> r[j] == images[j].(prompt := LineFor(lines, j))
      invariant forall j :: i <= j < |r| ==> r[j] == images[j]
    {
      r := r[i := r[i].(prompt := LineFor(lines, i))];
      i := i + 1;
    }
    forall j | 0 <= j < |r| ensures r[j] == ApplyLines(images, lines)[j] {
      ApplyLinesAt(images, lines, j);
    }
  }

  /** A number below the modulus is its own remainder. */
  lemma ModSmall(i: nat, n: nat)
    requires i < n
    ensures i % n == i
  {
  }

  /** Adding the modulus leaves the remainder unchanged. */
  lemma ModShift(i: nat, n: nat)
    requires n > 0
    ensures (i + n) % n == i % n
  {
    var q, r := i / n, i % n;
    var q2, r2 := (i + n) / n, (i + n) % n;
    assert i == q * n + r;
    assert i + n == q2 * n + r2;
    var k := q2 - q - 1;
    assert k * n == r - r2 by {
      assert q2 * n - q * n - n == r - r2;
      assert k * n == q2 * n - q * n - n;
    }
    MultipleInRange(k, n);
  }

  /** The only multiple of `n` strictly between `-n` and `n` is 0. */
  lemma MultipleInRange(k: int, n: int)
    requires n > 0 && -n < k * n < n
    ensures k == 0
  {
  }

  /** Applied from raw text, every image whose prompt was set gets a non-blank one. */
  lemma ApplyPromptsNonBlank(images: seq<Task>, raw: string)
    requires |Lines(raw)| > 0
    ensures forall i :: 0 <= i < |images| ==> Trim(ApplyPrompts(images, raw)[i].prompt) != ""
  {
    var lines := Lines(raw);
    forall i | 0 <= i < |images| ensures Trim(ApplyPrompts(images, raw)[i].prompt) != "" {
      var k := i % |lines|;
      assert ApplyPrompts(images, raw)[i].prompt == Trim(lines[k]);
      TrimNoop(Trim(lines[k]));
    }
  }
}
