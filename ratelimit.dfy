/** The content script's sliding-window rate limiter: at most 12 submissions in the
    last minute and 120 in the last hour. The clock is the parameter `now` (in
    milliseconds) and the waits the source sleeps through are returned instead. */
module RateLimit {

  const PerMinute: nat := 12
  const PerHour: nat := 120
  const MinuteMs: int := 60000
  const HourMs: int := 3600000

  /** `requests.filter(t => now - t < span)`: the time stamps younger than `span`. */
  function Within(reqs: seq<int>, now: int, span: int): (r: seq<int>)
    ensures |r| <= |reqs|
    ensures forall i :: 0 <= i < |r| ==> now - r[i] < span
  {
    if |reqs| == 0 then []
    else (if now - reqs[0] < span then [reqs[0]] else []) + Within(reqs[1..], now, span)
  }

  /** The minute wait for an already pruned list; 0 when fewer than 12 requests fall
      in the last minute. It counts from the oldest request of that minute. */
  function MinuteWait(pruned: seq<int>, now: int): int {
    var lastMinute := Within(pruned, now, MinuteMs);
    if |lastMinute| >= PerMinute then MinuteMs - (now - lastMinute[0]) + 1000 else 0
  }

  /** The hour wait for an already pruned list, from its oldest request; 0 when
      fewer than 120 requests remain. */
  function HourWait(pruned: seq<int>, now: int): int {
    if |pruned| >= PerHour then HourMs - (now - pruned[0]) + 1000 else 0
  }

  /** A time stamp survives the filter exactly when it is young enough. */
  lemma {:induction false} WithinMember(reqs: seq<int>, now: int, span: int, x: int)
    ensures x in Within(reqs, now, span) <==> x in reqs && now - x < span
  {
    if |reqs| > 0 {
      WithinMember(reqs[1..], now, span, x);
      assert reqs == [reqs[0]] + reqs[1..];
    }
  }

  /** Filtering with a narrower window after a wider one is filtering with the narrower
      one alone, so the minute count of the pruned list is the minute count of the
      whole history. */
  lemma {:induction false} WithinNested(reqs: seq<int>, now: int, narrow: int, wide: int)
    requires narrow <= wide
    ensures Within(Within(reqs, now, wide), now, narrow) == Within(reqs, now, narrow)
  {
    if |reqs| > 0 {
      WithinNested(reqs[1..], now, narrow, wide);
      var head := if now - reqs[0] < wide then [reqs[0]] else [];
      WithinAppend(head, Within(reqs[1..], now, wide), now, narrow);
      if now - reqs[0] < wide {
        assert Within(head, now, narrow) == (if now - reqs[0] < narrow then [reqs[0]] else []) by {
          assert head[1..] == [];
        }
      }
    }
  }

  lemma {:induction false} WithinAppend(a: seq<int>, b: seq<int>, now: int, span: int)
    ensures Within(a + b, now, span) == Within(a, now, span) + Within(b, now, span)
  {
    if |a| > 0 {
      WithinAppend(a[1..], b, now, span);
      assert (a + b)[1..] == a[1..] + b;
    } else {
      assert a + b == b;
    }
  }

  /** A narrower window never counts more requests than a wider one. */
  lemma {:induction false} WithinMonotone(reqs: seq<int>, now: int, narrow: int, wide: int)
    requires narrow <= wide
    ensures |Within(reqs, now, narrow)| <= |Within(reqs, now, wide)|
  {
    if |reqs| > 0 {
      WithinMonotone(reqs[1..], now, narrow, wide);
    }
  }

  /** When every request is young enough, the filter keeps them all. */
  lemma {:induction false} WithinAll(reqs: seq<int>, now: int, span: int)
    requires forall i :: 0 <= i < |reqs| ==> now - reqs[i] < span
    ensures Within(reqs, now, span) == reqs
  {
    if |reqs| > 0 {
      WithinAll(reqs[1..], now, span);
      assert reqs == [reqs[0]] + reqs[1..];
    }
  }

  /** The minute wait of a check: 0 while fewer than 12 requests of the whole history
      fall in the last minute (pruning to the hour first changes nothing there);
      otherwise more than a second, counted from the oldest request of that minute,
      and, when no request lies in the future, at most a minute and a second. */
  lemma MinuteWaitSpec(reqs: seq<int>, now: int)
    ensures var m := MinuteWait(Within(reqs, now, HourMs), now);
      var lastMinute := Within(reqs, now, MinuteMs);
      (m == 0 <==> |lastMinute| < PerMinute)
      && (m != 0 ==> m > 1000 && lastMinute[0] in reqs && m == MinuteMs + 1000 - (now - lastMinute[0]))
      && ((forall i :: 0 <= i < |reqs| ==> reqs[i] <= now) ==> m <= MinuteMs + 1000)
  {
    WithinNested(reqs, now, MinuteMs, HourMs);
    var lastMinute := Within(reqs, now, MinuteMs);
    if |lastMinute| > 0 {
      WithinMember(reqs, now, MinuteMs, lastMinute[0]);
    }
  }

  /** The hour wait of a check, from the same `now`: 0 while fewer than 120 requests
      survive pruning; otherwise more than a second, counted from the oldest surviving
      request, and, when no request lies in the future, at most an hour and a second. */
  lemma HourWaitSpec(reqs: seq<int>, now: int)
    ensures var pruned := Within(reqs, now, HourMs);
      var h := HourWait(pruned, now);
      (h == 0 <==> |pruned| < PerHour)
      && (h != 0 ==> h > 1000 && pruned[0] in reqs && h == HourMs + 1000 - (now - pruned[0]))
      && ((forall i :: 0 <= i < |reqs| ==> reqs[i] <= now) ==> h <= HourMs + 1000)
  {
    var pruned := Within(reqs, now, HourMs);
    if |pruned| > 0 {
      WithinMember(reqs, now, HourMs, pruned[0]);
    }
  }

  /** The time stamps one kind of submission leaves: a text prompt is recorded once
      (content.js:599), an image task twice, once by the prompt step it runs and once
      more on its own (content.js:1096). */
  function Submissions(times: seq<int>, image: bool): (r: seq<int>)
    ensures |r| == |times| * (if image then 2 else 1)
    ensures forall i :: 0 <= i < |r| ==> r[i] in times
  {
    if |times| == 0 then []
    else (if image then [times[0], times[0]] else [times[0]]) + Submissions(times[1..], image)
  }

  /** Within one minute the limit of 12 is reached by 12 text prompts but by only 6
      image tasks, because each image task is counted twice. */
  lemma SubmissionsFillMinute(times: seq<int>, image: bool, now: int)
    requires forall i :: 0 <= i < |times| ==> now - MinuteMs < times[i] <= now
    ensures var reqs := Submissions(times, image);
      |Within(reqs, now, MinuteMs)| == |times| * (if image then 2 else 1)
      && (MinuteWait(Within(reqs, now, HourMs), now) > 0 <==> |times| * (if image then 2 else 1) >= PerMinute)
  {
    var reqs := Submissions(times, image);
    assert forall i :: 0 <= i < |reqs| ==> now - reqs[i] < MinuteMs;
    WithinAll(reqs, now, MinuteMs);
    MinuteWaitSpec(reqs, now);
  }

  /** The limiter's request history. */
  class RateLimiter {
    var requests: seq<int>

    constructor()
      ensures requests == []
    {
      requests := [];
    }

    /** `checkAndWait`: prunes the history to the last hour and returns the minute wait
        and then the hour wait (0 for none) that the source sleeps through. */
    method CheckAndWait(now: int) returns (minuteWait: int, hourWait: int)
      modifies this
      ensures requests == Within(old(requests), now, HourMs)
      ensures minuteWait == MinuteWait(requests, now) && hourWait == HourWait(requests, now)
    {
      requests := Within(requests, now, HourMs);
      var lastMinute := Within(requests, now, MinuteMs);
      minuteWait := 0;
      if |lastMinute| >= PerMinute {
        minuteWait := MinuteMs - (now - lastMinute[0]) + 1000;
      }
      hourWait := 0;
      if |requests| >= PerHour {
        hourWait := HourMs - (now - requests[0]) + 1000;
      }
    }

    /** `record`: the submission time is appended. */
    method Record(now: int)
      modifies this
      ensures requests == old(requests) + [now]
    {
      requests := requests + [now];
    }

    /** `getStats`: the requests of the last minute and of the last hour; the first
        count never exceeds the second. */
    method GetStats(now: int) returns (lastMinute: nat, lastHour: nat)
      ensures lastMinute == |Within(requests, now, MinuteMs)|
      ensures lastHour == |Within(requests, now, HourMs)|
      ensures lastMinute <= lastHour
    {
      lastMinute := |Within(requests, now, MinuteMs)|;
      lastHour := |Within(requests, now, HourMs)|;
      WithinMonotone(requests, now, MinuteMs, HourMs);
    }
  }
}
