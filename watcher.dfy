/** The content script's DOM watcher: it reports each new video url of the page once,
    remembering the urls it has reported, and reports progress percentages read from
    the texts of changed elements, remembering the last one. The page is given as the
    texts and video sources the watcher reads; the messages it sends are returned. */
module Watcher {
  import opened Opt
  import opened TextOps

  // ---------------------------------------------------------------------------
  // The percentage in a changed text: `text.match(/(\d+)\s*%/)`

  /** The end of the run of digits starting at `i`. */
  function DigitRunEnd(s: string, i: nat): (j: nat)
    requires i <= |s|
    ensures i <= j <= |s| && (j == |s| || !IsDigit(s[j]))
    ensures forall k :: i <= k < j ==> IsDigit(s[k])
    decreases |s| - i
  {
    if i < |s| && IsDigit(s[i]) then DigitRunEnd(s, i + 1) else i
  }

  /** The end of the run of white space starting at `i`. */
  function SpaceRunEnd(s: string, i: nat): (j: nat)
    requires i <= |s|
    ensures i <= j <= |s| && (j == |s| || !IsSpace(s[j]))
    decreases |s| - i
  {
    if i < |s| && IsSpace(s[i]) then SpaceRunEnd(s, i + 1) else i
  }

  /** The pattern matches at `i`: digits, as many as there are, then white space, then
      a percent sign. Giving back digits never helps, since a digit is neither white
      space nor `%`. */
  predicate MatchAt(s: string, i: nat) {
    i < |s| && IsDigit(s[i])
    && var k := SpaceRunEnd(s, DigitRunEnd(s, i)); k < |s| && s[k] == '%'
  }

  /** The leftmost position from `i` on where the pattern matches. */
  function LeftmostMatch(s: string, i: nat): (r: Option<nat>)
    ensures r.Some? ==> i <= r.value < |s| && MatchAt(s, r.value)
    decreases |s| - i
  {
    if i >= |s| then None
    else if MatchAt(s, i) then Some(i)
    else LeftmostMatch(s, i + 1)
  }

  /** The captured digits of the leftmost match, read with `parseInt`. */
  function PercentIn(text: string): Option<nat> {
    match LeftmostMatch(text, 0)
    case None => None
    case Some(i) =>
      var j := DigitRunEnd(text, i);
      assert AllDigits(text[i..j]) by {
        forall k | 0 <= k < j - i ensures IsDigit(text[i..j][k]) {
          assert text[i..j][k] == text[i + k];
        }
      }
      Some(DigitsValue(text[i..j]))
  }

  lemma {:induction false} DigitRunEndIs(s: string, i: nat, j: nat)
    requires i <= j <= |s| && (j == |s| || !IsDigit(s[j]))
    requires forall k :: i <= k < j ==> IsDigit(s[k])
    ensures DigitRunEnd(s, i) == j
    decreases j - i
  {
    if i < j {
      DigitRunEndIs(s, i + 1, j);
    }
  }

  lemma {:induction false} LeftmostMatchIs(s: string, i: nat, m: nat)
    requires i <= m && MatchAt(s, m)
    requires forall k :: i <= k < m ==> !MatchAt(s, k)
    ensures LeftmostMatch(s, i) == Some(m)
    decreases m - i
  {
    if i < m {
      LeftmostMatchIs(s, i + 1, m);
    }
  }

  /** A text with no digit before `start`, digits from `start` to `end` and a percent
      sign at `end` reads as those digits. */
  lemma PercentInAt(s: string, start: nat, end: nat)
    requires start < end < |s| && s[end] == '%'
    requires forall k :: 0 <= k < start ==> !IsDigit(s[k])
    requires forall k :: start <= k < end ==> IsDigit(s[k])
    ensures PercentIn(s) == Some(DigitsValue(s[start..end]))
  {
    DigitRunEndIs(s, start, end);
    assert SpaceRunEnd(s, end) == end;
    LeftmostMatchIs(s, 0, start);
  }

  /** A number printed with a percent sign after a text without digits is read back as
      that number, whatever follows it. */
  lemma PercentInRoundTrip(a: string, n: nat, b: string)
    requires forall k :: 0 <= k < |a| ==> !IsDigit(a[k])
    ensures PercentIn(a + NatToString(n) + "%" + b) == Some(n)
  {
    var d := NatToString(n);
    var s := a + d + "%" + b;
    var start, end := |a|, |a| + |d|;
    assert s[start..end] == d;
    assert forall k :: start <= k < end ==> IsDigit(s[k]) by {
      forall k | start <= k < end ensures IsDigit(s[k]) {
        assert s[k] == d[k - start];
      }
    }
    assert forall k :: 0 <= k < start ==> s[k] == a[k];
    PercentInAt(s, start, end);
    NatToStringRoundTrip(n);
  }

  /** The texts that announce a finished generation. */
  predicate AnnouncesCompletion(text: string) {
    Contains(text, "Hoàn tất") || Contains(text, "Complete") || Contains(text, "Done")
  }

  /** The last reported percentage and the progress messages sent, in order. */
  datatype Progress = Progress(last: int, notes: seq<int>)

  /** One changed element: a percentage from 0 to 100 different from the last one is
      reported and remembered; a completion word reports 100 without being remembered. */
  function ProgressStep(last: int, text: string): Progress {
    var p := PercentIn(text);
    var seen := if p.Some? && p.value != last && p.value <= 100 then Progress(p.value, [p.value]) else Progress(last, []);
    if AnnouncesCompletion(text) then Progress(seen.last, seen.notes + [100]) else seen
  }

  /** `checkProgressChanges` over the changed elements, in order. */
  function ProgressNotes(last: int, texts: seq<string>): Progress {
    if |texts| == 0 then Progress(last, [])
    else
      var before := ProgressNotes(last, texts[..|texts| - 1]);
      var step := ProgressStep(before.last, texts[|texts| - 1]);
      Progress(step.last, before.notes + step.notes)
  }

  lemma ProgressNotesStep(last: int, texts: seq<string>, i: nat)
    requires i < |texts|
    ensures var before := ProgressNotes(last, texts[..i]);
      var step := ProgressStep(before.last, texts[i]);
      ProgressNotes(last, texts[..i + 1]) == Progress(step.last, before.notes + step.notes)
  {
    assert texts[..i + 1][..i] == texts[..i];
  }

  /** Every reported progress lies in 0..100, the remembered value stays -1 or in
      0..100, and it changes only to a value that was just reported. */
  lemma {:induction false} ProgressNotesSpec(last: int, texts: seq<string>)
    ensures var r := ProgressNotes(last, texts);
      (forall i :: 0 <= i < |r.notes| ==> 0 <= r.notes[i] <= 100)
      && (-1 <= last <= 100 ==> -1 <= r.last <= 100)
      && (r.last == last || r.last in r.notes)
  {
    if |texts| > 0 {
      ProgressNotesSpec(last, texts[..|texts| - 1]);
    }
  }

  /** The same percentage read twice in a row is reported once. */
  lemma RepeatedReadingOnce(last: int, text: string)
    requires !AnnouncesCompletion(text)
    ensures ProgressNotes(last, [text, text]).notes == ProgressNotes(last, [text]).notes
  {
    assert [text, text][..1] == [text];
    assert [text][..0] == [];
  }

  // ---------------------------------------------------------------------------
  // scanForVideos

  /** A video element whose source is a `blob:` url, with the first http link of the
      card around it, if there is such a card and link. */
  datatype BlobVideo = BlobVideo(src: string, link: Option<string>)

  /** The known urls and the urls reported, in order. */
  datatype Seen = Seen(known: set<string>, notified: seq<string>)

  /** A video source: a new http url is remembered and reported. */
  function SrcStep(s: Seen, src: string): Seen {
    if src != "" && src !in s.known && StartsWith(src, "http") then Seen(s.known + {src}, s.notified + [src])
    else s
  }

  /** A blob video: the http link of its card, when new, is remembered and reported; the
      blob url itself is never remembered. */
  function BlobStep(s: Seen, v: BlobVideo): Seen {
    if v.src != "" && StartsWith(v.src, "blob:") && v.src !in s.known && v.link.Some? && v.link.value !in s.known then
      Seen(s.known + {v.link.value}, s.notified + [v.link.value])
    else s
  }

  function ScanSrcs(s: Seen, srcs: seq<string>): Seen {
    if |srcs| == 0 then s else SrcStep(ScanSrcs(s, srcs[..|srcs| - 1]), srcs[|srcs| - 1])
  }

  function ScanBlobs(s: Seen, blobs: seq<BlobVideo>): Seen {
    if |blobs| == 0 then s else BlobStep(ScanBlobs(s, blobs[..|blobs| - 1]), blobs[|blobs| - 1])
  }

  /** `scanForVideos`: the video sources first, then the blob videos. */
  function ScanVideos(known: set<string>, srcs: seq<string>, blobs: seq<BlobVideo>): Seen {
    ScanBlobs(ScanSrcs(Seen(known, []), srcs), blobs)
  }

  /** Starting from the known urls `known0`, the reported urls are distinct, none of them
      was known before, and the known urls are the old ones plus the reported ones. */
  predicate Fresh(known0: set<string>, s: Seen) {
    s.known == known0 + (set x | x in s.notified)
    && (forall i, j :: 0 <= i < j < |s.notified| ==> s.notified[i] != s.notified[j])
    && (forall i :: 0 <= i < |s.notified| ==> s.notified[i] !in known0)
  }

  lemma {:induction false} ScanSrcsFresh(known0: set<string>, s: Seen, srcs: seq<string>)
    requires Fresh(known0, s)
    ensures Fresh(known0, ScanSrcs(s, srcs))
    ensures s.known <= ScanSrcs(s, srcs).known
    ensures forall i :: 0 <= i < |srcs| && StartsWith(srcs[i], "http") ==> srcs[i] in ScanSrcs(s, srcs).known
  {
    if |srcs| > 0 {
      var init := srcs[..|srcs| - 1];
      ScanSrcsFresh(known0, s, init);
      var before := ScanSrcs(s, init);
      var src := srcs[|srcs| - 1];
      if src != "" && src !in before.known && StartsWith(src, "http") {
        assert (set x | x in before.notified + [src]) == (set x | x in before.notified) + {src};
      }
      forall i | 0 <= i < |srcs| && StartsWith(srcs[i], "http") ensures srcs[i] in ScanSrcs(s, srcs).known {
        if i < |srcs| - 1 {
          assert srcs[i] == init[i];
        }
      }
    }
  }

  lemma {:induction false} ScanBlobsFresh(known0: set<string>, s: Seen, blobs: seq<BlobVideo>)
    requires Fresh(known0, s)
    ensures Fresh(known0, ScanBlobs(s, blobs))
    ensures s.known <= ScanBlobs(s, blobs).known
  {
    if |blobs| > 0 {
      var init := blobs[..|blobs| - 1];
      ScanBlobsFresh(known0, s, init);
      var before := ScanBlobs(s, init);
      var v := blobs[|blobs| - 1];
      if v.src != "" && StartsWith(v.src, "blob:") && v.src !in before.known && v.link.Some? && v.link.value !in before.known {
        assert (set x | x in before.notified + [v.link.value]) == (set x | x in before.notified) + {v.link.value};
      }
    }
  }

  /** One scan reports each url at most once, reports no url it already knew, remembers
      exactly the reported urls besides the known ones, and afterwards knows every http
      video source of the page. */
  lemma ScanVideosSpec(known: set<string>, srcs: seq<string>, blobs: seq<BlobVideo>)
    ensures Fresh(known, ScanVideos(known, srcs, blobs))
    ensures forall i :: 0 <= i < |srcs| && StartsWith(srcs[i], "http") ==> srcs[i] in ScanVideos(known, srcs, blobs).known
  {
    var s0 := Seen(known, []);
    assert (set x | x in s0.notified) == {};
    ScanSrcsFresh(known, s0, srcs);
    ScanBlobsFresh(known, ScanSrcs(s0, srcs), blobs);
  }

  /** A url reported by one scan is not reported by the next one. */
  lemma NoRepeatAcrossScans(known: set<string>, srcs1: seq<string>, blobs1: seq<BlobVideo>,
                            srcs2: seq<string>, blobs2: seq<BlobVideo>, url: string)
    requires url in ScanVideos(known, srcs1, blobs1).notified
    ensures url !in ScanVideos(ScanVideos(known, srcs1, blobs1).known, srcs2, blobs2).notified
  {
    var first := ScanVideos(known, srcs1, blobs1);
    ScanVideosSpec(known, srcs1, blobs1);
    ScanVideosSpec(first.known, srcs2, blobs2);
  }

  /** The watcher's state. */
  class DomWatcher {
    var knownVideos: set<string>
    var lastProgressValue: int
    var isDestroyed: bool

    constructor()
      ensures knownVideos == {} && lastProgressValue == -1 && !isDestroyed
    {
      knownVideos := {};
      lastProgressValue := -1;
      isDestroyed := false;
    }

    /** `checkProgressChanges`: returns the progress messages sent. */
    method CheckProgressChanges(texts: seq<string>) returns (notes: seq<int>)
      modifies this
      ensures Progress(lastProgressValue, notes) == ProgressNotes(old(lastProgressValue), texts)
      ensures knownVideos == old(knownVideos) && isDestroyed == old(isDestroyed)
    {
      notes := [];
      for i := 0 to |texts|
        invariant Progress(lastProgressValue, notes) == ProgressNotes(old(lastProgressValue), texts[..i])
        invariant knownVideos == old(knownVideos) && isDestroyed == old(isDestroyed)
      {
        ghost var step, notes0 := ProgressStep(lastProgressValue, texts[i]), notes;
        var text := texts[i];
        var percentMatch := PercentIn(text);
        if percentMatch.Some? {
          var progress := percentMatch.value;
          if progress != lastProgressValue && progress <= 100 {
            lastProgressValue := progress;
            notes := notes + [progress];
          }
        }
        if AnnouncesCompletion(text) {
          notes := notes + [100];
        }
        assert lastProgressValue == step.last && notes == notes0 + step.notes;
        ProgressNotesStep(old(lastProgressValue), texts, i);
      }
      assert texts[..|texts|] == texts;
    }

    /** `scanForVideos`: returns the urls reported as completed videos. */
    method ScanForVideos(srcs: seq<string>, blobs: seq<BlobVideo>) returns (notified: seq<string>)
      modifies this
      ensures Seen(knownVideos, notified) == ScanVideos(old(knownVideos), srcs, blobs)
      ensures lastProgressValue == old(lastProgressValue) && isDestroyed == old(isDestroyed)
    {
      notified := [];
      for i := 0 to |srcs|
        invariant Seen(knownVideos, notified) == ScanSrcs(Seen(old(knownVideos), []), srcs[..i])
        invariant lastProgressValue == old(lastProgressValue) && isDestroyed == old(isDestroyed)
      {
        var src := srcs[i];
        if src != "" && src !in knownVideos && StartsWith(src, "http") {
          knownVideos := knownVideos + {src};
          notified := notified + [src];
        }
        assert srcs[..i + 1][..i] == srcs[..i];
      }
      assert srcs[..|srcs|] == srcs;
      ghost var afterSrcs := Seen(knownVideos, notified);
      for i := 0 to |blobs|
        invariant Seen(knownVideos, notified) == ScanBlobs(afterSrcs, blobs[..i])
        invariant lastProgressValue == old(lastProgressValue) && isDestroyed == old(isDestroyed)
      {
        var v := blobs[i];
        if v.src != "" && StartsWith(v.src, "blob:") && v.src !in knownVideos {
          if v.link.Some? && v.link.value !in knownVideos {
            knownVideos := knownVideos + {v.link.value};
            notified := notified + [v.link.value];
          }
        }
        assert blobs[..i + 1][..i] == blobs[..i];
      }
      assert blobs[..|blobs|] == blobs;
    }

    /** The debounced mutation handler: nothing once the watcher is destroyed; otherwise
        the progress check, then the video scan. */
    method HandleMutations(texts: seq<string>, srcs: seq<string>, blobs: seq<BlobVideo>)
      returns (notes: seq<int>, videos: seq<string>)
      modifies this
      ensures old(isDestroyed) ==> (notes == [] && videos == []
        && knownVideos == old(knownVideos) && lastProgressValue == old(lastProgressValue))
      ensures !old(isDestroyed) ==> (
        Progress(lastProgressValue, notes) == ProgressNotes(old(lastProgressValue), texts)
        && Seen(knownVideos, videos) == ScanVideos(old(knownVideos), srcs, blobs))
      ensures isDestroyed == old(isDestroyed)
    {
      if isDestroyed {
        return [], [];
      }
      notes := CheckProgressChanges(texts);
      videos := ScanForVideos(srcs, blobs);
    }

    /** `disconnect`: the watcher is destroyed and forgets the urls and the progress. */
    method Disconnect()
      modifies this
      ensures isDestroyed && knownVideos == {} && lastProgressValue == -1
    {
      isDestroyed := true;
      knownVideos := {};
      lastProgressValue := -1;
    }
  }
}
