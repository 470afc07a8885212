/** How an image task finds the page's file input after opening the upload menu
    (content.js:1020-1047): up to ten polls, each preferring an input that was not on
    the page before and then one that accepts images; after them, any input that does
    not accept only text files. The page is given as the snapshot seen at each poll and
    the snapshot taken after the polls. */
module FileInput {
  import opened Opt
  import opened TextOps

  const MaxPolls: nat := 10

  /** A file input: its identity on the page and its `accept` attribute (`""` when it
      has none). */
  datatype Input = Input(id: nat, accept: string)

  /** The first position whose element satisfies `p`. */
  function FirstWhere<T>(l: seq<T>, p: T -> bool): (r: Option<nat>)
    ensures r.Some? ==> (r.value < |l| && p(l[r.value]) && forall j :: 0 <= j < r.value ==> !p(l[j]))
    ensures r.None? ==> forall j :: 0 <= j < |l| ==> !p(l[j])
  {
    if |l| == 0 then None
    else if p(l[0]) then Some(0)
    else match FirstWhere(l[1..], p)
      case Some(j) => Some(j + 1)
      case None => None
  }

  /** The strict image check of a poll. */
  predicate AcceptsImages(inp: Input) {
    inp.accept != "" && (Contains(inp.accept, "image") || Contains(inp.accept, ".png") || Contains(inp.accept, ".jpg"))
  }

  /** The last resort: an input without `accept`, or whose `accept` does not name `.txt`. */
  predicate NotTextOnly(inp: Input) {
    inp.accept == "" || !Contains(inp.accept, ".txt")
  }

  /** What a poll takes: an input that was not on the page before, or one that accepts
      images. */
  predicate Wanted(inp: Input, existing: set<nat>) {
    inp.id !in existing || AcceptsImages(inp)
  }

  /** One poll: the first new input, else the first that accepts images. */
  function PollChoice(current: seq<Input>, existing: set<nat>): (r: Option<Input>)
    ensures r.Some? ==> r.value in current && Wanted(r.value, existing)
    ensures r.None? ==> forall inp :: inp in current ==> !Wanted(inp, existing)
  {
    match FirstWhere(current, (inp: Input) => inp.id !in existing)
    case Some(k) => Some(current[k])
    case None =>
      match FirstWhere(current, AcceptsImages)
      case Some(k) => Some(current[k])
      case None =>
        assert forall inp :: inp in current ==> !Wanted(inp, existing) by {
          forall inp | inp in current ensures !Wanted(inp, existing) {
            var j :| 0 <= j < |current| && current[j] == inp;
          }
        }
        None
  }

  /** The polls from number `i` on. */
  function Polls(polls: nat -> seq<Input>, i: nat, existing: set<nat>): Option<Input>
    decreases MaxPolls - i
  {
    if i >= MaxPolls then None
    else match PollChoice(polls(i), existing)
      case Some(inp) => Some(inp)
      case None => Polls(polls, i + 1, existing)
  }

  /** The input chosen, `None` standing for the error thrown when there is none. */
  function Choose(existing: set<nat>, polls: nat -> seq<Input>, final: seq<Input>): Option<Input> {
    match Polls(polls, 0, existing)
    case Some(inp) => Some(inp)
    case None =>
      match FirstWhere(final, NotTextOnly)
      case Some(k) => Some(final[k])
      case None => None
  }

  /** The search loop. */
  method ChooseFileInput(existing: set<nat>, polls: nat -> seq<Input>, final: seq<Input>) returns (fileInput: Option<Input>)
    ensures fileInput == Choose(existing, polls, final)
  {
    fileInput := None;
    var i := 0;
    while i < MaxPolls
      invariant i <= MaxPolls
      invariant Polls(polls, i, existing) == Polls(polls, 0, existing)
    {
      var currentInputs := polls(i);
      var newInputs := FirstWhere(currentInputs, (inp: Input) => inp.id !in existing);
      if newInputs.Some? {
        fileInput := Some(currentInputs[newInputs.value]);
        break;
      }
      var strictInput := FirstWhere(currentInputs, AcceptsImages);
      if strictInput.Some? {
        fileInput := Some(currentInputs[strictInput.value]);
        break;
      }
      i := i + 1;
    }
    if fileInput.None? {
      var k := FirstWhere(final, NotTextOnly);
      if k.Some? {
        fileInput := Some(final[k.value]);
      }
    }
  }

  /** No poll from number `i` on shows a wanted input. */
  predicate NoneWanted(polls: nat -> seq<Input>, i: nat, existing: set<nat>) {
    forall n, inp :: i <= n < MaxPolls && inp in polls(n) ==> !Wanted(inp, existing)
  }

  /** The polls from `i` on choose a wanted input seen at one of them, and choose nothing
      only when no poll shows one. */
  lemma {:induction false} PollsSpec(polls: nat -> seq<Input>, i: nat, existing: set<nat>)
    ensures match Polls(polls, i, existing)
      case Some(inp) => exists n :: i <= n < MaxPolls && inp in polls(n) && Wanted(inp, existing)
      case None => NoneWanted(polls, i, existing)
    decreases MaxPolls - i
  {
    if i < MaxPolls {
      match PollChoice(polls(i), existing)
      case Some(inp) =>
        assert Polls(polls, i, existing) == Some(inp);
        assert inp in polls(i) && Wanted(inp, existing);
      case None =>
        PollsSpec(polls, i + 1, existing);
        assert Polls(polls, i, existing) == Polls(polls, i + 1, existing);
    }
  }

  /** The search fails exactly when no poll shows a new input or an image input and every
      input left on the page accepts `.txt` files. */
  lemma ChooseFails(existing: set<nat>, polls: nat -> seq<Input>, final: seq<Input>)
    ensures Choose(existing, polls, final).None? <==>
      NoneWanted(polls, 0, existing) && forall inp :: inp in final ==> !NotTextOnly(inp)
  {
    PollsSpec(polls, 0, existing);
    match Polls(polls, 0, existing)
    case Some(inp) =>
      var n :| 0 <= n < MaxPolls && inp in polls(n) && Wanted(inp, existing);
    case None =>
      match FirstWhere(final, NotTextOnly)
      case Some(k) =>
        assert final[k] in final && NotTextOnly(final[k]);
      case None =>
        forall inp | inp in final ensures !NotTextOnly(inp) {
          var j :| 0 <= j < |final| && final[j] == inp;
        }
  }

  /** What the search finds is a new or image input seen at some poll, or else an input
      of the page that is not for text files only. */
  lemma ChooseFinds(existing: set<nat>, polls: nat -> seq<Input>, final: seq<Input>)
    requires Choose(existing, polls, final).Some?
    ensures var inp := Choose(existing, polls, final).value;
      (exists n :: 0 <= n < MaxPolls && inp in polls(n) && Wanted(inp, existing))
      || (inp in final && NotTextOnly(inp))
  {
    PollsSpec(polls, 0, existing);
  }

  /** A new input seen at the first poll is taken whatever it accepts, even text files. */
  lemma NewInputWins(existing: set<nat>, polls: nat -> seq<Input>, final: seq<Input>, k: nat)
    requires k < |polls(0)| && polls(0)[k].id !in existing
    requires forall j :: 0 <= j < k ==> polls(0)[j].id in existing
    ensures Choose(existing, polls, final) == Some(polls(0)[k])
  {
    var isNew := (inp: Input) => inp.id !in existing;
    assert FirstWhere(polls(0), isNew) == Some(k) by {
      FirstWhereIs(polls(0), isNew, k);
    }
  }

  lemma FirstWhereIs<T>(l: seq<T>, p: T -> bool, k: nat)
    requires k < |l| && p(l[k]) && forall j :: 0 <= j < k ==> !p(l[j])
    ensures FirstWhere(l, p) == Some(k)
  {
  }
}
