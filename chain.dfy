/** `make_all_changesets` (data-generator/generate_data.py:67-93): a list of
    changesets, each one's "before" being the sha its predecessor resolves to. */
module Chain {
  import opened Types
  import opened ChangesetGenerator

  /** What one call draws: the initial `secrets.token_hex(20)` of line 83,
      the single `random.randrange(1, 5)` of line 86 (used only when
      `num_changes` is falsy), and the draws of each `make_changes` call. */
  datatype ChainDraws = ChainDraws(seed: Token, count: int, changesets: seq<ChangesetDraws>)

  /** Python truthiness of the optional `num_changes`: None and 0 are false. */
  predicate Given(n: Option<int>) {
    n.Some? && n.value != 0
  }

  /** The commit count every changeset of the call uses: `num_changes` when
      truthy, otherwise the one value drawn on the first iteration. */
  function CommitCount(numChanges: Option<int>, count: int): int {
    if Given(numChanges) then numChanges.value else count
  }

  /** The draws fit the call: the count comes from [1, 5), there is one
      `ChangesetDraws` per event, and each has one draw per commit. */
  predicate Fits(numEvents: int, timespan: int, numChanges: Option<int>, src: ChainDraws) {
    && 1 <= src.count < 5
    && |src.changesets| == Iterations(numEvents)
    && forall i :: 0 <= i < |src.changesets| ==>
         && |src.changesets[i].commits| == Iterations(CommitCount(numChanges, src.count))
         && OffsetsDrawn(src.changesets[i], timespan)
  }

  /** The loop's state after some iterations: the list built so far and
      `prev_change_sha`. */
  datatype Progress = Progress(changesets: seq<Changeset>, prev: string)

  /** One iteration of lines 87-91; an exception ends the call. */
  function Step(p: Result<Progress, Error>, count: int, timespan: int, d: ChangesetDraws): Result<Progress, Error>
    requires |d.commits| == Iterations(count)
  {
    match p
    case Err(e) => Err(e)
    case Ok(pr) =>
      match Changes(count, timespan, Some(pr.prev), d)
      case Err(e) => Err(e)
      case Ok(cs) =>
        match ResolvedRef(cs)
        case Err(e) => Err(e)
        case Ok(sha) => Ok(Progress(pr.changesets + [cs], sha))
  }

  predicate AllSized(ds: seq<ChangesetDraws>, count: int) {
    forall i :: 0 <= i < |ds| ==> |ds[i].commits| == Iterations(count)
  }

  /** The loop run over the draws `ds`, starting from `prev_change_sha == seed`. */
  function Run(count: int, timespan: int, seed: string, ds: seq<ChangesetDraws>): Result<Progress, Error>
    requires AllSized(ds, count)
    decreases |ds|
  {
    if ds == [] then Ok(Progress([], seed))
    else Step(Run(count, timespan, seed, ds[..|ds| - 1]), count, timespan, ds[|ds| - 1])
  }

  /** What `make_all_changesets(num_events, event_timespan, num_changes)` returns or raises. */
  function AllChangesets(numEvents: int, timespan: int, numChanges: Option<int>, src: ChainDraws): Result<seq<Changeset>, Error>
    requires Fits(numEvents, timespan, numChanges, src)
  {
    match Run(CommitCount(numChanges, src.count), timespan, src.seed, src.changesets)
    case Err(e) => Err(e)
    case Ok(p) => Ok(p.changesets)
  }

  /** Once an iteration has raised, the whole call raises the same exception. */
  lemma {:induction false} RunErrSticky(count: int, timespan: int, seed: string, ds: seq<ChangesetDraws>, i: nat)
    requires AllSized(ds, count)
    requires i <= |ds|
    requires Run(count, timespan, seed, ds[..i]).Err?
    ensures Run(count, timespan, seed, ds) == Run(count, timespan, seed, ds[..i])
    decreases |ds| - i
  {
    if i < |ds| {
      assert ds[..i + 1][..i] == ds[..i];
      RunErrSticky(count, timespan, seed, ds, i + 1);
    } else {
      assert ds[..i] == ds;
    }
  }

  /** A run over one more draw is one more step. */
  lemma RunSnoc(count: int, timespan: int, seed: string, ds: seq<ChangesetDraws>, i: nat)
    requires AllSized(ds, count) && i < |ds|
    ensures AllSized(ds[..i], count) && AllSized(ds[..i + 1], count)
    ensures Run(count, timespan, seed, ds[..i + 1]) == Step(Run(count, timespan, seed, ds[..i]), count, timespan, ds[i])
  {
    assert ds[..i + 1][..i] == ds[..i];
    assert AllSized(ds[..i], count);
  }

  /** The loop of lines 82-93, step by step. */
  method MakeAllChangesets(numEvents: int, timespan: int, numChanges: Option<int>, src: ChainDraws)
    returns (r: Result<seq<Changeset>, Error>)
    requires Fits(numEvents, timespan, numChanges, src)
    ensures r == AllChangesets(numEvents, timespan, numChanges, src)
  {
    ghost var count := CommitCount(numChanges, src.count);
    var all: seq<Changeset> := [];
    var prev: string := src.seed;
    var n := numChanges;
    var i := 0;
    while i < Iterations(numEvents)
      invariant 0 <= i <= |src.changesets|
      invariant i == 0 ==> n == numChanges
      invariant i > 0 ==> n == Some(count)
      invariant Run(count, timespan, src.seed, src.changesets[..i]) == Ok(Progress(all, prev))
    {
      if !Given(n) {
        n := Some(src.count);
      }
      var d := src.changesets[i];
      var made := MakeChanges(n.value, timespan, Some(prev), d);
      if made.Err? {
        assert AllSized(src.changesets[..i + 1], count) && Run(count, timespan, src.seed, src.changesets[..i + 1]) == Err(made.error) by {
          RunSnoc(count, timespan, src.seed, src.changesets, i);
        }
        RunErrSticky(count, timespan, src.seed, src.changesets, i + 1);
        return Err(made.error);
      }
      var changeset := made.value;
      var sha := ResolvedRef(changeset);
      if sha.Err? {
        assert AllSized(src.changesets[..i + 1], count) && Run(count, timespan, src.seed, src.changesets[..i + 1]) == Err(sha.error) by {
          RunSnoc(count, timespan, src.seed, src.changesets, i);
        }
        RunErrSticky(count, timespan, src.seed, src.changesets, i + 1);
        return Err(sha.error);
      }
      assert AllSized(src.changesets[..i + 1], count) && Run(count, timespan, src.seed, src.changesets[..i + 1]) == Ok(Progress(all + [changeset], sha.value)) by {
        RunSnoc(count, timespan, src.seed, src.changesets, i);
      }
      prev := sha.value;
      all := all + [changeset];
      i := i + 1;
    }
    assert src.changesets[..i] == src.changesets;
    r := Ok(all);
  }

  /** What a run without an exception over the draws `ds` has built: one
      changeset per iteration, each made from its own draws, none with a
      checkout sha, the first chained to the seed, each later one to the sha
      its predecessor resolves to, and `prev_change_sha` a token that the
      last changeset resolves to. */
  predicate Linked(seed: Token, ds: seq<ChangesetDraws>, p: Progress) {
    && |p.changesets| == |ds|
    && IsToken(p.prev)
    && (ds == [] ==> p.prev == seed)
    && (ds != [] ==> ResolvedRef(p.changesets[|ds| - 1]) == Ok(p.prev))
    && (ds != [] ==> p.changesets[0].before == seed)
    && (forall i :: 0 <= i < |ds| ==>
          && p.changesets[i].commits == CommitsOf(ds[i].commits)
          && p.changesets[i].checkoutSha.None?)
    && (forall i :: 0 <= i < |ds| - 1 ==> ResolvedRef(p.changesets[i]) == Ok(p.changesets[i + 1].before))
  }

  /** One more iteration that chains its changeset to `prev_change_sha`
      keeps the run linked. */
  lemma LinkedStep(seed: Token, ds: seq<ChangesetDraws>, pr: Progress, cs: Changeset, sha: string)
    requires ds != [] && Linked(seed, ds[..|ds| - 1], pr)
    requires cs.before == pr.prev && cs.commits == CommitsOf(ds[|ds| - 1].commits) && cs.checkoutSha.None?
    requires ResolvedRef(cs) == Ok(sha) && IsToken(sha)
    ensures Linked(seed, ds, Progress(pr.changesets + [cs], sha))
  {
    var init := ds[..|ds| - 1];
    var d := ds[|ds| - 1];
    var p := Progress(pr.changesets + [cs], sha);
    forall i | 0 <= i < |ds| - 1
      ensures ResolvedRef(p.changesets[i]) == Ok(p.changesets[i + 1].before)
    {
      if i + 1 == |init| {
        assert p.changesets[i + 1] == cs;
      } else {
        assert p.changesets[i] == pr.changesets[i];
        assert p.changesets[i + 1] == pr.changesets[i + 1];
      }
    }
    forall i | 0 <= i < |ds|
      ensures p.changesets[i].commits == CommitsOf(ds[i].commits) && p.changesets[i].checkoutSha.None?
    {
      if i < |init| {
        assert p.changesets[i] == pr.changesets[i];
        assert ds[i] == init[i];
      } else {
        assert p.changesets[i] == cs;
        assert ds[i] == d;
      }
    }
  }

  /** A run without an exception had none before its last iteration. */
  lemma RunInit(count: int, timespan: int, seed: Token, ds: seq<ChangesetDraws>)
    requires ds != [] && AllSized(ds, count)
    requires Run(count, timespan, seed, ds).Ok?
    ensures AllSized(ds[..|ds| - 1], count)
    ensures Run(count, timespan, seed, ds[..|ds| - 1]).Ok?
  {
    assert AllSized(ds[..|ds| - 1], count);
  }

  /** The last iteration of a run without an exception appended a changeset
      chained to the previous `prev_change_sha`, moving `prev_change_sha` to
      a token. */
  lemma RunLastStep(count: int, timespan: int, seed: Token, ds: seq<ChangesetDraws>)
      returns (pr: Progress, cs: Changeset, sha: string)
    requires ds != [] && AllSized(ds, count) && AllSized(ds[..|ds| - 1], count)
    requires Run(count, timespan, seed, ds).Ok?
    requires Run(count, timespan, seed, ds[..|ds| - 1]).Ok?
    requires IsToken(Run(count, timespan, seed, ds[..|ds| - 1]).value.prev)
    ensures Run(count, timespan, seed, ds[..|ds| - 1]) == Ok(pr)
    ensures Run(count, timespan, seed, ds).value == Progress(pr.changesets + [cs], sha)
    ensures cs.before == pr.prev && cs.commits == CommitsOf(ds[|ds| - 1].commits) && cs.checkoutSha.None?
    ensures ResolvedRef(cs) == Ok(sha) && IsToken(sha)
  {
    var d := ds[|ds| - 1];
    pr := Run(count, timespan, seed, ds[..|ds| - 1]).value;
    GeneratedChangeset(count, timespan, Some(pr.prev), d);
    cs := Changes(count, timespan, Some(pr.prev), d).value;
    sha := ResolvedRef(cs).value;
  }

  /** Every run of the loop without an exception is linked. */
  lemma {:induction false} RunLinked(count: int, timespan: int, seed: Token, ds: seq<ChangesetDraws>)
    requires AllSized(ds, count)
    requires Run(count, timespan, seed, ds).Ok?
    ensures Linked(seed, ds, Run(count, timespan, seed, ds).value)
    decreases |ds|
  {
    if ds != [] {
      var init := ds[..|ds| - 1];
      RunInit(count, timespan, seed, ds);
      RunLinked(count, timespan, seed, init);
      var pr, cs, sha := RunLastStep(count, timespan, seed, ds);
      LinkedStep(seed, ds, pr, cs, sha);
    }
  }

  /** The output has one changeset per event, the first chained to the
      initial token, and every changeset's "before" is the sha its
      predecessor resolves to (`checkout_sha or head_commit["id"]`). */
  lemma ChainLinked(numEvents: int, timespan: int, numChanges: Option<int>, src: ChainDraws)
    requires Fits(numEvents, timespan, numChanges, src)
    requires AllChangesets(numEvents, timespan, numChanges, src).Ok?
    ensures var cs := AllChangesets(numEvents, timespan, numChanges, src).value;
      && |cs| == Iterations(numEvents)
      && (|cs| > 0 ==> cs[0].before == src.seed)
      && (forall i :: 0 <= i < |cs| - 1 ==> ResolvedRef(cs[i]) == Ok(cs[i + 1].before))
  {
    RunLinked(CommitCount(numChanges, src.count), timespan, src.seed, src.changesets);
  }

  /** `num_changes` is fixed for the whole call: every changeset has the
      same number of commits, drawn once from [1, 5) when none is given. */
  lemma CountDrawnOnce(numEvents: int, timespan: int, numChanges: Option<int>, src: ChainDraws)
    requires Fits(numEvents, timespan, numChanges, src)
    requires AllChangesets(numEvents, timespan, numChanges, src).Ok?
    ensures var cs := AllChangesets(numEvents, timespan, numChanges, src).value;
      && (forall i :: 0 <= i < |cs| ==> |cs[i].commits| == Iterations(CommitCount(numChanges, src.count)))
      && (!Given(numChanges) ==> forall i :: 0 <= i < |cs| ==> 1 <= |cs[i].commits| < 5 && |cs[i].commits| == src.count)
  {
    RunLinked(CommitCount(numChanges, src.count), timespan, src.seed, src.changesets);
  }

  /** With a positive timespan, a positive or unset commit count and a clock
      that does not run backwards, no iteration raises. */
  lemma {:induction false} RunSucceeds(count: int, timespan: int, seed: Token, ds: seq<ChangesetDraws>)
    requires AllSized(ds, count)
    requires count > 0 && timespan > 0
    requires forall i :: 0 <= i < |ds| ==> OffsetsDrawn(ds[i], timespan) && ClockMonotone(ds[i])
    ensures Run(count, timespan, seed, ds).Ok?
    decreases |ds|
  {
    if ds != [] {
      var init := ds[..|ds| - 1];
      assert AllSized(init, count);
      RunSucceeds(count, timespan, seed, init);
      var d := ds[|ds| - 1];
      HeadPresent(count, timespan, Some(Run(count, timespan, seed, init).value.prev), d);
    }
  }

  lemma ChainSucceeds(numEvents: int, timespan: int, numChanges: Option<int>, src: ChainDraws)
    requires Fits(numEvents, timespan, numChanges, src)
    requires timespan > 0 && (!Given(numChanges) || numChanges.value > 0)
    requires forall i :: 0 <= i < |src.changesets| ==> ClockMonotone(src.changesets[i])
    ensures AllChangesets(numEvents, timespan, numChanges, src).Ok?
  {
    RunSucceeds(CommitCount(numChanges, src.count), timespan, src.seed, src.changesets);
  }

  /** A negative `num_changes` is truthy, so it is not replaced; `range` of it
      is empty, the first changeset has no head, and line 89 raises. */
  lemma NegativeCountRaises(numEvents: int, timespan: int, numChanges: Option<int>, src: ChainDraws)
    requires Fits(numEvents, timespan, numChanges, src)
    requires numEvents > 0 && numChanges.Some? && numChanges.value < 0
    ensures AllChangesets(numEvents, timespan, numChanges, src) == Err(NoneHasNoGet)
  {
    var count := CommitCount(numChanges, src.count);
    var ds := src.changesets;
    assert AllSized(ds[..1], count);
    assert ds[..1][..0] == [];
    assert Run(count, timespan, src.seed, ds[..1]) == Err(NoneHasNoGet);
    RunErrSticky(count, timespan, src.seed, ds, 1);
  }
}
