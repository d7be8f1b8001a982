/** `make_changes` (data-generator/generate_data.py:29-64): one changeset of
    generated commits, its head commit and its "before" sha.

    The values the source draws from `secrets`, `time` and `random` are
    inputs here: a `CommitDraw` per loop iteration and a `ChangesetDraws`
    per call. */
module ChangesetGenerator {
  import opened Types

  /** What one iteration of the loop at line 48 draws: the commit's
      `secrets.token_hex(20)`, the clock `time.time()` and the offset
      `random.randrange(0, event_timespan)`. */
  datatype CommitDraw = CommitDraw(id: Token, now: int, offset: int)

  /** What one call draws: the token used when no `before` is given
      (line 46), the clock reading of line 43, and one draw per commit. */
  datatype ChangesetDraws = ChangesetDraws(token: Token, start: int, commits: seq<CommitDraw>)

  /** `randrange(0, t)` only returns values in [0, t); with t <= 0 it raises. */
  predicate OffsetsDrawn(src: ChangesetDraws, timespan: int) {
    timespan > 0 ==> forall i :: 0 <= i < |src.commits| ==> 0 <= src.commits[i].offset < timespan
  }

  /** The clock never runs backwards during the call. */
  predicate ClockMonotone(src: ChangesetDraws) {
    forall i :: 0 <= i < |src.commits| ==> src.start <= src.commits[i].now
  }

  /** The commit built at lines 49-54. */
  function CommitOf(d: CommitDraw): Commit {
    Commit(d.id, d.now - d.offset)
  }

  function CommitsOf(ds: seq<CommitDraw>): (cs: seq<Commit>)
    ensures |cs| == |ds|
    ensures forall i :: 0 <= i < |ds| ==> cs[i] == CommitOf(ds[i])
  {
    seq(|ds|, i requires 0 <= i < |ds| => CommitOf(ds[i]))
  }

  /** Commit `k` is the head: later than `floor`, no commit is later, and
      every commit before it is strictly earlier (first-seen wins ties). */
  predicate IsFirstMax(commits: seq<Commit>, k: nat, floor: int)
    requires k < |commits|
  {
    && commits[k].timestamp > floor
    && (forall i :: 0 <= i < |commits| ==> commits[i].timestamp <= commits[k].timestamp)
    && (forall i :: 0 <= i < k ==> commits[i].timestamp < commits[k].timestamp)
  }

  /** The index the scan of lines 56-58 leaves in `head_commit`, starting
      from `max_time == floor` and no head: a commit replaces the head only
      when it is strictly later than the running maximum. */
  function HeadIndex(commits: seq<Commit>, floor: int): (k: Option<nat>)
    ensures k.None? <==> forall i :: 0 <= i < |commits| ==> commits[i].timestamp <= floor
    ensures k.Some? ==> k.value < |commits| && IsFirstMax(commits, k.value, floor)
    decreases |commits|
  {
    if commits == [] then None
    else
      var prior := HeadIndex(commits[..|commits| - 1], floor);
      var maxTime := if prior.None? then floor else commits[prior.value].timestamp;
      if commits[|commits| - 1].timestamp > maxTime then Some(|commits| - 1) else prior
  }

  function HeadCommit(commits: seq<Commit>, floor: int): Option<Commit> {
    match HeadIndex(commits, floor)
    case None => None
    case Some(k) => Some(commits[k])
  }

  /** The running maximum of line 57 for a given head. */
  function MaxTime(head: Option<Commit>, floor: int): int {
    if head.None? then floor else head.value.timestamp
  }

  /** The changeset `make_changes(num_changes, event_timespan, before)` returns,
      or the ValueError `randrange(0, event_timespan)` raises on the first
      iteration when the timespan is not positive. */
  function Changes(numChanges: int, timespan: int, before: Option<string>, src: ChangesetDraws): Result<Changeset, Error>
    requires |src.commits| == Iterations(numChanges)
  {
    if |src.commits| > 0 && timespan <= 0 then Err(EmptyRange)
    else
      var commits := CommitsOf(src.commits);
      Ok(Changeset(
        HeadCommit(commits, src.start - timespan),
        if Truthy(before) then before.value else src.token,
        commits,
        None))
  }

  /** The loop of lines 42-64, step by step. */
  method MakeChanges(numChanges: int, timespan: int, before: Option<string>, src: ChangesetDraws)
    returns (r: Result<Changeset, Error>)
    requires |src.commits| == Iterations(numChanges)
    ensures r == Changes(numChanges, timespan, before, src)
  {
    var changes: seq<Commit> := [];
    var floor := src.start - timespan;
    var maxTime := floor;
    var head: Option<Commit> := None;
    var prev := if Truthy(before) then before.value else src.token;
    var x := 0;
    while x < Iterations(numChanges)
      invariant 0 <= x <= |src.commits|
      invariant changes == CommitsOf(src.commits[..x])
      invariant head == HeadCommit(changes, floor)
      invariant maxTime == MaxTime(head, floor)
      invariant x > 0 ==> timespan > 0
    {
      if timespan <= 0 {
        return Err(EmptyRange);
      }
      var change := CommitOf(src.commits[x]);
      if change.timestamp > maxTime {
        maxTime := change.timestamp;
        head := Some(change);
      }
      assert (changes + [change])[..|changes|] == changes;
      changes := changes + [change];
      x := x + 1;
    }
    assert src.commits[..x] == src.commits;
    r := Ok(Changeset(head, prev, changes, None));
  }

  /** `make_changes` returns one commit per iteration, in generation order,
      and keeps a non-empty `before`, drawing a fresh token otherwise. */
  lemma ChangesShape(numChanges: int, timespan: int, before: Option<string>, src: ChangesetDraws)
    requires |src.commits| == Iterations(numChanges)
    requires numChanges <= 0 || timespan > 0
    ensures Changes(numChanges, timespan, before, src).Ok?
    ensures var cs := Changes(numChanges, timespan, before, src).value;
      && |cs.commits| == Iterations(numChanges)
      && (forall i :: 0 <= i < |cs.commits| ==>
            cs.commits[i].id == src.commits[i].id
            && cs.commits[i].timestamp == src.commits[i].now - src.commits[i].offset)
      && (Truthy(before) ==> cs.before == before.value)
      && (!Truthy(before) ==> cs.before == src.token)
      && cs.checkoutSha.None?
  {
  }

  /** With a non-positive timespan any commit to generate makes
      `randrange(0, event_timespan)` raise. */
  lemma ChangesEmptyRange(numChanges: int, timespan: int, before: Option<string>, src: ChangesetDraws)
    requires |src.commits| == Iterations(numChanges)
    requires numChanges > 0 && timespan <= 0
    ensures Changes(numChanges, timespan, before, src) == Err(EmptyRange)
  {
  }

  /** The head commit is one of the commits, no commit is later, and of
      several commits with the latest timestamp the first generated is kept. */
  lemma {:induction false} HeadIsFirstLatest(numChanges: int, timespan: int, before: Option<string>, src: ChangesetDraws)
    requires |src.commits| == Iterations(numChanges)
    requires Changes(numChanges, timespan, before, src).Ok?
    requires Changes(numChanges, timespan, before, src).value.headCommit.Some?
    ensures var cs := Changes(numChanges, timespan, before, src).value;
      exists k :: 0 <= k < |cs.commits| && cs.headCommit.value == cs.commits[k]
        && (forall i :: 0 <= i < |cs.commits| ==> cs.commits[i].timestamp <= cs.commits[k].timestamp)
        && (forall i :: 0 <= i < k ==> cs.commits[i].timestamp < cs.commits[k].timestamp)
  {
    var cs := Changes(numChanges, timespan, before, src).value;
    var k := HeadIndex(cs.commits, src.start - timespan).value;
    assert IsFirstMax(cs.commits, k, src.start - timespan);
  }

  /** With no commit to generate the changeset has no head and no commits. */
  lemma EmptyChangeset(numChanges: int, timespan: int, before: Option<string>, src: ChangesetDraws)
    requires |src.commits| == Iterations(numChanges)
    requires numChanges <= 0
    ensures Changes(numChanges, timespan, before, src).Ok?
    ensures Changes(numChanges, timespan, before, src).value.headCommit.None?
    ensures Changes(numChanges, timespan, before, src).value.commits == []
  {
  }

  /** While the clock does not run backwards, every commit is later than
      `max_time`'s start, so a changeset with commits always has a head
      and that head's id is a drawn token. */
  lemma {:induction false} HeadPresent(numChanges: int, timespan: int, before: Option<string>, src: ChangesetDraws)
    requires |src.commits| == Iterations(numChanges)
    requires numChanges > 0 && timespan > 0
    requires OffsetsDrawn(src, timespan) && ClockMonotone(src)
    ensures Changes(numChanges, timespan, before, src).Ok?
    ensures Changes(numChanges, timespan, before, src).value.headCommit.Some?
  {
    var commits := CommitsOf(src.commits);
    assert commits[0].timestamp > src.start - timespan;
  }

  /** A changeset `make_changes` returns holds the drawn commits, the given
      non-empty `before` or else the fresh token, no checkout sha, and a
      head, if any, whose id is a drawn token. */
  lemma GeneratedChangeset(numChanges: int, timespan: int, before: Option<string>, src: ChangesetDraws)
    requires |src.commits| == Iterations(numChanges)
    requires Changes(numChanges, timespan, before, src).Ok?
    ensures var cs := Changes(numChanges, timespan, before, src).value;
      && cs.commits == CommitsOf(src.commits)
      && cs.before == (if Truthy(before) then before.value else src.token)
      && cs.checkoutSha.None?
      && (cs.headCommit.Some? ==> IsToken(cs.headCommit.value.id))
  {
    var cs := Changes(numChanges, timespan, before, src).value;
    if cs.headCommit.Some? {
      HeadIsToken(src.commits, src.start - timespan);
    }
  }

  /** The head of a generated changeset carries one of the drawn tokens. */
  lemma HeadIsToken(commits: seq<CommitDraw>, floor: int)
    requires HeadCommit(CommitsOf(commits), floor).Some?
    ensures IsToken(HeadCommit(CommitsOf(commits), floor).value.id)
    ensures exists i :: 0 <= i < |commits| && HeadCommit(CommitsOf(commits), floor).value.id == commits[i].id
  {
    var k := HeadIndex(CommitsOf(commits), floor).value;
    assert CommitsOf(commits)[k] == CommitOf(commits[k]);
  }
}
