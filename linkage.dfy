/** How the payloads of data-generator/generate_data.py fit together: the
    changesets of one chain, their individual changes, and the deployment
    and issue events built from their head commits. */
module Linkage {
  import opened Types
  import opened ChangesetGenerator
  import opened Chain
  import opened Decompose
  import opened Events

  /** A generated chain is a chain of head commits: every changeset has a
      head and no checkout sha, and each head's id is the next "before". */
  lemma {:induction false} ChainOfHeads(numEvents: int, timespan: int, numChanges: Option<int>, src: ChainDraws)
    requires Fits(numEvents, timespan, numChanges, src)
    requires AllChangesets(numEvents, timespan, numChanges, src).Ok?
    ensures var cs := AllChangesets(numEvents, timespan, numChanges, src).value;
      && (forall i :: 0 <= i < |cs| ==> cs[i].headCommit.Some? && cs[i].checkoutSha.None?)
      && (forall i :: 0 <= i < |cs| - 1 ==> cs[i + 1].before == cs[i].headCommit.value.id)
  {
    var ds := src.changesets;
    var count := CommitCount(numChanges, src.count);
    RunLinked(count, timespan, src.seed, ds);
    var p := Run(count, timespan, src.seed, ds).value;
    var cs := AllChangesets(numEvents, timespan, numChanges, src).value;
    assert cs == p.changesets;
    forall i | 0 <= i < |cs|
      ensures cs[i].headCommit.Some? && cs[i].checkoutSha.None?
    {
      assert p.changesets[i].checkoutSha.None?;
      if i < |cs| - 1 {
        assert ResolvedRef(p.changesets[i]) == Ok(p.changesets[i + 1].before);
      } else {
        assert ResolvedRef(p.changesets[|ds| - 1]) == Ok(p.prev);
      }
    }
    forall i | 0 <= i < |cs| - 1
      ensures cs[i + 1].before == cs[i].headCommit.value.id
    {
      assert ResolvedRef(p.changesets[i]) == Ok(p.changesets[i + 1].before);
    }
  }

  /** The deployment built for a changeset's head deploys the sha the next
      changeset names as its "before". */
  lemma DeployMarksNextBefore(numEvents: int, timespan: int, numChanges: Option<int>, src: ChainDraws, i: nat, id: Token)
    requires Fits(numEvents, timespan, numChanges, src)
    requires AllChangesets(numEvents, timespan, numChanges, src).Ok?
    requires i + 1 < |AllChangesets(numEvents, timespan, numChanges, src).value|
    ensures var cs := AllChangesets(numEvents, timespan, numChanges, src).value;
      && CreateDeployEvent(cs[i].headCommit, id).Ok?
      && CreateDeployEvent(cs[i].headCommit, id).value.deployment.sha == cs[i + 1].before
  {
    ChainOfHeads(numEvents, timespan, numChanges, src);
  }

  /** Every changeset of a generated chain can be decomposed, and its
      individual changes never repeat the changeset's own head. */
  lemma ChainDecomposes(numEvents: int, timespan: int, numChanges: Option<int>, src: ChainDraws, i: nat)
    requires Fits(numEvents, timespan, numChanges, src)
    requires AllChangesets(numEvents, timespan, numChanges, src).Ok?
    requires i < |AllChangesets(numEvents, timespan, numChanges, src).value|
    ensures var cs := AllChangesets(numEvents, timespan, numChanges, src).value[i];
      && IndChanges(cs).Ok?
      && forall j :: 0 <= j < |IndChanges(cs).value| ==>
           IndChanges(cs).value[j].headCommit.value.id != cs.headCommit.value.id
  {
    ChainOfHeads(numEvents, timespan, numChanges, src);
    var cs := AllChangesets(numEvents, timespan, numChanges, src).value[i];
    var sha := cs.headCommit.value.id;
    KeptIsFilter(cs.commits, sha);
    var kept := Kept(cs.commits, sha);
    var idx := KeptIndices(cs.commits, sha);
    forall j | 0 <= j < |kept|
      ensures kept[j].id != sha
    {
      assert idx[j] in idx;
    }
  }

  predicate DistinctDrawIds(ds: seq<CommitDraw>) {
    forall i, j :: 0 <= i < j < |ds| ==> ds[i].id != ds[j].id
  }

  /** A changeset generated with a positive count, a positive timespan, a
      clock that does not run backwards and distinct commit ids decomposes
      into one individual change for every commit but its head. */
  lemma GeneratedDecomposes(numChanges: int, timespan: int, before: Option<string>, src: ChangesetDraws)
    requires |src.commits| == Iterations(numChanges)
    requires numChanges > 0 && timespan > 0
    requires OffsetsDrawn(src, timespan) && ClockMonotone(src)
    requires DistinctDrawIds(src.commits)
    ensures Changes(numChanges, timespan, before, src).Ok?
    ensures var cs := Changes(numChanges, timespan, before, src).value;
      IndChanges(cs).Ok? && |IndChanges(cs).value| == numChanges - 1
  {
    HeadPresent(numChanges, timespan, before, src);
    var cs := Changes(numChanges, timespan, before, src).value;
    var k := HeadIndex(cs.commits, src.start - timespan).value;
    assert cs.headCommit.value == cs.commits[k];
    assert DistinctIds(cs.commits) by {
      forall i, j | 0 <= i < j < |cs.commits|
        ensures cs.commits[i].id != cs.commits[j].id
      {
        assert cs.commits[i].id == src.commits[i].id;
        assert cs.commits[j].id == src.commits[j].id;
      }
    }
    HeadLeftOut(cs);
  }

  /** An issue raised against a changeset's head was created at the
      changeset's latest commit time. */
  lemma IssueAtLatestCommit(numChanges: int, timespan: int, before: Option<string>, src: ChangesetDraws,
                            updatedAt: int, closedAt: int, number: int)
    requires |src.commits| == Iterations(numChanges)
    requires 0 <= number < 1000
    requires Changes(numChanges, timespan, before, src).Ok?
    requires Changes(numChanges, timespan, before, src).value.headCommit.Some?
    ensures var cs := Changes(numChanges, timespan, before, src).value;
      var issue := MakeIssue(cs.headCommit, updatedAt, closedAt, number);
      && issue.Ok?
      && (exists k :: 0 <= k < |cs.commits| && issue.value.issue.createdAt == cs.commits[k].timestamp)
      && (forall k :: 0 <= k < |cs.commits| ==> cs.commits[k].timestamp <= issue.value.issue.createdAt)
  {
    HeadIsFirstLatest(numChanges, timespan, before, src);
  }
}
