/** `make_ind_changes_from_changeset` (data-generator/generate_data.py:96-125):
    one single-commit push per commit of a changeset other than the one the
    changeset resolves to, chained among themselves from the zero sha. */
module Decompose {
  import opened Types

  /** The commits the loop of lines 113-124 emits: those whose id differs
      from `sha`, in their original order. */
  function Kept(commits: seq<Commit>, sha: string): seq<Commit>
    decreases |commits|
  {
    if commits == [] then []
    else
      var last := commits[|commits| - 1];
      Kept(commits[..|commits| - 1], sha) + (if last.id != sha then [last] else [])
  }

  /** The positions of the kept commits in `commits`, ascending. */
  function KeptIndices(commits: seq<Commit>, sha: string): seq<nat>
    decreases |commits|
  {
    if commits == [] then []
    else
      var k := |commits| - 1;
      KeptIndices(commits[..k], sha) + (if commits[k].id != sha then [k] else [])
  }

  /** The records built at lines 116-120 for the kept commits: each has the
      commit as head and only commit, and its "before" is the previous kept
      commit's id, or the zero sha for the first. */
  function SubChain(kept: seq<Commit>): seq<Changeset> {
    seq(|kept|, i requires 0 <= i < |kept| =>
      Changeset(Some(kept[i]), if i == 0 then ZeroSha else kept[i - 1].id, [kept[i]], None))
  }

  /** What `make_ind_changes_from_changeset(changeset)` returns, or the
      AttributeError line 107 raises for a changeset without a head. */
  function IndChanges(cs: Changeset): Result<seq<Changeset>, Error> {
    match ResolvedRef(cs)
    case Err(e) => Err(e)
    case Ok(sha) => Ok(SubChain(Kept(cs.commits, sha)))
  }

  lemma KeptSnoc(commits: seq<Commit>, i: nat, sha: string)
    requires i < |commits|
    ensures Kept(commits[..i + 1], sha) == Kept(commits[..i], sha) + (if commits[i].id != sha then [commits[i]] else [])
  {
    assert commits[..i + 1][..i] == commits[..i];
  }

  lemma SubChainSnoc(kept: seq<Commit>, c: Commit)
    ensures SubChain(kept + [c])
      == SubChain(kept) + [Changeset(Some(c), if kept == [] then ZeroSha else kept[|kept| - 1].id, [c], None)]
  {
    var l := SubChain(kept + [c]);
    var r := SubChain(kept) + [Changeset(Some(c), if kept == [] then ZeroSha else kept[|kept| - 1].id, [c], None)];
    assert |l| == |r|;
    forall i | 0 <= i < |l| ensures l[i] == r[i] {
      if i < |kept| {
        assert (kept + [c])[i] == kept[i];
        if i > 0 {
          assert (kept + [c])[i - 1] == kept[i - 1];
        }
      }
    }
  }

  /** The loop of lines 105-125, step by step. */
  method MakeIndChanges(cs: Changeset) returns (r: Result<seq<Changeset>, Error>)
    ensures r == IndChanges(cs)
  {
    var resolved := ResolvedRef(cs);
    if resolved.Err? {
      return Err(resolved.error);
    }
    var changesetSha := resolved.value;
    var indChanges: seq<Changeset> := [];
    var prevChangeSha: string := ZeroSha;
    ghost var kept: seq<Commit> := [];
    var i := 0;
    while i < |cs.commits|
      invariant 0 <= i <= |cs.commits|
      invariant kept == Kept(cs.commits[..i], changesetSha)
      invariant indChanges == SubChain(kept)
      invariant prevChangeSha == if kept == [] then ZeroSha else kept[|kept| - 1].id
    {
      var c := cs.commits[i];
      KeptSnoc(cs.commits, i, changesetSha);
      if c.id != changesetSha {
        var currChange := Changeset(Some(c), prevChangeSha, [c], None);
        SubChainSnoc(kept, c);
        prevChangeSha := c.id;
        indChanges := indChanges + [currChange];
        kept := kept + [c];
      }
      i := i + 1;
    }
    assert cs.commits[..i] == cs.commits;
    r := Ok(indChanges);
  }

  lemma {:induction false} KeptAtIndices(commits: seq<Commit>, sha: string)
    ensures var kept := Kept(commits, sha);
      var idx := KeptIndices(commits, sha);
      && |kept| == |idx|
      && (forall j :: 0 <= j < |idx| ==> idx[j] < |commits| && kept[j] == commits[idx[j]])
    decreases |commits|
  {
    if commits != [] {
      var k := |commits| - 1;
      var init := commits[..k];
      KeptAtIndices(init, sha);
      var idx0 := KeptIndices(init, sha);
      forall j | 0 <= j < |idx0|
        ensures commits[idx0[j]] == init[idx0[j]]
      {
      }
    }
  }

  lemma {:induction false} KeptIndicesAscend(commits: seq<Commit>, sha: string)
    ensures forall j :: 0 <= j < |KeptIndices(commits, sha)| ==> KeptIndices(commits, sha)[j] < |commits|
    ensures forall j, j' :: 0 <= j < j' < |KeptIndices(commits, sha)| ==>
      KeptIndices(commits, sha)[j] < KeptIndices(commits, sha)[j']
    decreases |commits|
  {
    if commits != [] {
      var k := |commits| - 1;
      KeptIndicesAscend(commits[..k], sha);
      var idx0 := KeptIndices(commits[..k], sha);
      var tail: seq<nat> := if commits[k].id != sha then [k] else [];
      var idx := KeptIndices(commits, sha);
      assert idx == idx0 + tail;
      assert forall j :: 0 <= j < |idx0| ==> idx[j] == idx0[j];
    }
  }

  lemma {:induction false} KeptIndicesExact(commits: seq<Commit>, sha: string)
    ensures var idx := KeptIndices(commits, sha);
      forall k :: 0 <= k < |commits| ==> (k in idx <==> commits[k].id != sha)
    decreases |commits|
  {
    if commits != [] {
      var k := |commits| - 1;
      var init := commits[..k];
      KeptIndicesExact(init, sha);
      KeptIndicesAscend(init, sha);
      var idx0 := KeptIndices(init, sha);
      var tail: seq<nat> := if commits[k].id != sha then [k] else [];
      assert forall j :: 0 <= j < |idx0| ==> idx0[j] < |commits[..k]|;
      var idx := KeptIndices(commits, sha);
      assert idx == idx0 + tail;
      forall m | 0 <= m < |commits|
        ensures m in idx <==> commits[m].id != sha
      {
        assert m in idx <==> m in idx0 || m in tail;
        if m < k {
          assert commits[m] == init[m];
        } else {
          assert m !in idx0;
        }
      }
    }
  }

  /** The kept commits are exactly the commits at the kept positions, those
      positions ascend, and a position is kept exactly when its commit's id
      differs from `sha`: an order-preserving filter. */
  lemma KeptIsFilter(commits: seq<Commit>, sha: string)
    ensures var kept := Kept(commits, sha);
      var idx := KeptIndices(commits, sha);
      && |kept| == |idx|
      && (forall j :: 0 <= j < |idx| ==> idx[j] < |commits| && kept[j] == commits[idx[j]])
      && (forall j, j' :: 0 <= j < j' < |idx| ==> idx[j] < idx[j'])
      && (forall k :: 0 <= k < |commits| ==> (k in idx <==> commits[k].id != sha))
  {
    KeptAtIndices(commits, sha);
    KeptIndicesAscend(commits, sha);
    KeptIndicesExact(commits, sha);
  }

  /** Each record has its commit as head and sole commit, the first is
      chained to the zero sha and each later one to its predecessor's head,
      which is also the sha its predecessor resolves to. */
  lemma SubChainLinked(kept: seq<Commit>)
    ensures var r := SubChain(kept);
      && |r| == |kept|
      && (forall i :: 0 <= i < |r| ==> r[i].headCommit == Some(kept[i]) && r[i].commits == [kept[i]])
      && (|r| > 0 ==> r[0].before == ZeroSha)
      && (forall i :: 0 <= i < |r| - 1 ==> r[i + 1].before == r[i].headCommit.value.id)
      && (forall i :: 0 <= i < |r| - 1 ==> ResolvedRef(r[i]) == Ok(r[i + 1].before))
  {
  }

  /** How many commits of `commits` have id `sha`. */
  function CountId(commits: seq<Commit>, sha: string): nat
    decreases |commits|
  {
    if commits == [] then 0
    else CountId(commits[..|commits| - 1], sha) + (if commits[|commits| - 1].id == sha then 1 else 0)
  }

  lemma {:induction false} KeptLength(commits: seq<Commit>, sha: string)
    ensures |Kept(commits, sha)| + CountId(commits, sha) == |commits|
    decreases |commits|
  {
    if commits != [] {
      KeptLength(commits[..|commits| - 1], sha);
    }
  }

  predicate DistinctIds(commits: seq<Commit>) {
    forall i, j :: 0 <= i < j < |commits| ==> commits[i].id != commits[j].id
  }

  /** An id that occurs at position `k` of commits with distinct ids occurs once. */
  lemma {:induction false} CountIdOnce(commits: seq<Commit>, k: nat)
    requires k < |commits| && DistinctIds(commits)
    ensures CountId(commits, commits[k].id) == 1
    decreases |commits|
  {
    var n := |commits| - 1;
    var init := commits[..n];
    if k < n {
      assert init[k] == commits[k];
      CountIdOnce(init, k);
    } else {
      CountIdAbsent(init, commits[k].id);
    }
  }

  lemma {:induction false} CountIdAbsent(commits: seq<Commit>, sha: string)
    requires forall i :: 0 <= i < |commits| ==> commits[i].id != sha
    ensures CountId(commits, sha) == 0
    decreases |commits|
  {
    if commits != [] {
      CountIdAbsent(commits[..|commits| - 1], sha);
    }
  }

  /** For a changeset whose commits have distinct ids and whose head is one
      of them, with no checkout sha, exactly the head is left out: one
      individual change per other commit. */
  lemma HeadLeftOut(cs: Changeset)
    requires cs.headCommit.Some? && !Truthy(cs.checkoutSha)
    requires cs.headCommit.value in cs.commits && DistinctIds(cs.commits)
    ensures IndChanges(cs).Ok?
    ensures |IndChanges(cs).value| == |cs.commits| - 1
    ensures forall i :: 0 <= i < |IndChanges(cs).value| ==>
      IndChanges(cs).value[i].headCommit.value.id != cs.headCommit.value.id
  {
    var sha := cs.headCommit.value.id;
    var k :| 0 <= k < |cs.commits| && cs.commits[k] == cs.headCommit.value;
    CountIdOnce(cs.commits, k);
    KeptLength(cs.commits, sha);
    KeptIsFilter(cs.commits, sha);
    var idx := KeptIndices(cs.commits, sha);
    assert forall j :: 0 <= j < |idx| ==> idx[j] in idx;
  }

  /** A changeset without a head cannot be decomposed, even with no commits. */
  lemma NoHeadRaises(cs: Changeset)
    requires cs.headCommit.None?
    ensures IndChanges(cs) == Err(NoneHasNoGet)
  {
  }
}
