/** `create_github_deploy_event` and `make_github_issue`
    (data-generator/generate_data.py:128-154): the deployment and issue
    payloads derived from one commit. The token and the clock readings they
    draw are inputs. */
module Events {
  import opened Types

  datatype DeploymentStatus = DeploymentStatus(updatedAt: int, id: string, state: string)
  datatype Deployment = Deployment(sha: string)
  datatype DeployEvent = DeployEvent(deploymentStatus: DeploymentStatus, deployment: Deployment)

  datatype Label = Label(name: string)
  datatype Issue = Issue(
    createdAt: int,
    updatedAt: int,
    closedAt: int,
    number: int,
    labels: seq<Label>,
    body: string)
  datatype Repository = Repository(name: string)
  datatype IssueEvent = IssueEvent(issue: Issue, repository: Repository)

  const RootCausePrefix := "root cause: "

  /** `create_github_deploy_event(change)`, with `id` the token it draws;
      subscripting a change of None raises a TypeError. */
  function CreateDeployEvent(change: Option<Commit>, id: Token): (r: Result<DeployEvent, Error>)
    ensures r.Err? <==> change.None?
    ensures r.Err? ==> r.error == NoneNotSubscriptable
    ensures r.Ok? ==>
      && r.value.deployment.sha == change.value.id
      && r.value.deploymentStatus.state == "success"
      && r.value.deploymentStatus.updatedAt == change.value.timestamp
      && r.value.deploymentStatus.id == id
  {
    match change
    case None => Err(NoneNotSubscriptable)
    case Some(c) => Ok(DeployEvent(DeploymentStatus(c.timestamp, id, "success"), Deployment(c.id)))
  }

  /** `make_github_issue(root_cause)`, with the two `datetime.now()` readings
      and the `random.randrange(0, 1000)` number as inputs; subscripting a
      root cause of None raises a TypeError. */
  function MakeIssue(rootCause: Option<Commit>, updatedAt: int, closedAt: int, number: int): (r: Result<IssueEvent, Error>)
    requires 0 <= number < 1000
    ensures r.Err? <==> rootCause.None?
    ensures r.Err? ==> r.error == NoneNotSubscriptable
    ensures r.Ok? ==>
      && r.value.issue.createdAt == rootCause.value.timestamp
      && 0 <= r.value.issue.number < 1000
      && r.value.issue.labels == [Label("Incident")]
      && r.value.repository.name == "foobar"
  {
    match rootCause
    case None => Err(NoneNotSubscriptable)
    case Some(c) =>
      Ok(IssueEvent(
        Issue(c.timestamp, updatedAt, closedAt, number, [Label("Incident")], RootCausePrefix + c.id),
        Repository("foobar")))
  }

  /** The commit id an issue body names, if it has the "root cause: " form. */
  function RootCauseId(body: string): Option<string> {
    if |RootCausePrefix| <= |body| && body[..|RootCausePrefix|] == RootCausePrefix
    then Some(body[|RootCausePrefix|..])
    else None
  }

  /** The body of an issue names its root-cause commit, and reading it back
      gives exactly that commit's id. */
  lemma IssueNamesRoot(root: Commit, updatedAt: int, closedAt: int, number: int)
    requires 0 <= number < 1000
    ensures MakeIssue(Some(root), updatedAt, closedAt, number).Ok?
    ensures RootCauseId(MakeIssue(Some(root), updatedAt, closedAt, number).value.issue.body) == Some(root.id)
  {
    var body := RootCausePrefix + root.id;
    assert body[..|RootCausePrefix|] == RootCausePrefix;
    assert body[|RootCausePrefix|..] == root.id;
  }
}
