# fourkeys data generator: changeset generation and linkage

This project is a Dafny model of the changeset generator in the fourkeys
data generator (`data-generator/generate_data.py`). The generator produces
fake push, deployment and issue webhook payloads. The model covers how those
payloads refer to each other:

- `make_changes` builds one changeset: generated commits, the head commit (the
  latest commit) and a "before" sha.
- `make_all_changesets` builds a list of changesets. Each changeset's "before"
  is the sha its predecessor resolves to: `checkout_sha or head_commit["id"]`.
- `make_ind_changes_from_changeset` splits a changeset into single-commit
  pushes. It leaves out the commit the changeset resolves to, and links the
  remaining pushes into a sub-chain that starts at the all-zero sha.
- `create_github_deploy_event` and `make_github_issue` build a deployment
  payload and an issue payload from one commit.

Randomness and the clock are inputs:

- `secrets.token_hex(20)` is a `Token`: a string of 40 lower-case hex digits.
- `time.time()` is an integer clock reading.
- `random.randrange(0, event_timespan)` is a supplied offset that must lie in
  `[0, event_timespan)`.
- The one `random.randrange(1, 5)` draw is a supplied count in `[1, 5)`.
- The `datetime.now()` readings of `make_github_issue` are the integer inputs
  `updatedAt` and `closedAt`.
- Timestamps are whole seconds, not `datetime` values.

Python exceptions are `Err` results of type `Types.Error`:

- `EmptyRange`: `randrange(0, t)` with `t <= 0`.
- `NoneHasNoGet`: `.get("id")` on a `head_commit` that is None.
- `NoneNotSubscriptable`: `None["timestamp"]`.

Python truthiness is modelled explicitly. A `before` of None or `""` draws a
fresh token. A `num_changes` of None or `0` is replaced by the drawn count.

Files:

- `types.dfy`: commits, changesets, errors, tokens and `ResolvedRef`.
- `changes.dfy`: `make_changes`.
- `chain.dfy`: `make_all_changesets`.
- `decompose.dfy`: `make_ind_changes_from_changeset`.
- `events.dfy`: the deployment and issue builders.
- `linkage.dfy`: lemmas that connect the pieces.

The three loops are `method`s with `while` loops. Each method is proved equal
to a specification function (`Changes`, `AllChangesets`, `IndChanges`), and the
lemmas state properties of those functions.

Behaviour of the code that the model keeps as written:

- Ties for the head commit: the comparison at line 56 is a strict `>`, so the
  first commit with the latest timestamp stays head.
- The commit count: when `num_changes` is unset, it is drawn once on the first
  iteration (lines 85-86) and reused for every later changeset.
- A changeset without a head: line 89 and line 107 call `.get("id")` on None,
  so both raise AttributeError.
- `make_ind_changes_from_changeset` dereferences the head before the `or` is
  evaluated (line 107). A changeset with no head therefore raises even when it
  has a checkout sha.

## Model

| member | source | states |
|---|---|---|
| `Types.ResolvedRef` | data-generator/generate_data.py:88-90 | Raises AttributeError exactly when the head is None. Otherwise it gives the checkout sha when that is non-empty, and the head commit's id when it is not. |
| `ChangesetGenerator.HeadIndex` | data-generator/generate_data.py:56-58 | The scan with strict `>` keeps no head exactly when every timestamp is at or below the starting `max_time`. Otherwise the head is a commit later than that value, no commit is later than it, and every earlier commit is strictly earlier. |
| `ChangesetGenerator.MakeChanges` | data-generator/generate_data.py:42-64 | The loop returns exactly the changeset `Changes` describes, or EmptyRange when a commit must be drawn with a non-positive timespan. |
| `ChangesetGenerator.ChangesShape` | data-generator/generate_data.py:42-62 | Unless it raises, the changeset has one commit per iteration, in generation order, each with its drawn id and timestamp. `before` is the given sha when non-empty, and the fresh token otherwise. There is no checkout sha. |
| `ChangesetGenerator.ChangesEmptyRange` | data-generator/generate_data.py:50 | A positive commit count with a non-positive timespan raises ValueError. |
| `ChangesetGenerator.HeadIsFirstLatest` | data-generator/generate_data.py:56-58 | The head commit is one of the commits, no commit has a later timestamp, and no earlier commit shares its timestamp. |
| `ChangesetGenerator.EmptyChangeset` | data-generator/generate_data.py:44-62 | With `num_changes <= 0`, the result has a head of None and no commits. |
| `ChangesetGenerator.HeadPresent` | data-generator/generate_data.py:43-58 | With a positive count, a positive timespan and a clock that does not run backwards, the changeset always has a head. |
| `ChangesetGenerator.GeneratedChangeset` | data-generator/generate_data.py:45-62 | A changeset `make_changes` returns holds the drawn commits and no checkout sha. Its `before` is the given sha when non-empty, and the fresh token otherwise. Its head, if any, has an id of the 40-hex-digit token shape. |
| `ChangesetGenerator.HeadIsToken` | data-generator/generate_data.py:49-58 | The head's id is the id of one of the drawn commits and has the 40-hex-digit token shape, so it is never empty. |
| `Chain.MakeAllChangesets` | data-generator/generate_data.py:82-93 | The loop, with its single count draw and the threaded `prev_change_sha`, returns exactly what `AllChangesets` describes, including the exception of the first failing iteration. |
| `Chain.RunErrSticky` | data-generator/generate_data.py:84-91 | Once an iteration raises, the whole call raises that same exception. |
| `Chain.RunLinked` | data-generator/generate_data.py:83-91 | After any run without an exception: there is one changeset per iteration, each built from its own draws, and none has a checkout sha. The first changeset's `before` is the seed token, each later `before` is the sha its predecessor resolves to, and `prev_change_sha` is always a token. |
| `Chain.ChainLinked` | data-generator/generate_data.py:87-90 | The output has `num_events` changesets. The first `before` is the initial token, and for every adjacent pair, `next.before` is what `prev` resolves to. |
| `Chain.CountDrawnOnce` | data-generator/generate_data.py:85-87 | Every changeset has the same commit count. When `num_changes` is unset, that count is the one value drawn from `[1, 5)`. |
| `Chain.RunSucceeds` | data-generator/generate_data.py:84-91 | With a positive count, a positive timespan and clocks that do not run backwards, no iteration raises. |
| `Chain.ChainSucceeds` | data-generator/generate_data.py:84-91 | With a positive timespan, an unset or positive `num_changes` and clocks that do not run backwards, `make_all_changesets` returns a list. |
| `Chain.NegativeCountRaises` | data-generator/generate_data.py:85-89 | A negative `num_changes` is truthy and is kept. It yields a changeset with a head of None, and line 89 raises AttributeError. |
| `Decompose.MakeIndChanges` | data-generator/generate_data.py:105-125 | The loop returns exactly what `IndChanges` describes: the sub-chain of the commits whose id differs from the changeset's resolved sha, or the exception raised when resolving that sha. |
| `Decompose.KeptIsFilter` | data-generator/generate_data.py:113-115 | The emitted commits are the commits at ascending positions, and a position is emitted exactly when its commit's id differs from the changeset sha. This makes the output an order-preserving filter. |
| `Decompose.SubChainLinked` | data-generator/generate_data.py:111-124 | Each record has its commit as `head_commit` and as its only commit. The first `before` is the 40-zero sha. Each later `before` is the previous record's head id, which is also the sha that record resolves to. |
| `Decompose.KeptLength` | data-generator/generate_data.py:113-124 | The number of records plus the number of commits that carry the changeset sha equals the number of commits. |
| `Decompose.HeadLeftOut` | data-generator/generate_data.py:106-124 | Take a changeset with no checkout sha, distinct commit ids, and a head among its commits. It yields one record per commit except the head, and no record repeats the head. |
| `Decompose.NoHeadRaises` | data-generator/generate_data.py:107 | A changeset without a head raises AttributeError, even when it has no commits. |
| `Events.CreateDeployEvent` | data-generator/generate_data.py:128-139 | For a commit, it returns a deployment whose sha is the commit id, whose state is "success", whose `updated_at` is the commit timestamp, and whose status id is the drawn token. For None it raises TypeError. |
| `Events.MakeIssue` | data-generator/generate_data.py:142-154 | For a commit, it returns an issue created at the commit's timestamp, with a number in `[0, 1000)`, the single label "Incident", and repository "foobar". For None it raises TypeError. |
| `Events.IssueNamesRoot` | data-generator/generate_data.py:150 | The issue body is "root cause: " followed by the commit id, and reading it back gives exactly that id. |
| `Linkage.ChainOfHeads` | data-generator/generate_data.py:87-90 | In a generated chain, every changeset has a head and no checkout sha, and each head's id is the next changeset's `before`. |
| `Linkage.DeployMarksNextBefore` | data-generator/generate_data.py:128-139 | The deployment built for a chained changeset's head deploys the sha that the next changeset names as its `before`. |
| `Linkage.ChainDecomposes` | data-generator/generate_data.py:106-115 | Every changeset of a generated chain can be decomposed, and none of its individual changes repeats its head. |
| `Linkage.GeneratedDecomposes` | data-generator/generate_data.py:106-124 | A generated changeset yields `num_changes - 1` individual changes. This needs a positive count, a positive timespan, a clock that does not run backwards, and distinct ids. |
| `Linkage.IssueAtLatestCommit` | data-generator/generate_data.py:145 | An issue built from a changeset's head is created at one of the changeset's commit times, and no commit of the changeset is later. |

## Left out

- `make_webhook_request` and `post_to_webhook` (lines 157-183) are not modelled. They do JSON serialisation, HMAC-SHA1 signing and an HTTP request through library calls.
- The `__main__` driver (lines 186-259) is not modelled. It covers argument parsing, environment variables, `sys.exit`, the coin flip of `random.choice`, the sampling of `random.sample`, and posting. Its loop at line 231 unpacks each changeset dictionary into two names, so the driver would fail as written.
- `noxfile.py` is not modelled. It is test-runner and lint configuration.
- `data-generator/generate_data_test.py` is not modelled. Its linkage assertions (lines 145-166) are stated as `Chain.ChainLinked` and `Decompose.SubChainLinked`.
- Randomness and the clock are inputs, not sources. `time.time()` floats become integer seconds. The `datetime` values themselves and the `datetime.fromtimestamp` conversion are not modelled; the `datetime.now()` readings are the integer inputs `updatedAt` and `closedAt`.
- `Types.Token` models only the shape of `secrets.token_hex(20)`, not its randomness. Distinct commit ids are assumed by `Linkage.GeneratedDecomposes` and are not guaranteed.
- A dictionary without a `head_commit` key, or with extra keys, cannot be expressed. `.get("head_commit", {})` returning `{}` is therefore not modelled. Every changeset built here has the key.
