/** Values shared by the generators of data-generator/generate_data.py:
    commits, changesets (push payloads), the Python exceptions the core can
    raise, and the "resolved reference" rule that links changesets. */
module Types {

  datatype Option<+T> = None | Some(value: T)

  datatype Result<+T, +E> = Ok(value: T) | Err(error: E)

  /** The exceptions the core raises instead of returning. */
  datatype Error =
    | EmptyRange            // ValueError: random.randrange(0, t) with t <= 0
    | NoneHasNoGet          // AttributeError: .get("id") on a head_commit of None
    | NoneNotSubscriptable  // TypeError: change["timestamp"] on a commit of None

  predicate IsHexDigit(c: char) {
    '0' <= c <= '9' || 'a' <= c <= 'f'
  }

  /** What secrets.token_hex(20) returns: 40 lower-case hex digits. */
  predicate IsToken(s: string) {
    |s| == 40 && forall i :: 0 <= i < |s| ==> IsHexDigit(s[i])
  }

  type Token = s: string | IsToken(s) witness "0000000000000000000000000000000000000000"

  /** The sha git uses for "no prior commit". */
  const ZeroSha: Token := "0000000000000000000000000000000000000000"

  /** Python truthiness of an optional string: None and "" are false. */
  predicate Truthy(s: Option<string>) {
    s.Some? && s.value != ""
  }

  /** A commit: `{"id": ..., "timestamp": ...}`, the timestamp in whole seconds. */
  datatype Commit = Commit(id: string, timestamp: int)

  /** A push payload `{"head_commit", "before", "commits"}`; `checkoutSha` is the
      optional "checkout_sha" key, None when the dictionary has no such key. */
  datatype Changeset = Changeset(
    headCommit: Option<Commit>,
    before: string,
    commits: seq<Commit>,
    checkoutSha: Option<string>)

  /** `checkout_sha or head_commit.get("id")`: the sha a changeset is known by.
      The head is dereferenced before the `or`, so a changeset without a head
      raises even when it carries a checkout sha. */
  function ResolvedRef(cs: Changeset): (r: Result<string, Error>)
    ensures r.Err? <==> cs.headCommit.None?
    ensures r.Err? ==> r.error == NoneHasNoGet
    ensures r.Ok? && Truthy(cs.checkoutSha) ==> r.value == cs.checkoutSha.value
    ensures r.Ok? && !Truthy(cs.checkoutSha) ==> r.value == cs.headCommit.value.id
  {
    match cs.headCommit
    case None => Err(NoneHasNoGet)
    case Some(head) => Ok(if Truthy(cs.checkoutSha) then cs.checkoutSha.value else head.id)
  }

  /** `len(range(n))`: how many times `for _ in range(n)` runs. */
  function Iterations(n: int): nat {
    if n < 0 then 0 else n
  }
}
