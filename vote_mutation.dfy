/** `useVoteMutation(issueId)`: toggles the signed-in user's vote on an
    issue in the `votes` table and, on success, invalidates the cached vote
    queries of that issue. */
module VoteMutation {
  import opened Base
  import opened Tables
  import opened ServerToggle

  /** What `mutationFn` resolves to. */
  datatype VoteResult = VoteResult(voteType: VoteType, removed: bool)

  function Report(res: Result<Toggled, Failure>, voteType: VoteType): Result<VoteResult, Failure> {
    if res.Ok? then Ok(VoteResult(voteType, res.value.removed)) else Err(res.error)
  }

  /** `mutationFn`: look up the user's vote on the issue, delete it when it
      is the requested kind, upsert the requested kind otherwise. */
  method MutationFn(votes: Table, user: Option<string>, issueId: string, voteType: VoteType, f: Faults)
    returns (r: Result<VoteResult, Failure>)
    requires votes.Valid()
    modifies votes
    ensures votes.Valid()
    ensures var (res, rows) := UpsertToggle(old(votes.rows), user, issueId, voteType.Name(), f);
      votes.rows == rows && r == Report(res, voteType)
  {
    var res := ToggleByUpsert(votes, user, issueId, voteType.Name(), f);
    r := Report(res, voteType);
  }

  /** An unauthenticated call fails without touching the table, and a
      lookup error other than PGRST116 is passed on unchanged. */
  lemma EarlyFailures(rows: seq<Row>, user: Option<string>, issueId: string, voteType: VoteType, f: Faults)
    ensures user.None? ==> UpsertToggle(rows, user, issueId, voteType.Name(), f) == (Err(NotAuthenticated), rows)
    ensures user.Some? && f.lookup.Some? && f.lookup.value.code != NOT_SINGLE ==>
      UpsertToggle(rows, user, issueId, voteType.Name(), f) == (Err(Db(f.lookup.value)), rows)
  {
  }

  /** Without faults: the vote is removed exactly when the stored vote is
      the requested one, otherwise the requested vote is stored, and the
      user keeps at most one vote row on the issue. */
  lemma VoteEffect(rows: seq<Row>, u: string, issueId: string, voteType: VoteType)
    requires UniqueKeys(rows)
    ensures var (res, after) := UpsertToggle(rows, Some(u), issueId, voteType.Name(), NO_FAULTS);
      && res.Ok?
      && Report(res, voteType).value.removed == (Stored(rows, issueId, u) == Some(voteType.Name()))
      && Stored(after, issueId, u) == (if res.value.removed then None else Some(voteType.Name()))
      && UniqueKeys(after)
      && |Matches(after, issueId, u)| <= 1
  {
    UpsertToggleEffect(rows, u, issueId, voteType.Name(), issueId, u);
    TogglesKeepUnique(rows, Some(u), issueId, voteType.Name(), NO_FAULTS);
  }

  /** From no vote, voting the same way twice leaves no vote row: the table
      is exactly as before. */
  lemma VoteTwiceLeavesNoRow(rows: seq<Row>, u: string, issueId: string, voteType: VoteType)
    requires UniqueKeys(rows) && Stored(rows, issueId, u) == None
    ensures var once := UpsertToggle(rows, Some(u), issueId, voteType.Name(), NO_FAULTS).1;
      var twice := UpsertToggle(once, Some(u), issueId, voteType.Name(), NO_FAULTS).1;
      twice == rows && Stored(twice, issueId, u) == None
  {
    UpsertToggleTwice(rows, u, issueId, voteType.Name());
  }

  // -------------------------------------------------------- invalidation

  /** A cache key: the segments of a query key array. */
  type QueryKey = seq<string>

  /** The key of the vote query of an issue for a user (`useIssueVotesQuery`). */
  function IssueVotesKey(issueId: string, userId: string): QueryKey {
    ["issue-votes", issueId, userId]
  }

  /** `invalidateQueries({ queryKey: prefix })` marks every cached key that
      starts with the prefix. */
  function Invalidated(cached: set<QueryKey>, prefix: QueryKey): (r: set<QueryKey>)
    ensures r <= cached
    ensures forall k :: k in r <==> k in cached && |prefix| <= |k| && k[..|prefix|] == prefix
  {
    set k | k in cached && |prefix| <= |k| && k[..|prefix|] == prefix
  }

  /** `onSuccess`: the vote query of this issue is invalidated for every
      user, and no vote query of another issue is. */
  lemma OnSuccessInvalidatesThisIssue(cached: set<QueryKey>, issueId: string, otherIssue: string, userId: string)
    requires IssueVotesKey(issueId, userId) in cached
    requires otherIssue != issueId
    ensures IssueVotesKey(issueId, userId) in Invalidated(cached, ["issue-votes", issueId])
    ensures IssueVotesKey(otherIssue, userId) !in Invalidated(cached, ["issue-votes", issueId])
  {
    assert IssueVotesKey(issueId, userId)[..2] == ["issue-votes", issueId];
    assert IssueVotesKey(otherIssue, userId)[..2][1] == otherIssue;
  }
}
