/** `useIssueVotesQuery(issueId)`: the score of an issue (up votes minus
    down votes) and the signed-in user's vote, read from `votes`. */
module IssueVotesQuery {
  import opened Base
  import opened Tables
  import opened Counts

  /** What the query resolves to. */
  datatype IssueVotes = IssueVotes(voteCount: int, userVote: Option<VoteType>)

  const NO_ISSUE_VOTES: IssueVotes := IssueVotes(0, None)

  /** `enabled: !!issueId && !!user`. */
  predicate Enabled(issueId: Option<string>, user: Option<string>) {
    Truthy(issueId) && user.Some?
  }

  /** `queryFn`: without an issue id, or when the read returns no data, the
      empty result; otherwise the rows of the issue are counted by kind, and
      the user's first row gives their vote when its kind is "up" or
      "down". `table` is `None` when the read returns no data. */
  function VotesOfIssue(table: Option<seq<Row>>, issueId: Option<string>, user: Option<string>): (r: IssueVotes)
    ensures !Truthy(issueId) || table.None? ==> r == NO_ISSUE_VOTES
    ensures r.userVote.Some? ==>
      user.Some? && Truthy(issueId) && table.Some? && Stored(table.value, issueId.value, user.value) == Some(r.userVote.value.Name())
    ensures Truthy(issueId) && table.Some? && user.Some? && Stored(table.value, issueId.value, user.value) in {Some("up"), Some("down")}
      ==> r.userVote.Some?
  {
    if !Truthy(issueId) || table.None? then NO_ISSUE_VOTES
    else
      var rows, t := table.value, issueId.value;
      IssueVotes(CountKind(rows, t, "up") - CountKind(rows, t, "down"),
                 if user.Some? then UserVoteOf(Stored(rows, t, user.value)) else None)
  }

  /** On an issue whose rows are all "up" or "down" and that keeps one row
      per user, the query gives the score of the tally of the rows and the
      kind of the user's row. */
  lemma VotesOfIssueIsTally(rows: seq<Row>, t: string, u: string)
    requires t != "" && UniqueKeys(rows) && KindsOn(rows, t, {"up", "down"})
    ensures var r := VotesOfIssue(Some(rows), Some(t), Some(u));
      var v := VoteTally(rows, t, u);
      r.voteCount == v.Score() && r.userVote == v.userVote
  {
    CountOnUpDown(rows, t);
    LastKindIsStored(rows, t, u);
  }
}
