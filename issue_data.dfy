/** `useIssueData(issueId)` and `useIssueDataWithRepo(issueId, owner,
    repo)`: the issue page's state. The issue is looked up as the issue
    query does, but every failure leaves no issue instead of throwing;
    the votes are read only for a signed-in user, and the voting buttons
    overwrite them through `updateVote`. */
module IssueData {
  import opened Base
  import opened Strings
  import opened Tables
  import opened IssueQuery
  import opened IssueVotesQuery

  /** The issue the hooks end with: the one the issue query returns, and
      none where the query would throw. */
  function Located(issueId: string, owner: Option<string>, repo: Option<string>,
                   repos: seq<RepoRecord>, repoReadFails: bool,
                   issues: seq<IssueRecord>, fault: Option<DbError>): (r: Option<IssueRecord>)
    ensures r.Some? ==> r.value in issues
  {
    match QueryFn(issueId, owner, repo, repos, repoReadFails, issues, fault)
    case Ok(found) => found
    case Err(_) => None
  }

  /** The hook without repository information routes as the query does
      when neither an owner nor a repository is given. */
  function LocatedByIdOrNumber(issueId: string, issues: seq<IssueRecord>, fault: Option<DbError>): (r: Option<IssueRecord>)
    ensures r.Some? ==> r.value in issues && (if IsUuid(issueId) then r.value.id == issueId else ParseInt(issueId) == Some(r.value.number))
    ensures r == Located(issueId, None, None, [], false, issues, fault)
  {
    var l := if IsUuid(issueId) then ById(issueId) else ByNumber(ParseInt(issueId));
    match Select(issues, l, fault)
    case Ok(found) => found
    case Err(_) => None
  }

  class IssueDataState {
    var issue: Option<IssueRecord>
    var loading: bool
    var voteCount: int
    var userVote: Option<VoteType>

    constructor ()
      ensures issue == None && loading && voteCount == 0 && userVote == None
    {
      issue := None;
      loading := true;
      voteCount := 0;
      userVote := None;
    }

    /** `loadIssue`: the issue found by UUID or by number, none on a read
      error or no match; for a signed-in user the votes of the found issue
      are read as the vote query reads them (`votes` is `None` when that
      read returns no data); otherwise the votes shown stay. */
    method LoadIssue(issueId: string, user: Option<string>, issues: seq<IssueRecord>, fault: Option<DbError>, votes: Option<seq<Row>>)
      modifies this
      ensures !loading
      ensures issue == LocatedByIdOrNumber(issueId, issues, fault)
      ensures issue.Some? && user.Some? && issue.value.id != "" ==>
        IssueVotes(voteCount, userVote) == VotesOfIssue(votes, Some(issue.value.id), user)
      ensures !(issue.Some? && user.Some? && issue.value.id != "") ==>
        voteCount == old(voteCount) && userVote == old(userVote)
    {
      loading := true;
      var l := if IsUuid(issueId) then ById(issueId) else ByNumber(ParseInt(issueId));
      var found := Select(issues, l, fault);
      if found.Err? || found.value.None? {
        issue := None;
        loading := false;
        return;
      }
      issue := found.value;
      var id := found.value.value.id;
      if user.Some? && id != "" {
        var v := VotesOfIssue(votes, Some(id), user);
        voteCount := v.voteCount;
        userVote := v.userVote;
      }
      loading := false;
    }

    /** `updateVote`: the voting buttons' report replaces the votes shown. */
    method UpdateVote(newCount: int, newVote: Option<VoteType>)
      modifies this
      ensures voteCount == newCount && userVote == newVote
      ensures issue == old(issue) && loading == old(loading)
    {
      voteCount := newCount;
      userVote := newVote;
    }
  }

  class IssueDataWithRepoState {
    var issue: Option<IssueRecord>
    var loading: bool
    var voteCount: int
    var userVote: Option<VoteType>

    constructor ()
      ensures issue == None && loading && voteCount == 0 && userVote == None
    {
      issue := None;
      loading := true;
      voteCount := 0;
      userVote := None;
    }

    /** `loadIssue`: routed as the issue query routes, with a repository
      that cannot be resolved leaving no issue; then as `useIssueData`. */
    method LoadIssue(issueId: string, owner: Option<string>, repo: Option<string>,
                     repos: seq<RepoRecord>, repoReadFails: bool, user: Option<string>,
                     issues: seq<IssueRecord>, fault: Option<DbError>, votes: Option<seq<Row>>)
      modifies this
      ensures !loading
      ensures issue == Located(issueId, owner, repo, repos, repoReadFails, issues, fault)
      ensures issue.Some? && user.Some? && issue.value.id != "" ==>
        IssueVotes(voteCount, userVote) == VotesOfIssue(votes, Some(issue.value.id), user)
      ensures !(issue.Some? && user.Some? && issue.value.id != "") ==>
        voteCount == old(voteCount) && userVote == old(userVote)
    {
      loading := true;
      var route := Route(issueId, owner, repo, repos, repoReadFails);
      if route.Err? {
        issue := None;
        loading := false;
        return;
      }
      var found := Select(issues, route.value, fault);
      if found.Err? || found.value.None? {
        issue := None;
        loading := false;
        return;
      }
      issue := found.value;
      ShowVotes(user, found.value.value.id, votes);
      loading := false;
    }

    /** The votes of the found issue, read for a signed-in user when the
        issue has an id. */
    method ShowVotes(user: Option<string>, id: string, votes: Option<seq<Row>>)
      modifies this
      ensures user.Some? && id != "" ==> IssueVotes(voteCount, userVote) == VotesOfIssue(votes, Some(id), user)
      ensures !(user.Some? && id != "") ==> voteCount == old(voteCount) && userVote == old(userVote)
      ensures issue == old(issue) && loading == old(loading)
    {
      if user.Some? && id != "" {
        var v := VotesOfIssue(votes, Some(id), user);
        voteCount := v.voteCount;
        userVote := v.userVote;
      }
    }

    method UpdateVote(newCount: int, newVote: Option<VoteType>)
      modifies this
      ensures voteCount == newCount && userVote == newVote
      ensures issue == old(issue) && loading == old(loading)
    {
      voteCount := newCount;
      userVote := newVote;
    }
  }
}
