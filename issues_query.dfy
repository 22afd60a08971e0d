/** `useIssuesQuery(sortBy, filter, searchQuery)`: the signed-in user's
    issues, newest first, narrowed by state and by a search text, at most
    50 of them, each with its vote score and the user's vote, then sorted
    by the chosen key. */
module IssuesQuery {
  import opened Base
  import opened Strings
  import opened Lists
  import opened Tables
  import opened Counts
  import opened Sorting
  import IssueVotesQuery
  import ServerToggle

  /** A row of `issues`; `createdAt` is `github_created_at` as a time
      value. */
  datatype Issue = Issue(id: string, userId: string, state: string, title: string, body: Option<string>,
                         createdAt: int, commentsCount: Option<int>)

  /** An issue with `votes_count` and `user_vote`. */
  datatype ListedIssue = ListedIssue(issue: Issue, votesCount: int, userVote: Option<string>)

  const LIMIT: nat := 50

  /** `.eq('state', ...)` for the "open" and "closed" filters; any other
      filter keeps every state. */
  predicate StateMatches(filter: string, i: Issue) {
    (filter == "open" ==> i.state == "open") && (filter == "closed" ==> i.state == "closed")
  }

  /** `title.ilike.%q%` or `body.ilike.%q%`, as a case-insensitive
      substring test; an empty search keeps everything. */
  predicate SearchMatches(q: string, i: Issue) {
    q == "" || Contains(Lower(i.title), Lower(q)) || (i.body.Some? && Contains(Lower(i.body.value), Lower(q)))
  }

  predicate Wanted(u: string, filter: string, q: string, i: Issue) {
    i.userId == u && StateMatches(filter, i) && SearchMatches(q, i)
  }

  function CreatedKey(i: Issue): int {
    i.createdAt
  }

  /** The rows the issues query returns: the user's issues that pass the
      filters, newest first, at most 50. */
  function Selected(issues: seq<Issue>, u: string, filter: string, q: string): (r: seq<Issue>)
    ensures |r| <= LIMIT
    ensures forall k :: 0 <= k < |r| ==> r[k] in issues && Wanted(u, filter, q, r[k])
    ensures SortedDesc(r, CreatedKey)
    ensures |Filter(issues, i => Wanted(u, filter, q, i))| <= LIMIT ==>
      multiset(r) == multiset(Filter(issues, i => Wanted(u, filter, q, i)))
    ensures |Filter(issues, i => Wanted(u, filter, q, i))| > LIMIT ==> |r| == LIMIT
    ensures multiset(r) <= multiset(Filter(issues, i => Wanted(u, filter, q, i)))
  {
    var wanted := Filter(issues, i => Wanted(u, filter, q, i));
    var sorted := SortDesc(wanted, CreatedKey);
    var r := Take(sorted, LIMIT);
    forall k | 0 <= k < |r| ensures r[k] in issues && Wanted(u, filter, q, r[k]) {
      assert r[k] == sorted[k];
      SortDescMembership(wanted, CreatedKey, r[k]);
      var j :| 0 <= j < |wanted| && wanted[j] == r[k];
      FilterMembership(issues, i => Wanted(u, filter, q, i), r[k]);
    }
    r
  }

  /** The 50 kept are the newest: a wanted issue left out is no newer than
      any issue kept. */
  lemma SelectedAreNewest(issues: seq<Issue>, u: string, filter: string, q: string, y: Issue)
    requires y in issues && Wanted(u, filter, q, y)
    requires y !in Selected(issues, u, filter, q)
    ensures forall k :: 0 <= k < |Selected(issues, u, filter, q)| ==> Selected(issues, u, filter, q)[k].createdAt >= y.createdAt
  {
    var wanted := Filter(issues, i => Wanted(u, filter, q, i));
    var sorted := SortDesc(wanted, CreatedKey);
    var sel := Selected(issues, u, filter, q);
    FilterMembership(issues, i => Wanted(u, filter, q, i), y);
    SortDescMembership(wanted, CreatedKey, y);
    var j :| 0 <= j < |sorted| && sorted[j] == y;
    assert sel == Take(sorted, LIMIT);
    assert j >= |sel|;
    forall k | 0 <= k < |sel| ensures sel[k].createdAt >= y.createdAt {
      assert sel[k] == sorted[k];
      assert CreatedKey(sorted[k]) >= CreatedKey(sorted[j]);
    }
  }

  /** The vote fields of one issue: without vote data the score is 0 and
      there is no vote; otherwise up minus down, and the kind of the
      user's first row, an empty kind reading as none. */
  function WithVotes(i: Issue, votes: seq<Row>, noData: bool, u: string): (r: ListedIssue)
    ensures r.issue == i
    ensures noData ==> r.votesCount == 0 && r.userVote == None
    ensures r.userVote.Some? ==> r.userVote == Stored(votes, i.id, u) && r.userVote.value != ""
  {
    if noData then ListedIssue(i, 0, None)
    else
      var stored := Stored(votes, i.id, u);
      ListedIssue(i, CountKind(votes, i.id, "up") - CountKind(votes, i.id, "down"),
                  if Truthy(stored) then stored else None)
  }

  function AllWithVotes(issues: seq<Issue>, votes: seq<Row>, noData: set<string>, u: string): (r: seq<ListedIssue>)
    ensures |r| == |issues|
    ensures forall k :: 0 <= k < |r| ==> r[k] == WithVotes(issues[k], votes, issues[k].id in noData, u)
  {
    if issues == [] then []
    else [WithVotes(issues[0], votes, issues[0].id in noData, u)] + AllWithVotes(issues[1..], votes, noData, u)
  }

  function VotesKey(l: ListedIssue): int {
    l.votesCount
  }

  function RecentKey(l: ListedIssue): int {
    l.issue.createdAt
  }

  /** `comments_count || 0`. */
  function CommentsKey(l: ListedIssue): int {
    if l.issue.commentsCount.Some? then l.issue.commentsCount.value else 0
  }

  /** The sort the `sortBy` value names; any other value keeps the order
      of the query. */
  function SortListed(xs: seq<ListedIssue>, sortBy: string): (r: seq<ListedIssue>)
    ensures multiset(r) == multiset(xs)
    ensures sortBy == "votes" ==> SortedDesc(r, VotesKey)
    ensures sortBy == "recent" ==> SortedDesc(r, RecentKey)
    ensures sortBy == "comments" ==> SortedDesc(r, CommentsKey)
    ensures sortBy !in {"votes", "recent", "comments"} ==> r == xs
  {
    if sortBy == "votes" then SortDesc(xs, VotesKey)
    else if sortBy == "recent" then SortDesc(xs, RecentKey)
    else if sortBy == "comments" then SortDesc(xs, CommentsKey)
    else xs
  }

  /** `queryFn`: no user gives the empty list; an error of the issues
      read is thrown; otherwise the selected issues with their votes,
      sorted. `readError` is the error of the issues read, `noData` the
      issues whose vote read returns no data. */
  function IssuesOf(issues: seq<Issue>, readError: Option<DbError>, votes: seq<Row>, noData: set<string>,
                    user: Option<string>, sortBy: string, filter: string, q: string): (r: Result<seq<ListedIssue>, DbError>)
  {
    if user.None? then Ok([])
    else if readError.Some? then Err(readError.value)
    else Ok(SortListed(AllWithVotes(Selected(issues, user.value, filter, q), votes, noData, user.value), sortBy))
  }

  /** `enabled: !!user`. */
  predicate Enabled(user: Option<string>) {
    user.Some?
  }

  /** What the list shows: at most 50 issues, each the user's own and
      passing the filters, in the chosen order, holding exactly the
      selected issues. */
  lemma IssuesOfShape(issues: seq<Issue>, votes: seq<Row>, noData: set<string>, u: string, sortBy: string, filter: string, q: string)
    ensures var r := IssuesOf(issues, None, votes, noData, Some(u), sortBy, filter, q);
      var sel := Selected(issues, u, filter, q);
      && r.Ok?
      && |r.value| <= LIMIT
      && (forall l :: l in r.value ==> l.issue in issues && Wanted(u, filter, q, l.issue))
      && (forall i :: i in sel ==> exists l :: l in r.value && l.issue == i)
      && (sortBy == "votes" ==> SortedDesc(r.value, VotesKey))
      && (sortBy == "recent" ==> SortedDesc(r.value, RecentKey))
      && (sortBy == "comments" ==> SortedDesc(r.value, CommentsKey))
  {
    var sel := Selected(issues, u, filter, q);
    var withVotes := AllWithVotes(sel, votes, noData, u);
    var r := SortListed(withVotes, sortBy);
    forall l | l in r ensures l.issue in issues && Wanted(u, filter, q, l.issue) {
      assert l in multiset(withVotes);
      var k :| 0 <= k < |withVotes| && withVotes[k] == l;
    }
    forall i | i in sel ensures exists l :: l in r && l.issue == i {
      var k :| 0 <= k < |sel| && sel[k] == i;
      assert withVotes[k] in multiset(r);
    }
  }

  /** Without faults, the score and vote listed for an issue are the ones
      the single-issue vote query reads, on a table of "up" and "down"
      votes. */
  lemma ListedVotesAgree(i: Issue, votes: seq<Row>, u: string)
    requires i.id != "" && KindsOn(votes, i.id, {"up", "down"})
    ensures var l := WithVotes(i, votes, false, u);
      var v := IssueVotesQuery.VotesOfIssue(Some(votes), Some(i.id), Some(u));
      l.votesCount == v.voteCount && UserVoteOf(l.userVote) == v.userVote
  {
    ServerToggle.StoredKindOn(votes, i.id, u, {"up", "down"});
  }
}
