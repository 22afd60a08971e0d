/** `GitHubComments`: the comments of an issue as GitHub serves them, with a
    fallback to the copies stored in `github_comments`, and the reaction and
    vote records of the stored ones. Unlike the platform comments, the
    reaction fold here increments `record[kind]` for any kind: a kind
    outside the four offered ones gets a `NaN` entry, which the model keeps
    as a set of such kinds per comment. */
module GitHubComments {
  import opened Base
  import opened Strings
  import opened Lists
  import opened Tables
  import opened Counts
  import opened Sorting
  import PlatformComments

  /** A comment as the GitHub REST API returns it. */
  datatype ApiComment = ApiComment(id: int, body: string, login: string, avatarUrl: string, htmlUrl: string, createdAt: string, updatedAt: string)

  /** A comment as the component shows it (`GitHubComment`). */
  datatype GitHubComment = GitHubComment(
    id: string, githubId: int, body: string, authorLogin: string, authorAvatarUrl: Option<string>,
    htmlUrl: string, createdAt: string, updatedAt: string)

  /** A row of `github_comments`: the issue it belongs to, its
      `github_created_at` as a time value, and the comment. */
  datatype StoredComment = StoredComment(issueId: string, createdAt: int, comment: GitHubComment)

  /** What the `fetch` of the API comments gives. */
  datatype ApiResponse = Fetched(comments: seq<ApiComment>) | NotOk(status: int) | Threw

  // ------------------------------------------------------------- formatting

  /** The key of an API comment: `github-<id>`. */
  function CommentKey(id: int): string {
    "github-" + IntToString(id)
  }

  /** The API comment in the component's format. */
  function Format(c: ApiComment): GitHubComment {
    GitHubComment(CommentKey(c.id), c.id, c.body, c.login, Some(c.avatarUrl), c.htmlUrl, c.createdAt, c.updatedAt)
  }

  function FormatAll(cs: seq<ApiComment>): (r: seq<GitHubComment>)
    ensures |r| == |cs|
  {
    seq(|cs|, i requires 0 <= i < |cs| => Format(cs[i]))
  }

  /** The key gives back the numeric id, so two formatted comments share a
      key exactly when they share a GitHub id. */
  lemma CommentKeyRoundTrip(id: int)
    ensures StartsWith(CommentKey(id), "github-")
    ensures ParseInt(CommentKey(id)[7..]) == Some(id)
  {
    assert CommentKey(id)[7..] == IntToString(id);
    ParseIntOfIntToString(id);
  }

  lemma FormatKeys(cs: seq<ApiComment>, i: nat, j: nat)
    requires i < |cs| && j < |cs|
    ensures FormatAll(cs)[i].id == FormatAll(cs)[j].id <==> cs[i].id == cs[j].id
    ensures FormatAll(cs)[i].githubId == cs[i].id && FormatAll(cs)[i].body == cs[i].body
    ensures FormatAll(cs)[i].authorLogin == cs[i].login && FormatAll(cs)[i].createdAt == cs[i].createdAt
  {
    if FormatAll(cs)[i].id == FormatAll(cs)[j].id {
      CommentKeyRoundTrip(cs[i].id);
      CommentKeyRoundTrip(cs[j].id);
    }
  }

  /** The API is tried only with an owner, a repository and a non-zero
      issue number (JavaScript truthiness). */
  predicate ApiAttempted(owner: string, repo: string, issueNumber: int) {
    owner != "" && repo != "" && issueNumber != 0
  }

  /** `.eq('issue_id', issueId)` on `github_comments`. */
  function ForIssue(issueId: string): StoredComment -> bool {
    (s: StoredComment) => s.issueId == issueId
  }

  function StoredKey(s: StoredComment): int {
    s.createdAt
  }

  /** The fallback read, `.eq('issue_id', issueId).order('github_created_at',
      { ascending: true })`: the issue's rows, oldest first, rows with the
      same time in table order. */
  function StoredRows(table: seq<StoredComment>, issueId: string): (r: seq<StoredComment>)
    ensures SortedAsc(r, StoredKey)
    ensures multiset(r) == multiset(Filter(table, ForIssue(issueId)))
    ensures forall x :: x in r <==> x in table && x.issueId == issueId
  {
    var r := SortAsc(Filter(table, ForIssue(issueId)), StoredKey);
    forall x ensures x in r <==> x in table && x.issueId == issueId {
      SortAscMembership(Filter(table, ForIssue(issueId)), StoredKey, x);
      FilterMembership(table, ForIssue(issueId), x);
    }
    r
  }

  /** The comments the fallback shows: those of the issue's stored rows,
      oldest first. */
  function StoredFor(table: seq<StoredComment>, issueId: string): (r: seq<GitHubComment>)
    ensures |r| == |Filter(table, ForIssue(issueId))|
    ensures forall i :: 0 <= i < |r| ==> r[i] == StoredRows(table, issueId)[i].comment
  {
    var rows := StoredRows(table, issueId);
    assert |multiset(rows)| == |multiset(Filter(table, ForIssue(issueId)))|;
    seq(|rows|, i requires 0 <= i < |rows| => rows[i].comment)
  }

  function Ids(cs: seq<GitHubComment>): set<string> {
    set c | c in cs :: c.id
  }

  // ---------------------------------------------------- kinds that turn NaN

  /** What the reaction loop leaves as `NaN` entries, per comment it saw. */
  function NanKindsOfRows(rows: seq<Row>): map<string, set<string>> {
    map c | c in PlatformComments.Targets(rows) :: UnknownKinds(rows, c)
  }

  /** The same for the listed comments, read off the whole table. */
  function NanKinds(rows: seq<Row>, ids: set<string>): map<string, set<string>> {
    map c | c in ids && CountOn(rows, c) > 0 :: UnknownKinds(rows, c)
  }

  lemma UnknownKindsNone(a: seq<Row>, c: string)
    requires c !in PlatformComments.Targets(a)
    ensures UnknownKinds(a, c) == {}
  {
  }

  lemma NanKindsNext(rows: seq<Row>, i: nat)
    requires i < |rows|
    ensures var m := NanKindsOfRows(rows[..i]); var r := rows[i];
      NanKindsOfRows(rows[..i + 1]) ==
        m[r.target := (if r.target in m then m[r.target] else {}) + (if IsReactionKind(r.kind) then {} else {r.kind})]
  {
    var a := rows[..i];
    var r := rows[i];
    assert rows[..i + 1] == a + [r];
    var m := NanKindsOfRows(a);
    var m' := m[r.target := (if r.target in m then m[r.target] else {}) + (if IsReactionKind(r.kind) then {} else {r.kind})];
    var after := NanKindsOfRows(a + [r]);
    PlatformComments.TargetsAppend(a, r);
    forall c | c in after ensures after[c] == m'[c] {
      UnknownKindsAppend(a, r, c);
      if c !in m {
        UnknownKindsNone(a, c);
      }
    }
  }

  /** One reaction row into the `NaN` record. */
  method AddNan(acc: map<string, set<string>>, r: Row) returns (m: map<string, set<string>>)
    ensures m == acc[r.target := (if r.target in acc then acc[r.target] else {}) + (if IsReactionKind(r.kind) then {} else {r.kind})]
  {
    var kinds := if r.target in acc then acc[r.target] else {};
    if !IsReactionKind(r.kind) {
      kinds := kinds + {r.kind};
    } else {
      assert kinds + {} == kinds;
    }
    m := acc[r.target := kinds];
  }

  /** The reaction loop of this component: the offered kinds are counted as
      on the platform comments, and every other kind leaves a `NaN` entry. */
  method AggregateReactions(rows: seq<Row>, user: string) returns (byComment: map<string, Reactions>, nan: map<string, set<string>>)
    ensures byComment == PlatformComments.ReactionsOfRows(rows, user)
    ensures nan == NanKindsOfRows(rows)
  {
    byComment := map[];
    nan := map[];
    assert PlatformComments.Targets(rows[..0]) == {};
    var i := 0;
    while i < |rows|
      invariant 0 <= i <= |rows|
      invariant byComment == PlatformComments.ReactionsOfRows(rows[..i], user)
      invariant nan == NanKindsOfRows(rows[..i])
    {
      var r := rows[i];
      PlatformComments.ReactionsOfRowsNext(rows, i, user);
      NanKindsNext(rows, i);
      byComment := PlatformComments.AddReaction(byComment, r, user);
      nan := AddNan(nan, r);
      i := i + 1;
    }
    assert rows[..|rows|] == rows;
  }

  /** Selecting the rows of the listed comments keeps each listed comment's
      unknown kinds. */
  lemma SelectedNanKinds(rows: seq<Row>, ids: set<string>)
    ensures NanKindsOfRows(Filter(rows, PlatformComments.OnTargets(ids))) == NanKinds(rows, ids)
  {
    var sel := Filter(rows, PlatformComments.OnTargets(ids));
    var got := NanKindsOfRows(sel);
    var spec := NanKinds(rows, ids);
    forall c ensures (c in got <==> c in spec) && (c in got ==> got[c] == spec[c]) {
      PlatformComments.SelectedRows(rows, ids, c, "");
      PlatformComments.TargetsCount(sel, c);
      if c in ids {
        forall x ensures x in sel <==> x in rows && x.target in ids {
          FilterMembership(rows, PlatformComments.OnTargets(ids), x);
        }
        assert UnknownKinds(sel, c) == UnknownKinds(rows, c);
      }
    }
  }

  /** When every row holds an offered kind, no entry turns `NaN` and the
      records are those of the platform comments. */
  lemma OfferedKindsLeaveNoNan(rows: seq<Row>, ids: set<string>, c: string)
    requires forall i :: 0 <= i < |rows| ==> IsReactionKind(rows[i].kind)
    requires c in NanKinds(rows, ids)
    ensures NanKinds(rows, ids)[c] == {}
  {
    forall r | r in rows ensures IsReactionKind(r.kind) {
      var i :| 0 <= i < |rows| && rows[i] == r;
    }
  }

  // ---------------------------------------------------------------- writes

  /** The user's record as the component holds it. */
  function HeldReaction(m: map<string, Reactions>, c: string): Option<string> {
    if c in m then m[c].userReaction else None
  }

  function HeldVote(m: map<string, Votes>, c: string): Option<VoteType> {
    if c in m then m[c].userVote else None
  }

  /** A click's write as the handlers are written: the held kind is
      deleted, any other kind goes through `.upsert()` without a conflict
      target, which resolves on the primary key `id` the payload does not
      carry, so it behaves as an insert and the unique (target, user)
      constraint rejects it whenever the user already has a row. The
      rejection is not looked at. */
  function ClickWriteAsWritten(rows: seq<Row>, t: string, u: string, k: string, held: Option<string>, fault: Option<DbError>): seq<Row> {
    if fault.Some? then rows
    else if held == Some(k) then DeleteKey(rows, t, u)
    else match InsertRow(rows, t, u, k)
      case Ok(r) => r
      case Err(_) => rows
  }

  /** The write the handlers intend: delete the held kind, otherwise
      upsert on (target, user). */
  function ClickWrite(rows: seq<Row>, t: string, u: string, k: string, held: Option<string>, fault: Option<DbError>): seq<Row> {
    if fault.Some? then rows
    else if held == Some(k) then DeleteKey(rows, t, u)
    else UpsertKey(rows, t, u, k)
  }

  /** As written, switching from one kind to another leaves the stored
      row as it was: the user keeps the old reaction or vote. */
  lemma SwitchIsLostAsWritten(rows: seq<Row>, t: string, u: string, k: string)
    requires UniqueKeys(rows)
    requires Stored(rows, t, u).Some? && Stored(rows, t, u) != Some(k)
    ensures ClickWriteAsWritten(rows, t, u, k, Stored(rows, t, u), None) == rows
    ensures Stored(ClickWriteAsWritten(rows, t, u, k, Stored(rows, t, u), None), t, u) != Some(k)
  {
  }

  /** The intended write toggles: with the held kind in step with the
      table, the user ends up without a row when they clicked the kind they
      held and with the clicked kind otherwise; other keys keep their rows,
      and keys stay unique. */
  lemma ClickWriteToggles(rows: seq<Row>, t: string, u: string, k: string, t2: string, u2: string)
    requires UniqueKeys(rows)
    ensures var after := ClickWrite(rows, t, u, k, Stored(rows, t, u), None);
      && UniqueKeys(after)
      && Stored(after, t, u) == (if Stored(rows, t, u) == Some(k) then None else Some(k))
      && ((t2, u2) != (t, u) ==> Matches(after, t2, u2) == Matches(rows, t2, u2))
  {
    var after := ClickWrite(rows, t, u, k, Stored(rows, t, u), None);
    if Stored(rows, t, u) == Some(k) {
      DeleteKeepsUnique(rows, t, u);
      MatchesAfterDelete(rows, t, u, t, u);
      MatchesAfterDelete(rows, t, u, t2, u2);
    } else {
      UpsertKeepsUnique(rows, t, u, k);
      MatchesAfterUpsert(rows, t, u, k, t, u);
      MatchesAfterUpsert(rows, t, u, k, t2, u2);
    }
  }

  // ------------------------------------------------------------ component

  class GitHubCommentsState {
    var comments: seq<GitHubComment>
    var loading: bool
    var commentReactions: map<string, Reactions>
    var nanKinds: map<string, set<string>>
    var commentVotes: map<string, Votes>

    constructor ()
      ensures comments == [] && loading && commentReactions == map[] && nanKinds == map[] && commentVotes == map[]
    {
      comments := [];
      loading := true;
      commentReactions := map[];
      nanKinds := map[];
      commentVotes := map[];
    }

    /** `loadReactionsAndVotes`: nothing without a user; otherwise the
        records of the shown comments (a failed read gives none). */
    method LoadReactionsAndVotes(user: Option<string>, reactions: seq<Row>, votes: seq<Row>, reactionsFail: bool, votesFail: bool)
      modifies this
      ensures comments == old(comments) && loading == old(loading)
      ensures user.None? ==> (commentReactions == old(commentReactions) && nanKinds == old(nanKinds)
        && commentVotes == old(commentVotes))
      ensures user.Some? ==> (
        && commentReactions == (if reactionsFail then map[] else PlatformComments.ReactionsByComment(reactions, Ids(comments), user.value))
        && nanKinds == (if reactionsFail then map[] else NanKinds(reactions, Ids(comments)))
        && commentVotes == (if votesFail then map[] else PlatformComments.VotesByComment(votes, Ids(comments), user.value)))
    {
      if user.None? {
        return;
      }
      var ids := Ids(comments);
      var selected := if reactionsFail then [] else Filter(reactions, PlatformComments.OnTargets(ids));
      var selectedVotes := if votesFail then [] else Filter(votes, PlatformComments.OnTargets(ids));
      var byComment, nan := AggregateReactions(selected, user.value);
      var votesByComment := PlatformComments.AggregateVotes(selectedVotes, user.value);
      if !reactionsFail {
        PlatformComments.SelectedTallies(reactions, ids, user.value);
        SelectedNanKinds(reactions, ids);
      }
      if !votesFail {
        PlatformComments.SelectedVoteTallies(votes, ids, user.value);
      }
      commentReactions := byComment;
      nanKinds := nan;
      commentVotes := votesByComment;
    }

    /** `loadComments`: a fetched API list is shown as formatted and nothing
        else is loaded; when the API is not tried, answers non-ok or throws,
        the stored comments of the issue are shown and their records loaded
        (a failed read shows nothing new). `loading` ends false. */
    method LoadComments(issueId: string, owner: string, repo: string, issueNumber: int, api: ApiResponse,
                        table: seq<StoredComment>, tableFails: bool,
                        user: Option<string>, reactions: seq<Row>, votes: seq<Row>, reactionsFail: bool, votesFail: bool)
      modifies this
      ensures !loading
      ensures ApiAttempted(owner, repo, issueNumber) && api.Fetched? ==> (
        && comments == FormatAll(api.comments)
        && commentReactions == old(commentReactions) && nanKinds == old(nanKinds) && commentVotes == old(commentVotes))
      ensures !(ApiAttempted(owner, repo, issueNumber) && api.Fetched?) && tableFails ==> (
        && comments == old(comments)
        && commentReactions == old(commentReactions) && nanKinds == old(nanKinds) && commentVotes == old(commentVotes))
      ensures !(ApiAttempted(owner, repo, issueNumber) && api.Fetched?) && !tableFails ==> (
        && comments == StoredFor(table, issueId)
        && (user.None? ==> commentReactions == old(commentReactions) && nanKinds == old(nanKinds) && commentVotes == old(commentVotes))
        && (user.Some? ==>
          && commentReactions == (if reactionsFail then map[] else PlatformComments.ReactionsByComment(reactions, Ids(comments), user.value))
          && nanKinds == (if reactionsFail then map[] else NanKinds(reactions, Ids(comments)))
          && commentVotes == (if votesFail then map[] else PlatformComments.VotesByComment(votes, Ids(comments), user.value))))
    {
      loading := true;
      if ApiAttempted(owner, repo, issueNumber) && api.Fetched? {
        comments := FormatAll(api.comments);
        loading := false;
        return;
      }
      if !tableFails {
        comments := StoredFor(table, issueId);
        LoadReactionsAndVotes(user, reactions, votes, reactionsFail, votesFail);
      }
      loading := false;
    }

    /** `handleReaction`: nothing without a user; otherwise the held kind is
        deleted and any other written with `.upsert()` without a conflict
        target, which the unique constraint treats as an insert, then the
        records are reloaded from the tables. The write's error is not
        looked at. */
    method HandleReaction(reactionsTable: Table, votes: seq<Row>, user: Option<string>, commentId: string, reactionType: string,
                          fault: Option<DbError>, reactionsFail: bool, votesFail: bool)
      requires reactionsTable.Valid()
      modifies this, reactionsTable
      ensures reactionsTable.Valid()
      ensures comments == old(comments) && loading == old(loading)
      ensures user.None? ==> (reactionsTable.rows == old(reactionsTable.rows) && commentReactions == old(commentReactions)
        && nanKinds == old(nanKinds) && commentVotes == old(commentVotes))
      ensures user.Some? ==> (
        && reactionsTable.rows == ClickWriteAsWritten(old(reactionsTable.rows), commentId, user.value, reactionType, HeldReaction(old(commentReactions), commentId), fault)
        && commentReactions == (if reactionsFail then map[] else PlatformComments.ReactionsByComment(reactionsTable.rows, Ids(comments), user.value))
        && nanKinds == (if reactionsFail then map[] else NanKinds(reactionsTable.rows, Ids(comments)))
        && commentVotes == (if votesFail then map[] else PlatformComments.VotesByComment(votes, Ids(comments), user.value)))
    {
      if user.None? {
        return;
      }
      var current := HeldReaction(commentReactions, commentId);
      var err;
      if current == Some(reactionType) {
        err := reactionsTable.Delete(commentId, user.value, fault);
      } else {
        err := reactionsTable.Insert(commentId, user.value, reactionType, fault);
      }
      LoadReactionsAndVotes(user, reactionsTable.rows, votes, reactionsFail, votesFail);
    }

    /** `handleVote`: the same for the votes table. */
    method HandleVote(reactions: seq<Row>, votesTable: Table, user: Option<string>, commentId: string, voteType: VoteType,
                      fault: Option<DbError>, reactionsFail: bool, votesFail: bool)
      requires votesTable.Valid()
      modifies this, votesTable
      ensures votesTable.Valid()
      ensures comments == old(comments) && loading == old(loading)
      ensures user.None? ==> (votesTable.rows == old(votesTable.rows) && commentReactions == old(commentReactions)
        && nanKinds == old(nanKinds) && commentVotes == old(commentVotes))
      ensures user.Some? ==> (
        && votesTable.rows == ClickWriteAsWritten(old(votesTable.rows), commentId, user.value, voteType.Name(),
             (if HeldVote(old(commentVotes), commentId).Some? then Some(HeldVote(old(commentVotes), commentId).value.Name()) else None), fault)
        && commentReactions == (if reactionsFail then map[] else PlatformComments.ReactionsByComment(reactions, Ids(comments), user.value))
        && nanKinds == (if reactionsFail then map[] else NanKinds(reactions, Ids(comments)))
        && commentVotes == (if votesFail then map[] else PlatformComments.VotesByComment(votesTable.rows, Ids(comments), user.value)))
    {
      if user.None? {
        return;
      }
      var current := HeldVote(commentVotes, commentId);
      var err;
      if current == Some(voteType) {
        err := votesTable.Delete(commentId, user.value, fault);
      } else {
        err := votesTable.Insert(commentId, user.value, voteType.Name(), fault);
      }
      LoadReactionsAndVotes(user, reactions, votesTable.rows, reactionsFail, votesFail);
    }
  }

  /** After a click as written on a shown comment whose record is in step
      with the table, the reloaded record holds no reaction when the user
      clicked the one they held, the clicked one when they held none, and
      still the held one when they clicked another. */
  lemma ClickThenReloadAsWritten(rows: seq<Row>, shown: seq<GitHubComment>, c: GitHubComment, u: string, k: string)
    requires UniqueKeys(rows) && c in shown
    ensures var after := ClickWriteAsWritten(rows, c.id, u, k, Stored(rows, c.id, u), None);
      var rs := PlatformComments.ReactionsByComment(after, Ids(shown), u);
      && (Stored(rows, c.id, u) == Some(k) && c.id in rs ==> rs[c.id].userReaction == None)
      && (Stored(rows, c.id, u) == None ==> c.id in rs && rs[c.id].userReaction == Some(k))
      && (Stored(rows, c.id, u).Some? && Stored(rows, c.id, u) != Some(k) ==>
            c.id in rs && rs[c.id].userReaction == Stored(rows, c.id, u))
  {
    var after := ClickWriteAsWritten(rows, c.id, u, k, Stored(rows, c.id, u), None);
    assert c.id in Ids(shown);
    if Stored(rows, c.id, u) == Some(k) {
      DeleteKeepsUnique(rows, c.id, u);
    } else if Stored(rows, c.id, u) == None {
      InsertKeepsUnique(rows, c.id, u, k);
      StoredCounted(after, c.id, u);
    } else {
      SwitchIsLostAsWritten(rows, c.id, u, k);
      StoredCounted(after, c.id, u);
    }
    LastKindIsStored(after, c.id, u);
  }

  /** After a click with the intended write on a shown comment whose record
      is in step with the table, the reloaded record holds the clicked
      reaction, or none when the user clicked the one they held. */
  lemma ClickThenReload(rows: seq<Row>, shown: seq<GitHubComment>, c: GitHubComment, u: string, k: string)
    requires UniqueKeys(rows) && c in shown
    ensures var after := ClickWrite(rows, c.id, u, k, Stored(rows, c.id, u), None);
      var rs := PlatformComments.ReactionsByComment(after, Ids(shown), u);
      (Stored(rows, c.id, u) != Some(k) ==> c.id in rs && rs[c.id].userReaction == Some(k))
      && (Stored(rows, c.id, u) == Some(k) && c.id in rs ==> rs[c.id].userReaction == None)
  {
    var after := ClickWrite(rows, c.id, u, k, Stored(rows, c.id, u), None);
    ClickWriteToggles(rows, c.id, u, k, c.id, u);
    assert c.id in Ids(shown);
    LastKindIsStored(after, c.id, u);
    if Stored(rows, c.id, u) != Some(k) {
      StoredCounted(after, c.id, u);
    }
  }

  /** A stored row makes its target counted. */
  lemma {:induction false} StoredCounted(rows: seq<Row>, t: string, u: string)
    requires Stored(rows, t, u).Some?
    ensures CountOn(rows, t) > 0
  {
    if rows != [] && !(rows[0].target == t) {
      assert Matches(rows, t, u) == Matches(rows[1..], t, u);
      StoredCounted(rows[1..], t, u);
    }
  }
}
