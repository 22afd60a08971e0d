/** `usePlatformComments(issueId)`: loads the platform comments of an issue
    (top-level comments, each with its replies one level below and every
    author's profile), then folds the reaction and vote rows of all of them
    into one record per comment. */
module PlatformComments {
  import opened Base
  import opened Lists
  import opened Tables
  import opened Counts
  import opened CommentTree
  import opened Sorting

  /** A row of `platform_comments`; timestamps are integers. */
  datatype CommentRow = CommentRow(id: string, issueId: Option<string>, userId: string, parentId: Option<string>, content: string, createdAt: int)

  /** A row of `profiles`, as far as the comment list reads it. */
  datatype ProfileRow = ProfileRow(userId: string, profile: Profile)

  /** The tables the hook reads, each in table order. */
  datatype Db = Db(comments: seq<CommentRow>, profiles: seq<ProfileRow>, reactions: seq<Row>, votes: seq<Row>)

  /** Which reads fail: the top-level query, the reply query of some
      comments, the profile query, the reaction query, the vote query. */
  datatype LoadFaults = LoadFaults(comments: bool, replies: set<string>, profiles: bool, reactions: bool, votes: bool)

  // ------------------------------------------------------------- the queries

  /** `.eq('issue_id', issueId).is('parent_id', null)`. */
  function TopLevelOf(issueId: string): CommentRow -> bool {
    (r: CommentRow) => r.issueId == Some(issueId) && r.parentId == None
  }

  /** `.eq('parent_id', id)`. */
  function ReplyTo(id: string): CommentRow -> bool {
    (r: CommentRow) => r.parentId == Some(id)
  }

  function CreatedKey(r: CommentRow): int {
    r.createdAt
  }

  /** The top-level comments of the issue,
      `.order('created_at', { ascending: true })`: oldest first, rows with
      the same time in table order. */
  function TopLevel(table: seq<CommentRow>, issueId: string): (r: seq<CommentRow>)
    ensures SortedAsc(r, CreatedKey)
    ensures multiset(r) == multiset(Filter(table, TopLevelOf(issueId)))
    ensures forall x :: x in r <==> x in table && x.issueId == Some(issueId) && x.parentId == None
  {
    var r := SortAsc(Filter(table, TopLevelOf(issueId)), CreatedKey);
    forall x ensures x in r <==> x in table && x.issueId == Some(issueId) && x.parentId == None {
      SortAscMembership(Filter(table, TopLevelOf(issueId)), CreatedKey, x);
      FilterMembership(table, TopLevelOf(issueId), x);
    }
    r
  }

  /** The replies to a comment, oldest first. */
  function RepliesTo(table: seq<CommentRow>, id: string): (r: seq<CommentRow>)
    ensures SortedAsc(r, CreatedKey)
    ensures multiset(r) == multiset(Filter(table, ReplyTo(id)))
    ensures forall x :: x in r <==> x in table && x.parentId == Some(id)
  {
    var r := SortAsc(Filter(table, ReplyTo(id)), CreatedKey);
    forall x ensures x in r <==> x in table && x.parentId == Some(id) {
      SortAscMembership(Filter(table, ReplyTo(id)), CreatedKey, x);
      FilterMembership(table, ReplyTo(id), x);
    }
    r
  }

  /** `.in('comment_id', ids)` on a reaction or vote table. */
  function OnTargets(ids: set<string>): Row -> bool {
    (r: Row) => r.target in ids
  }

  /** `.in('user_id', ids)` on the profile table. */
  function OfUsers(ids: set<string>): ProfileRow -> bool {
    (p: ProfileRow) => p.userId in ids
  }

  /** The reply lists as the hook obtains them: a failing reply query
      yields no replies for that comment. */
  function RepliesFor(table: seq<CommentRow>, top: seq<CommentRow>, failing: set<string>): (r: seq<seq<CommentRow>>)
    ensures |r| == |top|
    ensures forall i :: 0 <= i < |top| ==> r[i] == if top[i].id in failing then [] else RepliesTo(table, top[i].id)
  {
    seq(|top|, i requires 0 <= i < |top| => if top[i].id in failing then [] else RepliesTo(table, top[i].id))
  }

  /** `allUserIds`: the authors of the top-level comments and the replies. */
  function Authors(top: seq<CommentRow>, replies: seq<seq<CommentRow>>): set<string> {
    (set r | r in top :: r.userId) + (set r | r in Flatten(replies) :: r.userId)
  }

  // -------------------------------------------------------------- profiles

  /** The profile a `Map` filled row by row holds for a user: the last one. */
  function LastProfile(profiles: seq<ProfileRow>, u: string): Option<Profile> {
    if profiles == [] then None
    else if profiles[|profiles| - 1].userId == u then Some(profiles[|profiles| - 1].profile)
    else LastProfile(profiles[..|profiles| - 1], u)
  }

  /** `profileMap.get(u) || null`. */
  function ProfileOf(m: map<string, Profile>, u: string): Option<Profile> {
    if u in m then Some(m[u]) else None
  }

  /** `profiles?.forEach(profile => profileMap.set(profile.user_id, profile))`. */
  method BuildProfileMap(profiles: seq<ProfileRow>) returns (m: map<string, Profile>)
    ensures forall u :: ProfileOf(m, u) == LastProfile(profiles, u)
  {
    m := map[];
    var i := 0;
    while i < |profiles|
      invariant 0 <= i <= |profiles|
      invariant forall u :: ProfileOf(m, u) == LastProfile(profiles[..i], u)
    {
      m := m[profiles[i].userId := profiles[i].profile];
      assert profiles[..i + 1][..i] == profiles[..i];
      i := i + 1;
    }
    assert profiles[..|profiles|] == profiles;
  }

  // -------------------------------------------------------------- assembly

  /** A row with its author's profile and the given replies; the list
      carries no reactions or votes records. */
  function ToComment(row: CommentRow, profiles: seq<ProfileRow>, replies: seq<Comment>): Comment {
    Comment(row.id, row.userId, row.parentId, row.content, row.createdAt, LastProfile(profiles, row.userId), replies, None, None)
  }

  /** Replies with their profiles (and no replies of their own). */
  function WithProfiles(rows: seq<CommentRow>, profiles: seq<ProfileRow>): (r: seq<Comment>)
    ensures |r| == |rows|
  {
    seq(|rows|, i requires 0 <= i < |rows| => ToComment(rows[i], profiles, []))
  }

  /** `commentsWithReplies`: top-level comment i with reply list i. */
  function Assemble(top: seq<CommentRow>, replies: seq<seq<CommentRow>>, profiles: seq<ProfileRow>): (r: seq<Comment>)
    requires |replies| == |top|
    ensures |r| == |top|
  {
    seq(|top|, i requires 0 <= i < |top| => ToComment(top[i], profiles, WithProfiles(replies[i], profiles)))
  }

  /** The comment list a successful load shows. */
  function CommentList(db: Db, issueId: string, f: LoadFaults): seq<Comment> {
    var top := TopLevel(db.comments, issueId);
    var replies := RepliesFor(db.comments, top, f.replies);
    var profiles := if f.profiles then [] else Filter(db.profiles, OfUsers(Authors(top, replies)));
    Assemble(top, replies, profiles)
  }

  /** The list handed to `loadReactionsAndVotes`: the top-level comments
      followed by all replies. */
  function AllComments(cs: seq<Comment>): seq<Comment> {
    cs + Flatten(seq(|cs|, i requires 0 <= i < |cs| => cs[i].replies))
  }

  function CommentIds(cs: seq<Comment>): set<string> {
    set c | c in cs :: c.id
  }

  /** The reply queries, one per top-level comment in order. */
  method FetchReplies(table: seq<CommentRow>, top: seq<CommentRow>, failing: set<string>) returns (replies: seq<seq<CommentRow>>)
    ensures replies == RepliesFor(table, top, failing)
  {
    replies := [];
    var i := 0;
    while i < |top|
      invariant 0 <= i <= |top|
      invariant replies == RepliesFor(table, top, failing)[..i]
    {
      var these := if top[i].id in failing then [] else RepliesTo(table, top[i].id);
      replies := replies + [these];
      i := i + 1;
    }
  }

  /** `replies.map(reply => ({...reply, profile: profileMap.get(...) || null}))`. */
  method ReplyComments(rows: seq<CommentRow>, profiles: seq<ProfileRow>, profileMap: map<string, Profile>) returns (list: seq<Comment>)
    requires forall u :: ProfileOf(profileMap, u) == LastProfile(profiles, u)
    ensures list == WithProfiles(rows, profiles)
  {
    list := [];
    var j := 0;
    while j < |rows|
      invariant 0 <= j <= |rows|
      invariant list == WithProfiles(rows, profiles)[..j]
    {
      var reply := rows[j];
      list := list + [Comment(reply.id, reply.userId, reply.parentId, reply.content, reply.createdAt,
        ProfileOf(profileMap, reply.userId), [], None, None)];
      j := j + 1;
    }
  }

  /** `commentsWithReplies`: each top-level comment with its profile and its
      replies. */
  method AssembleList(top: seq<CommentRow>, replies: seq<seq<CommentRow>>, profiles: seq<ProfileRow>, profileMap: map<string, Profile>)
    returns (list: seq<Comment>)
    requires |replies| == |top|
    requires forall u :: ProfileOf(profileMap, u) == LastProfile(profiles, u)
    ensures list == Assemble(top, replies, profiles)
  {
    list := [];
    var i := 0;
    while i < |top|
      invariant 0 <= i <= |top|
      invariant list == Assemble(top, replies, profiles)[..i]
    {
      var withProfiles := ReplyComments(replies[i], profiles, profileMap);
      var row := top[i];
      list := list + [Comment(row.id, row.userId, row.parentId, row.content, row.createdAt,
        ProfileOf(profileMap, row.userId), withProfiles, None, None)];
      i := i + 1;
    }
  }

  // ----------------------------------------------------------- aggregation

  /** `reactionsByComment`: a record for every comment of ids that has a
      row, holding its tally. */
  function ReactionsByComment(rows: seq<Row>, ids: set<string>, user: string): map<string, Reactions> {
    map c | c in ids && CountOn(rows, c) > 0 :: ReactionTally(rows, c, user)
  }

  /** `votesByComment`. */
  function VotesByComment(rows: seq<Row>, ids: set<string>, user: string): map<string, Votes> {
    map c | c in ids && CountOn(rows, c) > 0 :: VoteTally(rows, c, user)
  }

  /** The targets that have a row. */
  function Targets(rows: seq<Row>): set<string> {
    set r | r in rows :: r.target
  }

  lemma TargetsAppend(a: seq<Row>, r: Row)
    ensures Targets(a + [r]) == Targets(a) + {r.target}
  {
    assert forall x :: x in a + [r] <==> x in a || x == r;
  }

  /** A target has a row exactly when it has a nonzero row count. */
  lemma {:induction false} TargetsCount(rows: seq<Row>, c: string)
    ensures c in Targets(rows) <==> CountOn(rows, c) > 0
  {
    if rows != [] {
      TargetsCount(rows[1..], c);
      assert rows == [rows[0]] + rows[1..];
      assert Targets(rows) == {rows[0].target} + Targets(rows[1..]);
    }
  }

  /** What the reaction loop builds from a list of rows: the tally of
      every target with a row. */
  function ReactionsOfRows(rows: seq<Row>, user: string): map<string, Reactions> {
    map c | c in Targets(rows) :: ReactionTally(rows, c, user)
  }

  /** What the vote loop builds from a list of rows. */
  function VotesOfRows(rows: seq<Row>, user: string): map<string, Votes> {
    map c | c in Targets(rows) :: VoteTally(rows, c, user)
  }

  /** One more row: its target's record, fresh when it had none, takes one
      step. */
  lemma ReactionsOfRowsAppend(a: seq<Row>, r: Row, user: string)
    ensures var m := ReactionsOfRows(a, user);
      ReactionsOfRows(a + [r], user) == m[r.target := ReactionStep(if r.target in m then m[r.target] else NO_REACTIONS, r, user)]
  {
    var m := ReactionsOfRows(a, user);
    var m' := m[r.target := ReactionStep(if r.target in m then m[r.target] else NO_REACTIONS, r, user)];
    var after := ReactionsOfRows(a + [r], user);
    TargetsAppend(a, r);
    forall c | c in after ensures after[c] == m'[c] {
      ReactionTallyAppend(a, r, c, user);
      if c == r.target && c !in m {
        TargetsCount(a, c);
        TallyWithoutRows(a, c, user);
      }
    }
  }

  lemma VotesOfRowsAppend(a: seq<Row>, r: Row, user: string)
    ensures var m := VotesOfRows(a, user);
      VotesOfRows(a + [r], user) == m[r.target := VoteStep(if r.target in m then m[r.target] else NO_VOTES, r, user)]
  {
    var m := VotesOfRows(a, user);
    var m' := m[r.target := VoteStep(if r.target in m then m[r.target] else NO_VOTES, r, user)];
    var after := VotesOfRows(a + [r], user);
    TargetsAppend(a, r);
    forall c | c in after ensures after[c] == m'[c] {
      VoteTallyAppend(a, r, c, user);
      if c == r.target && c !in m {
        TargetsCount(a, c);
        TallyWithoutRows(a, c, user);
      }
    }
  }

  /** One reaction row into the accumulator: a record is created on the
      comment's first row, an offered kind counts one more, and a row of the
      user sets its kind. */
  method AddReaction(acc: map<string, Reactions>, r: Row, user: string) returns (m: map<string, Reactions>)
    ensures m == acc[r.target := ReactionStep(if r.target in acc then acc[r.target] else NO_REACTIONS, r, user)]
  {
    var rec := if r.target in acc then acc[r.target] else NO_REACTIONS;
    if IsReactionKind(r.kind) {
      rec := rec.(counts := rec.counts[r.kind := rec.Get(r.kind) + 1]);
    }
    if r.user == user {
      rec := rec.(userReaction := Some(r.kind));
    }
    m := acc[r.target := rec];
  }

  /** One vote row into the accumulator: "up" counts as up, every other kind
      as down, and a row of the user sets the vote. */
  method AddVote(acc: map<string, Votes>, r: Row, user: string) returns (m: map<string, Votes>)
    ensures m == acc[r.target := VoteStep(if r.target in acc then acc[r.target] else NO_VOTES, r, user)]
  {
    var rec := if r.target in acc then acc[r.target] else NO_VOTES;
    if r.kind == "up" {
      rec := rec.(up := rec.up + 1);
    } else {
      rec := rec.(down := rec.down + 1);
    }
    if r.user == user {
      rec := rec.(userVote := ParseVoteType(r.kind));
    }
    m := acc[r.target := rec];
  }

  lemma ReactionsOfRowsNext(rows: seq<Row>, i: nat, user: string)
    requires i < |rows|
    ensures var m := ReactionsOfRows(rows[..i], user); var r := rows[i];
      ReactionsOfRows(rows[..i + 1], user) == m[r.target := ReactionStep(if r.target in m then m[r.target] else NO_REACTIONS, r, user)]
  {
    assert rows[..i + 1] == rows[..i] + [rows[i]];
    ReactionsOfRowsAppend(rows[..i], rows[i], user);
  }

  /** The reaction loop: a record is created on a comment's first row, an
      offered kind counts one more, and a row of the user sets its kind. */
  method AggregateReactions(rows: seq<Row>, user: string) returns (byComment: map<string, Reactions>)
    ensures byComment == ReactionsOfRows(rows, user)
  {
    byComment := map[];
    assert Targets(rows[..0]) == {};
    var i := 0;
    while i < |rows|
      invariant 0 <= i <= |rows|
      invariant byComment == ReactionsOfRows(rows[..i], user)
    {
      var r := rows[i];
      ReactionsOfRowsNext(rows, i, user);
      byComment := AddReaction(byComment, r, user);
      i := i + 1;
    }
    assert rows[..|rows|] == rows;
  }

  lemma VotesOfRowsNext(rows: seq<Row>, i: nat, user: string)
    requires i < |rows|
    ensures var m := VotesOfRows(rows[..i], user); var r := rows[i];
      VotesOfRows(rows[..i + 1], user) == m[r.target := VoteStep(if r.target in m then m[r.target] else NO_VOTES, r, user)]
  {
    assert rows[..i + 1] == rows[..i] + [rows[i]];
    VotesOfRowsAppend(rows[..i], rows[i], user);
  }

  /** The vote loop: "up" counts as up, every other kind as down, and a row
      of the user sets the vote. */
  method AggregateVotes(rows: seq<Row>, user: string) returns (byComment: map<string, Votes>)
    ensures byComment == VotesOfRows(rows, user)
  {
    byComment := map[];
    assert Targets(rows[..0]) == {};
    var i := 0;
    while i < |rows|
      invariant 0 <= i <= |rows|
      invariant byComment == VotesOfRows(rows[..i], user)
    {
      var r := rows[i];
      VotesOfRowsNext(rows, i, user);
      byComment := AddVote(byComment, r, user);
      i := i + 1;
    }
    assert rows[..|rows|] == rows;
  }

  /** Selecting the rows of some targets keeps every row of those targets
      and none of the others. */
  lemma {:induction false} SelectedRows(rows: seq<Row>, ids: set<string>, c: string, u: string)
    ensures c in ids ==> Matches(Filter(rows, OnTargets(ids)), c, u) == Matches(rows, c, u)
    ensures c in ids ==> CountOn(Filter(rows, OnTargets(ids)), c) == CountOn(rows, c)
    ensures c in ids ==> forall k :: CountKind(Filter(rows, OnTargets(ids)), c, k) == CountKind(rows, c, k)
    ensures c !in ids ==> CountOn(Filter(rows, OnTargets(ids)), c) == 0
  {
    if rows != [] {
      SelectedRows(rows[1..], ids, c, u);
      var rest := Filter(rows[1..], OnTargets(ids));
      if rows[0].target in ids {
        assert Filter(rows, OnTargets(ids)) == [rows[0]] + rest;
        assert ([rows[0]] + rest)[1..] == rest;
      } else {
        assert Filter(rows, OnTargets(ids)) == rest;
      }
    }
  }

  /** Selecting the rows of the listed comments and folding them gives
      every listed comment with rows its tally. */
  lemma SelectedTallies(rows: seq<Row>, ids: set<string>, u: string)
    ensures ReactionsOfRows(Filter(rows, OnTargets(ids)), u) == ReactionsByComment(rows, ids, u)
  {
    var byComment := ReactionsOfRows(Filter(rows, OnTargets(ids)), u);
    var spec := ReactionsByComment(rows, ids, u);
    forall c ensures (c in byComment <==> c in spec) && (c in byComment ==> byComment[c] == spec[c]) {
      SelectedRows(rows, ids, c, u);
      TargetsCount(Filter(rows, OnTargets(ids)), c);
      if c in ids {
        var sel := Filter(rows, OnTargets(ids));
        IsReactionTally(ReactionTally(sel, c, u), rows, c, u);
      }
    }
  }

  lemma SelectedVoteTallies(rows: seq<Row>, ids: set<string>, u: string)
    ensures VotesOfRows(Filter(rows, OnTargets(ids)), u) == VotesByComment(rows, ids, u)
  {
    var byComment := VotesOfRows(Filter(rows, OnTargets(ids)), u);
    var spec := VotesByComment(rows, ids, u);
    forall c ensures (c in byComment <==> c in spec) && (c in byComment ==> byComment[c] == spec[c]) {
      SelectedVoteTally(rows, ids, u, c);
    }
  }

  lemma SelectedVoteTally(rows: seq<Row>, ids: set<string>, u: string, c: string)
    ensures var byComment := VotesOfRows(Filter(rows, OnTargets(ids)), u);
      var spec := VotesByComment(rows, ids, u);
      (c in byComment <==> c in spec) && (c in byComment ==> byComment[c] == spec[c])
  {
    var sel := Filter(rows, OnTargets(ids));
    SelectedRows(rows, ids, c, u);
    TargetsCount(sel, c);
    if c in ids {
      assert CountKind(sel, c, "up") == CountKind(rows, c, "up");
      assert LastKind(sel, c, u) == LastKind(rows, c, u);
      assert VoteTally(sel, c, u) == VoteTally(rows, c, u);
    }
  }

  // ------------------------------------------------------------- the hook

  /** The hook's state. */
  class PlatformCommentsState {
    var comments: seq<Comment>
    var loading: bool
    var commentReactions: map<string, Reactions>
    var commentVotes: map<string, Votes>

    constructor ()
      ensures comments == [] && loading && commentReactions == map[] && commentVotes == map[]
    {
      comments := [];
      loading := true;
      commentReactions := map[];
      commentVotes := map[];
    }

    /** `loadReactionsAndVotes`: nothing without a user; otherwise the two
        records per listed comment (a failed read gives no records). */
    method LoadReactionsAndVotes(user: Option<string>, all: seq<Comment>, db: Db, f: LoadFaults)
      modifies this
      ensures comments == old(comments) && loading == old(loading)
      ensures user.None? ==> commentReactions == old(commentReactions) && commentVotes == old(commentVotes)
      ensures user.Some? ==>
        && commentReactions == (if f.reactions then map[] else ReactionsByComment(db.reactions, CommentIds(all), user.value))
        && commentVotes == (if f.votes then map[] else VotesByComment(db.votes, CommentIds(all), user.value))
    {
      if user.None? {
        return;
      }
      var ids := CommentIds(all);
      var reactions := if f.reactions then [] else Filter(db.reactions, OnTargets(ids));
      var votes := if f.votes then [] else Filter(db.votes, OnTargets(ids));
      var reactionsByComment := AggregateReactions(reactions, user.value);
      var votesByComment := AggregateVotes(votes, user.value);
      if !f.reactions {
        SelectedTallies(db.reactions, ids, user.value);
      }
      if !f.votes {
        SelectedVoteTallies(db.votes, ids, user.value);
      }
      commentReactions := reactionsByComment;
      commentVotes := votesByComment;
    }

    /** `loadComments`: without an issue id the list empties (and `loading`
        is left as it was); a failed top-level read empties it too; otherwise
        the assembled list is shown and the records of all its comments and
        replies are loaded. Every attempt past the id check ends with
        `loading` false. */
    method LoadComments(issueId: Option<string>, user: Option<string>, db: Db, f: LoadFaults)
      modifies this
      ensures !Truthy(issueId) ==> (comments == [] && loading == old(loading)
        && commentReactions == old(commentReactions) && commentVotes == old(commentVotes))
      ensures Truthy(issueId) ==> !loading
      ensures Truthy(issueId) && f.comments ==> (comments == []
        && commentReactions == old(commentReactions) && commentVotes == old(commentVotes))
      ensures Truthy(issueId) && !f.comments ==>
        && comments == CommentList(db, issueId.value, f)
        && (user.None? ==> commentReactions == old(commentReactions) && commentVotes == old(commentVotes))
        && (user.Some? ==>
          && commentReactions == (if f.reactions then map[] else ReactionsByComment(db.reactions, CommentIds(AllComments(comments)), user.value))
          && commentVotes == (if f.votes then map[] else VotesByComment(db.votes, CommentIds(AllComments(comments)), user.value)))
    {
      if !Truthy(issueId) {
        comments := [];
        return;
      }
      if f.comments {
        comments := [];
        loading := false;
        return;
      }
      var top := TopLevel(db.comments, issueId.value);
      var replies := FetchReplies(db.comments, top, f.replies);
      var profiles := if f.profiles then [] else Filter(db.profiles, OfUsers(Authors(top, replies)));
      var profileMap := BuildProfileMap(profiles);
      var list := AssembleList(top, replies, profiles, profileMap);
      comments := list;
      LoadReactionsAndVotes(user, AllComments(list), db, f);
      loading := false;
    }
  }

  // ----------------------------------------------------------------- lemmas

  /** The list holds exactly the issue's top-level comments, oldest first;
      comment i carries the replies to it, oldest first (none when its
      reply read failed), each with no replies of its own, and everyone
      carries their author's profile. */
  lemma CommentListShape(db: Db, issueId: string, f: LoadFaults, i: nat)
    requires i < |CommentList(db, issueId, f)|
    ensures var top := TopLevel(db.comments, issueId);
      var c := CommentList(db, issueId, f)[i];
      && |CommentList(db, issueId, f)| == |top|
      && c.id == top[i].id && c.createdAt == top[i].createdAt && c.parentId == None
      && top[i] in db.comments && top[i].issueId == Some(issueId)
      && (top[i].id in f.replies ==> c.replies == [])
      && (top[i].id !in f.replies ==> (
            && |c.replies| == |RepliesTo(db.comments, c.id)|
            && forall j :: 0 <= j < |c.replies| ==>
                 (c.replies[j].id == RepliesTo(db.comments, c.id)[j].id
                 && c.replies[j].createdAt == RepliesTo(db.comments, c.id)[j].createdAt
                 && c.replies[j].parentId == Some(c.id) && c.replies[j].replies == [])))
  {
    var top := TopLevel(db.comments, issueId);
    assert top[i] in top;
    var rs := RepliesTo(db.comments, top[i].id);
    forall j | 0 <= j < |rs| ensures rs[j].parentId == Some(top[i].id) {
      assert rs[j] in rs;
    }
  }

  /** Assembling keeps the order of the rows: comment i is top-level row
      i, and its reply j is reply row j. */
  lemma AssembleKeepsOrder(top: seq<CommentRow>, replies: seq<seq<CommentRow>>, profiles: seq<ProfileRow>)
    requires |replies| == |top|
    requires SortedAsc(top, CreatedKey)
    requires forall i :: 0 <= i < |replies| ==> SortedAsc(replies[i], CreatedKey)
    ensures var cs := Assemble(top, replies, profiles);
      && (forall i, j :: 0 <= i < j < |cs| ==> cs[i].createdAt <= cs[j].createdAt)
      && (forall i, j, k :: 0 <= i < |cs| && 0 <= j < k < |cs[i].replies| ==>
            cs[i].replies[j].createdAt <= cs[i].replies[k].createdAt)
  {
    var cs := Assemble(top, replies, profiles);
    forall i, j | 0 <= i < j < |cs| ensures cs[i].createdAt <= cs[j].createdAt {
      assert cs[i].createdAt == CreatedKey(top[i]) && cs[j].createdAt == CreatedKey(top[j]);
    }
    forall i, j, k | 0 <= i < |cs| && 0 <= j < k < |cs[i].replies|
      ensures cs[i].replies[j].createdAt <= cs[i].replies[k].createdAt
    {
      var ws := WithProfiles(replies[i], profiles);
      assert cs[i].replies == ws;
      assert ws[j].createdAt == CreatedKey(replies[i][j]) && ws[k].createdAt == CreatedKey(replies[i][k]);
    }
  }

  /** The list and every reply list are oldest first, as the two
      `.order('created_at', { ascending: true })` reads return them. */
  lemma CommentListInOrder(db: Db, issueId: string, f: LoadFaults)
    ensures var cs := CommentList(db, issueId, f);
      && (forall i, j :: 0 <= i < j < |cs| ==> cs[i].createdAt <= cs[j].createdAt)
      && (forall i, j, k :: 0 <= i < |cs| && 0 <= j < k < |cs[i].replies| ==>
            cs[i].replies[j].createdAt <= cs[i].replies[k].createdAt)
  {
    var top := TopLevel(db.comments, issueId);
    var replies := RepliesFor(db.comments, top, f.replies);
    var profiles := if f.profiles then [] else Filter(db.profiles, OfUsers(Authors(top, replies)));
    forall i | 0 <= i < |replies| ensures SortedAsc(replies[i], CreatedKey) {
      if top[i].id !in f.replies {
        assert replies[i] == RepliesTo(db.comments, top[i].id);
      }
    }
    AssembleKeepsOrder(top, replies, profiles);
  }

  /** A comment row is listed exactly when it is a top-level comment of the
      issue. */
  lemma ListedIffTopLevel(db: Db, issueId: string, f: LoadFaults, row: CommentRow)
    ensures (exists i :: 0 <= i < |CommentList(db, issueId, f)| && CommentList(db, issueId, f)[i].id == row.id
               && TopLevel(db.comments, issueId)[i] == row) <==>
      row in db.comments && row.issueId == Some(issueId) && row.parentId == None
  {
    var top := TopLevel(db.comments, issueId);
    if row in top {
      var i :| 0 <= i < |top| && top[i] == row;
      assert CommentList(db, issueId, f)[i].id == row.id;
    }
  }

  /** Every author gets their profile: the profile read, restricted to the
      authors, loses none of them. */
  lemma {:induction false} AuthorsKeepProfiles(profiles: seq<ProfileRow>, authors: set<string>, u: string)
    requires u in authors
    ensures LastProfile(Filter(profiles, OfUsers(authors)), u) == LastProfile(profiles, u)
    decreases |profiles|
  {
    if profiles != [] {
      var init := profiles[..|profiles| - 1];
      var last := profiles[|profiles| - 1];
      assert profiles == init + [last];
      FilterAppend(init, [last], OfUsers(authors));
      assert Filter([last], OfUsers(authors)) == (if last.userId in authors then [last] else []) + Filter([], OfUsers(authors));
      AuthorsKeepProfiles(init, authors, u);
      var sel := Filter(init, OfUsers(authors));
      if last.userId in authors {
        assert (sel + [last])[..|sel + [last]| - 1] == sel;
      } else {
        assert sel + [] == sel;
      }
    }
  }

  /** Every listed comment with rows shows its tally; with the unique
      constraint, the user's reaction and vote are the stored ones. */
  lemma ListedCommentsTallied(db: Db, all: seq<Comment>, u: string, c: Comment)
    requires c in all
    requires UniqueKeys(db.reactions) && UniqueKeys(db.votes)
    ensures var rs := ReactionsByComment(db.reactions, CommentIds(all), u);
      (c.id in rs <==> CountOn(db.reactions, c.id) > 0)
      && (c.id in rs ==> rs[c.id] == ReactionTally(db.reactions, c.id, u) && rs[c.id].userReaction == Stored(db.reactions, c.id, u))
    ensures var vs := VotesByComment(db.votes, CommentIds(all), u);
      (c.id in vs <==> CountOn(db.votes, c.id) > 0)
      && (c.id in vs ==> vs[c.id].up + vs[c.id].down == CountOn(db.votes, c.id))
  {
    assert c.id in CommentIds(all);
    LastKindIsStored(db.reactions, c.id, u);
  }

  /** The replies are aggregated as well: each reply of a listed comment is
      one of the comments whose records are loaded. */
  lemma RepliesAggregated(cs: seq<Comment>, i: nat, j: nat)
    requires i < |cs| && j < |cs[i].replies|
    ensures cs[i].replies[j].id in CommentIds(AllComments(cs))
    ensures cs[i].id in CommentIds(AllComments(cs))
  {
    var rs := seq(|cs|, k requires 0 <= k < |cs| => cs[k].replies);
    assert cs[i].replies[j] in rs[i];
    FlattenMembership(rs, cs[i].replies[j]);
    assert cs[i].replies[j] in AllComments(cs);
  }
}
