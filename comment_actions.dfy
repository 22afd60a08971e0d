/** `useCommentActionsMutations`: the comment form and the vote and reaction
    buttons of the platform comments. Submissions are guarded by the
    `submitting` flag; votes and reactions by a per-action key in the
    `actionInProgress` map, set while the mutation runs and cleared after. */
module CommentActions {
  import opened Base
  import opened Strings
  import opened Tables
  import opened CommentTree
  import opened ServerToggle
  import CommentVoteMutation
  import CommentReactionMutation

  /** A row of `platform_comments` as the form inserts it. */
  datatype NewComment = NewComment(issueId: Option<string>, userId: string, content: string, parentId: Option<string>)

  /** The `platform_comments` table, as far as the form writes to it. */
  class CommentRows {
    var rows: seq<NewComment>

    constructor ()
      ensures rows == []
    {
      rows := [];
    }

    /** `insert`: the row is appended unless the call fails. */
    method Insert(row: NewComment, fault: Option<DbError>) returns (err: Option<DbError>)
      modifies this
      ensures err == fault
      ensures rows == if fault.Some? then old(rows) else old(rows) + [row]
    {
      err := fault;
      if fault.None? {
        rows := rows + [row];
      }
    }
  }

  /** The guard key of a vote on a comment. */
  function VoteKey(commentId: string): string {
    "vote-" + commentId
  }

  /** The guard key of a reaction of one kind on a comment. */
  function ReactionKey(commentId: string, reactionType: string): string {
    "reaction-" + commentId + "-" + reactionType
  }

  /** An action is in flight when its key maps to `true`. */
  predicate InFlight(flags: map<string, bool>, key: string) {
    key in flags && flags[key]
  }

  /** Whether a submission passes the guard of `handleSubmit` and
      `handleSubmitReply`. */
  predicate MaySubmit(user: Option<string>, content: string, submitting: bool) {
    user.Some? && Trim(content) != "" && !submitting
  }

  /** The hook's state. `refreshes` counts the calls of `onCommentsChange`. */
  class CommentActionsState {
    var submitting: bool
    var replyTo: Option<string>
    var actionInProgress: map<string, bool>
    var refreshes: nat

    constructor ()
      ensures !submitting && replyTo == None && actionInProgress == map[] && refreshes == 0
    {
      submitting := false;
      replyTo := None;
      actionInProgress := map[];
      refreshes := 0;
    }

    /** `handleSubmit`: with a user, a non-blank text and no submission
        running, insert the trimmed text as a top-level comment; true
        exactly when the insert succeeded, which also refreshes the list.
        `submitting` is false afterwards either way. */
    method HandleSubmit(table: CommentRows, user: Option<string>, issueId: Option<string>, content: string, fault: Option<DbError>)
      returns (ok: bool)
      modifies this, table
      ensures !MaySubmit(user, content, old(submitting)) ==>
        !ok && table.rows == old(table.rows) && submitting == old(submitting) && refreshes == old(refreshes)
      ensures MaySubmit(user, content, old(submitting)) ==>
        && ok == fault.None?
        && !submitting
        && table.rows == (if ok then old(table.rows) + [NewComment(issueId, user.value, Trim(content), None)] else old(table.rows))
        && refreshes == (if ok then old(refreshes) + 1 else old(refreshes))
      ensures replyTo == old(replyTo) && actionInProgress == old(actionInProgress)
    {
      var text := Trim(content);
      if user.None? || text == "" || submitting {
        return false;
      }
      submitting := true;
      var err := table.Insert(NewComment(issueId, user.value, text, None), fault);
      ok := false;
      if err.None? {
        refreshes := refreshes + 1;
        ok := true;
      }
      submitting := false;
    }

    /** `handleSubmitReply`: as `handleSubmit`, storing the parent id as
        well; a stored reply also closes the reply form. */
    method HandleSubmitReply(table: CommentRows, user: Option<string>, issueId: Option<string>, parentId: string, content: string, fault: Option<DbError>)
      returns (ok: bool)
      modifies this, table
      ensures !MaySubmit(user, content, old(submitting)) ==>
        !ok && table.rows == old(table.rows) && submitting == old(submitting)
        && refreshes == old(refreshes) && replyTo == old(replyTo)
      ensures MaySubmit(user, content, old(submitting)) ==>
        && ok == fault.None?
        && !submitting
        && table.rows == (if ok then old(table.rows) + [NewComment(issueId, user.value, Trim(content), Some(parentId))] else old(table.rows))
        && refreshes == (if ok then old(refreshes) + 1 else old(refreshes))
        && replyTo == (if ok then None else old(replyTo))
      ensures actionInProgress == old(actionInProgress)
    {
      var text := Trim(content);
      if user.None? || text == "" || submitting {
        return false;
      }
      submitting := true;
      var err := table.Insert(NewComment(issueId, user.value, text, Some(parentId)), fault);
      ok := false;
      if err.None? {
        replyTo := None;
        refreshes := refreshes + 1;
        ok := true;
      }
      submitting := false;
    }

    /** `handleVote`: with a user and no vote on the comment in flight, run
        the comment vote mutation under the key `vote-<id>`, then clear the
        key whether the mutation failed or not. */
    method HandleVote(cache: CommentsCache, votes: Table, user: Option<string>, commentId: string, voteType: VoteType, f: Faults)
      requires votes.Valid()
      modifies this, cache, votes
      ensures votes.Valid()
      ensures user.None? || InFlight(old(actionInProgress), VoteKey(commentId)) ==>
        && actionInProgress == old(actionInProgress)
        && votes.rows == old(votes.rows) && cache.comments == old(cache.comments)
      ensures user.Some? && !InFlight(old(actionInProgress), VoteKey(commentId)) ==>
        var (res, rows) := UpsertToggle(old(votes.rows), user, commentId, voteType.Name(), f);
        && actionInProgress == old(actionInProgress)[VoteKey(commentId) := false]
        && votes.rows == rows
        && cache.comments == (if res.Ok? then CommentVoteMutation.Optimistic(old(cache.comments), commentId, voteType) else old(cache.comments))
      ensures submitting == old(submitting) && replyTo == old(replyTo) && refreshes == old(refreshes)
    {
      if user.None? {
        return;
      }
      var key := VoteKey(commentId);
      if key in actionInProgress && actionInProgress[key] {
        return;
      }
      actionInProgress := actionInProgress[key := true];
      var r := CommentVoteMutation.Mutate(cache, votes, user, commentId, voteType, f);
      actionInProgress := actionInProgress[key := false];
    }

    /** `handleReaction`: the same guard under the key
        `reaction-<id>-<kind>`, around the comment reaction mutation. */
    method HandleReaction(cache: CommentsCache, reactions: Table, user: Option<string>, commentId: string, reactionType: string, f: Faults)
      requires reactions.Valid()
      modifies this, cache, reactions
      ensures reactions.Valid()
      ensures user.None? || InFlight(old(actionInProgress), ReactionKey(commentId, reactionType)) ==>
        && actionInProgress == old(actionInProgress)
        && reactions.rows == old(reactions.rows) && cache.comments == old(cache.comments)
      ensures user.Some? && !InFlight(old(actionInProgress), ReactionKey(commentId, reactionType)) ==>
        var (res, rows) := ReplaceToggle(old(reactions.rows), user, commentId, reactionType, f);
        && actionInProgress == old(actionInProgress)[ReactionKey(commentId, reactionType) := false]
        && reactions.rows == rows
        && cache.comments == (if res.Ok? then CommentReactionMutation.Optimistic(old(cache.comments), commentId, reactionType) else old(cache.comments))
      ensures submitting == old(submitting) && replyTo == old(replyTo) && refreshes == old(refreshes)
    {
      if user.None? {
        return;
      }
      var key := ReactionKey(commentId, reactionType);
      if key in actionInProgress && actionInProgress[key] {
        return;
      }
      actionInProgress := actionInProgress[key := true];
      var r := CommentReactionMutation.Mutate(cache, reactions, user, commentId, reactionType, f);
      actionInProgress := actionInProgress[key := false];
    }
  }

  // ----------------------------------------------------------------- lemmas

  /** A stored comment text is never blank and carries no white space at
      either end, and storing it again would not change it. */
  lemma StoredContentIsTrimmed(content: string)
    requires Trim(content) != ""
    ensures var c := Trim(content);
      !IsSpace(c[0]) && !IsSpace(c[|c| - 1]) && Trim(c) == c
  {
    TrimmedEdges(content);
    TrimIdempotent(content);
  }

  /** The guard turns away exactly the blank texts. */
  lemma BlankContentRejected(user: Option<string>, content: string, submitting: bool)
    ensures AllSpace(content) ==> !MaySubmit(user, content, submitting)
    ensures user.Some? && !submitting && !AllSpace(content) ==> MaySubmit(user, content, submitting)
  {
    TrimEmptyIff(content);
  }

  /** A vote key and a reaction key never coincide, so a vote in flight
      never blocks a reaction or the other way round. */
  lemma VoteAndReactionKeysDiffer(c1: string, c2: string, kind: string)
    ensures VoteKey(c1) != ReactionKey(c2, kind)
  {
    assert VoteKey(c1)[0] == 'v';
    assert ReactionKey(c2, kind)[0] == 'r';
  }

  /** On one comment, reaction keys of different kinds differ: a reaction
      in flight blocks only a repeat of the same kind. */
  lemma ReactionKeysPerKind(commentId: string, k1: string, k2: string)
    requires k1 != k2
    ensures ReactionKey(commentId, k1) != ReactionKey(commentId, k2)
  {
    var p := "reaction-" + commentId + "-";
    assert ReactionKey(commentId, k1) == p + k1;
    assert ReactionKey(commentId, k2) == p + k2;
    assert (p + k1)[|p|..] == k1 && (p + k2)[|p|..] == k2;
  }

  /** Vote keys of different comments differ. */
  lemma VoteKeysPerComment(c1: string, c2: string)
    requires c1 != c2
    ensures VoteKey(c1) != VoteKey(c2)
  {
    assert VoteKey(c1)[5..] == c1 && VoteKey(c2)[5..] == c2;
  }

  /** A reaction key ends with '-' followed by the kind. */
  lemma KeyLayout(c: string, k: string)
    ensures var s := ReactionKey(c, k);
      |s| == 10 + |c| + |k| && s[|s| - |k| - 1] == '-' && s[|s| - |k|..] == k && s[9..|s| - |k| - 1] == c
  {
  }

  /** With kinds free of '-', as the four offered kinds are, a reaction key
      names one (comment, kind) pair. */
  lemma {:induction false} ReactionKeyInjective(c1: string, k1: string, c2: string, k2: string)
    requires '-' !in k1 && '-' !in k2
    requires ReactionKey(c1, k1) == ReactionKey(c2, k2)
    ensures c1 == c2 && k1 == k2
  {
    var s := ReactionKey(c1, k1);
    assert s == "reaction-" + c1 + "-" + k1;
    assert s == "reaction-" + c2 + "-" + k2;
    KeyLayout(c1, k1);
    KeyLayout(c2, k2);
    if |k1| < |k2| {
      assert false;
    } else if |k2| < |k1| {
      assert false;
    }
    assert k1 == s[|s| - |k1|..];
    assert k2 == s[|s| - |k2|..];
    assert c1 == s[9..|s| - |k1| - 1];
    assert c2 == s[9..|s| - |k2| - 1];
  }
}
