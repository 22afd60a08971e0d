/** `useCommentReactionMutation(issueId)`: toggles the signed-in user's
    reaction on a comment in the `comment_reactions` table (delete the held
    row, then insert the new kind), with the same optimistic update and
    rollback of the cached comment list as the vote mutation. */
module CommentReactionMutation {
  import opened Base
  import opened Tables
  import opened Counts
  import opened CommentTree
  import opened ServerToggle

  /** What `mutationFn` resolves to; `previousReaction` is only reported
      when a reaction was added. */
  datatype ReactionResult = ReactionResult(commentId: string, reactionType: string, removed: bool, previousReaction: Option<string>)

  function Report(res: Result<Toggled, Failure>, commentId: string, reactionType: string): Result<ReactionResult, Failure> {
    if res.Err? then Err(res.error)
    else if res.value.removed then Ok(ReactionResult(commentId, reactionType, true, None))
    else Ok(ReactionResult(commentId, reactionType, false, res.value.previous))
  }

  /** `mutationFn`: reject a missing user and an unknown kind before any
      table access, then toggle. */
  method MutationFn(commentReactions: Table, user: Option<string>, commentId: string, reactionType: string, f: Faults)
    returns (r: Result<ReactionResult, Failure>)
    requires commentReactions.Valid()
    modifies commentReactions
    ensures commentReactions.Valid()
    ensures var (res, rows) := ReplaceToggle(old(commentReactions.rows), user, commentId, reactionType, f);
      commentReactions.rows == rows && r == Report(res, commentId, reactionType)
  {
    var res := ToggleByReplace(commentReactions, user, commentId, reactionType, f);
    r := Report(res, commentId, reactionType);
  }

  /** The rejections happen before any table access. */
  lemma RejectionsTouchNothing(rows: seq<Row>, user: Option<string>, commentId: string, reactionType: string, f: Faults)
    requires user.None? || !IsReactionKind(reactionType)
    ensures ReplaceToggle(rows, user, commentId, reactionType, f) ==
      (Err(if user.None? then NotAuthenticated else InvalidReactionType(reactionType)), rows)
  {
  }

  function Optimistic(cached: Option<seq<Comment>>, commentId: string, reactionType: string): (r: Option<seq<Comment>>)
    ensures r.None? <==> cached.None?
    ensures r.Some? ==> |r.value| == |cached.value|
  {
    if cached.None? then None else Some(UpdateCommentReactions(cached.value, commentId, reactionType))
  }

  lemma RollbackRestores(cached: Option<seq<Comment>>, commentId: string, reactionType: string)
    ensures Rollback(Optimistic(cached, commentId, reactionType), cached) == cached
  {
  }

  method OnMutate(cache: CommentsCache, commentId: string, reactionType: string) returns (snapshot: Option<seq<Comment>>)
    modifies cache
    ensures snapshot == old(cache.comments)
    ensures cache.comments == Optimistic(old(cache.comments), commentId, reactionType)
    ensures cache.stale == old(cache.stale)
  {
    snapshot := cache.comments;
    cache.Set(Optimistic(cache.comments, commentId, reactionType));
  }

  method OnError(cache: CommentsCache, snapshot: Option<seq<Comment>>)
    modifies cache
    ensures cache.comments == Rollback(old(cache.comments), snapshot)
    ensures cache.stale == old(cache.stale)
  {
    if snapshot.Some? {
      cache.Set(snapshot);
    }
  }

  /** One attempt of the mutation with its callbacks. A failure restores
      the cache; the table may have lost the old reaction when the insert
      after the delete failed. */
  method Mutate(cache: CommentsCache, commentReactions: Table, user: Option<string>, commentId: string, reactionType: string, f: Faults)
    returns (r: Result<ReactionResult, Failure>)
    requires commentReactions.Valid()
    modifies cache, commentReactions
    ensures commentReactions.Valid()
    ensures var (res, rows) := ReplaceToggle(old(commentReactions.rows), user, commentId, reactionType, f);
      commentReactions.rows == rows && r == Report(res, commentId, reactionType)
    ensures r.Err? ==> cache.comments == old(cache.comments)
    ensures r.Ok? ==> cache.comments == Optimistic(old(cache.comments), commentId, reactionType) && cache.stale
  {
    var snapshot := OnMutate(cache, commentId, reactionType);
    r := MutationFn(commentReactions, user, commentId, reactionType, f);
    if r.Err? {
      OnError(cache, snapshot);
      RollbackRestores(old(cache.comments), commentId, reactionType);
    } else {
      cache.Invalidate();
    }
  }

  /** Withdrawing the held reaction: the tally of the table without the
      user's row is the edited count. */
  lemma AgreeOnRemoval(rows: seq<Row>, c: string, u: string, k: string, j: string)
    requires UniqueKeys(rows) && Stored(rows, c, u) == Some(k)
    ensures ToggleReaction(Reactions(ReactionTally(rows, c, u).counts, Some(k)), k).Get(j) ==
      (if IsReactionKind(j) then CountKind(DeleteKey(rows, c, u), c, j) else ReactionTally(rows, c, u).Get(j))
  {
    CountAfterDelete(rows, c, u, c, j);
    CountAfterDelete(rows, c, u, c, k);
  }

  /** Switching from held reaction p: the tally of the table with the
      user's row replaced is the edited count. */
  lemma AgreeOnSwitch(rows: seq<Row>, c: string, u: string, p: string, k: string, j: string)
    requires UniqueKeys(rows) && Stored(rows, c, u) == Some(p) && p != k && p != ""
    requires IsReactionKind(j)
    ensures ToggleReaction(Reactions(ReactionTally(rows, c, u).counts, Some(p)), k).Get(j) ==
      CountKind(DeleteKey(rows, c, u) + [Row(c, u, k)], c, j)
  {
    CountAfterDelete(rows, c, u, c, j);
    CountAfterDelete(rows, c, u, c, p);
    CountKindAppend(DeleteKey(rows, c, u), [Row(c, u, k)], c, j);
  }

  /** Adding a first reaction: the tally of the table with the new row is
      the edited count. */
  lemma AgreeOnAdd(rows: seq<Row>, c: string, u: string, k: string, j: string)
    requires IsReactionKind(j)
    ensures ToggleReaction(Reactions(ReactionTally(rows, c, u).counts, None), k).Get(j) ==
      CountKind(rows + [Row(c, u, k)], c, j)
  {
    CountKindAppend(rows, [Row(c, u, k)], c, j);
  }

  /** Per offered kind, the tally after the toggle is the edited count. */
  lemma AgreeOnCount(rows: seq<Row>, c: string, u: string, k: string, j: string)
    requires UniqueKeys(rows) && IsReactionKind(k) && IsReactionKind(j)
    requires KindsOn(rows, c, {"heart", "like", "laugh", "angry"})
    ensures ToggleReaction(ReactionTally(rows, c, u), k).Get(j) ==
      CountKind(ReplaceToggle(rows, Some(u), c, k, NO_FAULTS).1, c, j)
  {
    var stored := Stored(rows, c, u);
    var before := ReactionTally(rows, c, u);
    ReplaceToggleRows(rows, c, u, k);
    StoredKindOn(rows, c, u, {"heart", "like", "laugh", "angry"});
    LastKindIsStored(rows, c, u);
    assert before == Reactions(before.counts, stored);
    if stored == Some(k) {
      AgreeOnRemoval(rows, c, u, k, j);
    } else if stored.Some? {
      AgreeOnSwitch(rows, c, u, stored.value, k, j);
    } else {
      AgreeOnAdd(rows, c, u, k, j);
    }
  }

  /** The optimistic edit predicts the server: when the cached reactions
      record of the comment is the tally of the table, the tally after a
      fault-free toggle of an offered kind is the edited record. */
  lemma OptimisticAgreesWithServer(rows: seq<Row>, c: string, u: string, k: string)
    requires UniqueKeys(rows) && IsReactionKind(k)
    requires KindsOn(rows, c, {"heart", "like", "laugh", "angry"})
    ensures ToggleReaction(ReactionTally(rows, c, u), k) ==
      ReactionTally(ReplaceToggle(rows, Some(u), c, k, NO_FAULTS).1, c, u)
  {
    AgreeOnUserReaction(rows, c, u, k);
    AgreeOnCounts(rows, c, u, k);
  }

  /** The optimistic edit predicts the user's own reaction. */
  lemma AgreeOnUserReaction(rows: seq<Row>, c: string, u: string, k: string)
    requires UniqueKeys(rows) && IsReactionKind(k)
    requires KindsOn(rows, c, {"heart", "like", "laugh", "angry"})
    ensures ToggleReaction(ReactionTally(rows, c, u), k).userReaction ==
      ReactionTally(ReplaceToggle(rows, Some(u), c, k, NO_FAULTS).1, c, u).userReaction
  {
    var after := ReplaceToggle(rows, Some(u), c, k, NO_FAULTS).1;
    TogglesKeepUnique(rows, Some(u), c, k, NO_FAULTS);
    LastKindIsStored(rows, c, u);
    LastKindIsStored(after, c, u);
    ReplaceToggleEffect(rows, u, c, k, c, u);
  }

  /** The optimistic edit predicts every count. */
  lemma AgreeOnCounts(rows: seq<Row>, c: string, u: string, k: string)
    requires UniqueKeys(rows) && IsReactionKind(k)
    requires KindsOn(rows, c, {"heart", "like", "laugh", "angry"})
    ensures ToggleReaction(ReactionTally(rows, c, u), k).counts ==
      ReactionTally(ReplaceToggle(rows, Some(u), c, k, NO_FAULTS).1, c, u).counts
  {
    var edited := ToggleReaction(ReactionTally(rows, c, u), k);
    var tally := ReactionTally(ReplaceToggle(rows, Some(u), c, k, NO_FAULTS).1, c, u);
    AgreeOnKinds(rows, c, u, k);
    forall j | IsReactionKind(j) ensures edited.Get(j) == tally.Get(j) {
      AgreeOnCount(rows, c, u, k, j);
    }
    SameOfferedCounts(edited, tally);
  }

  /** Two records over the offered kinds with the same count for each
      have the same counts. */
  lemma SameOfferedCounts(a: Reactions, b: Reactions)
    requires a.counts.Keys == ZeroCounts().Keys == b.counts.Keys
    requires forall k :: IsReactionKind(k) ==> a.Get(k) == b.Get(k)
    ensures a.counts == b.counts
  {
    forall j | j in a.counts ensures a.counts[j] == b.counts[j] {
      assert IsReactionKind(j) && a.Get(j) == b.Get(j);
    }
  }

  /** The edited record counts the same kinds as the tally: the four
      offered ones. */
  lemma AgreeOnKinds(rows: seq<Row>, c: string, u: string, k: string)
    requires UniqueKeys(rows) && IsReactionKind(k)
    requires KindsOn(rows, c, {"heart", "like", "laugh", "angry"})
    ensures ToggleReaction(ReactionTally(rows, c, u), k).counts.Keys == ZeroCounts().Keys
  {
    var before := ReactionTally(rows, c, u);
    LastKindIsStored(rows, c, u);
    StoredKindOn(rows, c, u, {"heart", "like", "laugh", "angry"});
    var held := before.userReaction;
    assert held.Some? ==> IsReactionKind(held.value);
    ToggleKeepsOfferedKinds(before, k);
  }

  /** Toggling an offered kind on a record over the offered kinds, whose
      held reaction is offered, keeps the same kinds. */
  lemma ToggleKeepsOfferedKinds(r: Reactions, k: string)
    requires r.counts.Keys == ZeroCounts().Keys && IsReactionKind(k)
    requires r.userReaction.Some? ==> IsReactionKind(r.userReaction.value)
    ensures ToggleReaction(r, k).counts.Keys == ZeroCounts().Keys
  {
    var edited := ToggleReaction(r, k);
    forall j | j in edited.counts ensures j in ZeroCounts() {
      assert IsReactionKind(j);
    }
  }
}
