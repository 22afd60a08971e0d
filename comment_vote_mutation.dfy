/** `useCommentVoteMutation(issueId)`: toggles the signed-in user's vote on
    a comment in the `comment_votes` table, updating the cached comment list
    optimistically first and restoring it if the mutation fails. */
module CommentVoteMutation {
  import opened Base
  import opened Tables
  import opened Counts
  import opened CommentTree
  import opened ServerToggle

  /** What `mutationFn` resolves to. */
  datatype VoteResult = VoteResult(commentId: string, voteType: VoteType, removed: bool)

  /** The mutation's outcome as its spec: the toggle on the table, reported
      with the comment id and vote kind. */
  function Report(res: Result<Toggled, Failure>, commentId: string, voteType: VoteType): Result<VoteResult, Failure> {
    if res.Ok? then Ok(VoteResult(commentId, voteType, res.value.removed)) else Err(res.error)
  }

  /** `mutationFn`: look up the user's vote on the comment, delete it when
      it is the requested kind, upsert the requested kind otherwise. */
  method MutationFn(commentVotes: Table, user: Option<string>, commentId: string, voteType: VoteType, f: Faults)
    returns (r: Result<VoteResult, Failure>)
    requires commentVotes.Valid()
    modifies commentVotes
    ensures commentVotes.Valid()
    ensures var (res, rows) := UpsertToggle(old(commentVotes.rows), user, commentId, voteType.Name(), f);
      commentVotes.rows == rows && r == Report(res, commentId, voteType)
  {
    var res := ToggleByUpsert(commentVotes, user, commentId, voteType.Name(), f);
    r := Report(res, commentId, voteType);
  }

  /** The `onMutate` cache update: an absent list stays absent, a present
      one receives `updateCommentVotes`. */
  function Optimistic(cached: Option<seq<Comment>>, commentId: string, voteType: VoteType): (r: Option<seq<Comment>>)
    ensures r.None? <==> cached.None?
    ensures r.Some? ==> |r.value| == |cached.value|
  {
    if cached.None? then None else Some(UpdateCommentVotes(cached.value, commentId, voteType))
  }

  /** Rolling back with the snapshot taken before the optimistic update
      restores the cache exactly, whether or not it held a list. */
  lemma RollbackRestores(cached: Option<seq<Comment>>, commentId: string, voteType: VoteType)
    ensures Rollback(Optimistic(cached, commentId, voteType), cached) == cached
  {
  }

  /** `onMutate`: snapshot the cached list, then update it optimistically. */
  method OnMutate(cache: CommentsCache, commentId: string, voteType: VoteType) returns (snapshot: Option<seq<Comment>>)
    modifies cache
    ensures snapshot == old(cache.comments)
    ensures cache.comments == Optimistic(old(cache.comments), commentId, voteType)
    ensures cache.stale == old(cache.stale)
  {
    snapshot := cache.comments;
    cache.Set(Optimistic(cache.comments, commentId, voteType));
  }

  /** `onError`. */
  method OnError(cache: CommentsCache, snapshot: Option<seq<Comment>>)
    modifies cache
    ensures cache.comments == Rollback(old(cache.comments), snapshot)
    ensures cache.stale == old(cache.stale)
  {
    if snapshot.Some? {
      cache.Set(snapshot);
    }
  }

  /** One attempt of the mutation with its callbacks: on failure both the
      table and the cache are as they were; on success the cache holds the
      optimistic list and is marked for refetch. */
  method Mutate(cache: CommentsCache, commentVotes: Table, user: Option<string>, commentId: string, voteType: VoteType, f: Faults)
    returns (r: Result<VoteResult, Failure>)
    requires commentVotes.Valid()
    modifies cache, commentVotes
    ensures commentVotes.Valid()
    ensures r == Report(UpsertToggle(old(commentVotes.rows), user, commentId, voteType.Name(), f).0, commentId, voteType)
    ensures commentVotes.rows == UpsertToggle(old(commentVotes.rows), user, commentId, voteType.Name(), f).1
    ensures r.Err? ==> cache.comments == old(cache.comments) && commentVotes.rows == old(commentVotes.rows)
    ensures r.Ok? ==> cache.comments == Optimistic(old(cache.comments), commentId, voteType) && cache.stale
  {
    var snapshot := OnMutate(cache, commentId, voteType);
    r := MutationFn(commentVotes, user, commentId, voteType, f);
    if r.Err? {
      UpsertToggleFailureUnchanged(old(commentVotes.rows), user, commentId, voteType.Name(), f);
      OnError(cache, snapshot);
      RollbackRestores(old(cache.comments), commentId, voteType);
    } else {
      cache.Invalidate();
    }
  }

  /** The optimistic edit predicts the server: when the cached votes record
      of the comment is the tally of the table, the tally after a fault-free
      toggle is the optimistically edited record. */
  lemma OptimisticAgreesWithServer(rows: seq<Row>, c: string, u: string, t: VoteType)
    requires UniqueKeys(rows) && KindsOn(rows, c, {"up", "down"})
    ensures ToggleVote(VoteTally(rows, c, u), t) ==
      VoteTally(UpsertToggle(rows, Some(u), c, t.Name(), NO_FAULTS).1, c, u)
  {
    if Stored(rows, c, u) == Some(t.Name()) {
      AgreesAfterDelete(rows, c, u, t);
    } else {
      AgreesAfterUpsert(rows, c, u, t);
    }
  }

  /** Clicking the kind already stored: the row is deleted. */
  lemma AgreesAfterDelete(rows: seq<Row>, c: string, u: string, t: VoteType)
    requires UniqueKeys(rows) && KindsOn(rows, c, {"up", "down"})
    requires Stored(rows, c, u) == Some(t.Name())
    ensures ToggleVote(VoteTally(rows, c, u), t) ==
      VoteTally(UpsertToggle(rows, Some(u), c, t.Name(), NO_FAULTS).1, c, u)
  {
    CurrentIsStored(rows, c, u);
    StoredKindOn(rows, c, u, {"up", "down"});
    LastKindIsStored(rows, c, u);
    TogglesKeepUnique(rows, Some(u), c, t.Name(), NO_FAULTS);
    LastKindIsStored(UpsertToggle(rows, Some(u), c, t.Name(), NO_FAULTS).1, c, u);
    UpsertToggleEffect(rows, u, c, t.Name(), c, u);
    CountOnUpDown(rows, c);
    CountAfterDelete(rows, c, u, c, "up");
    CountAfterDelete(rows, c, u, c, "down");
    CountOnAfterDelete(rows, c, u, c);
  }

  /** Clicking another kind, or the first vote: the row is upserted. */
  lemma AgreesAfterUpsert(rows: seq<Row>, c: string, u: string, t: VoteType)
    requires UniqueKeys(rows) && KindsOn(rows, c, {"up", "down"})
    requires Stored(rows, c, u) != Some(t.Name())
    ensures ToggleVote(VoteTally(rows, c, u), t) ==
      VoteTally(UpsertToggle(rows, Some(u), c, t.Name(), NO_FAULTS).1, c, u)
  {
    UpsertedUserVote(rows, c, u, t);
    UpsertedCounts(rows, c, u, t);
  }

  /** After the upsert the user's vote is the clicked kind. */
  lemma UpsertedUserVote(rows: seq<Row>, c: string, u: string, t: VoteType)
    requires UniqueKeys(rows) && KindsOn(rows, c, {"up", "down"})
    requires Stored(rows, c, u) != Some(t.Name())
    ensures ToggleVote(VoteTally(rows, c, u), t).userVote ==
      VoteTally(UpsertToggle(rows, Some(u), c, t.Name(), NO_FAULTS).1, c, u).userVote
  {
    CurrentIsStored(rows, c, u);
    StoredKindOn(rows, c, u, {"up", "down"});
    LastKindIsStored(rows, c, u);
    TogglesKeepUnique(rows, Some(u), c, t.Name(), NO_FAULTS);
    LastKindIsStored(UpsertToggle(rows, Some(u), c, t.Name(), NO_FAULTS).1, c, u);
    UpsertToggleEffect(rows, u, c, t.Name(), c, u);
  }

  /** After the upsert the clicked kind counts one more, and a vote the
      user held before counts one less. */
  lemma UpsertedCounts(rows: seq<Row>, c: string, u: string, t: VoteType)
    requires UniqueKeys(rows) && KindsOn(rows, c, {"up", "down"})
    requires Stored(rows, c, u) != Some(t.Name())
    ensures ToggleVote(VoteTally(rows, c, u), t).up ==
      VoteTally(UpsertToggle(rows, Some(u), c, t.Name(), NO_FAULTS).1, c, u).up
    ensures ToggleVote(VoteTally(rows, c, u), t).down ==
      VoteTally(UpsertToggle(rows, Some(u), c, t.Name(), NO_FAULTS).1, c, u).down
  {
    CurrentIsStored(rows, c, u);
    StoredKindOn(rows, c, u, {"up", "down"});
    LastKindIsStored(rows, c, u);
    UpsertToggleEffect(rows, u, c, t.Name(), c, u);
    CountOnUpDown(rows, c);
    CountAfterUpsert(rows, c, u, t.Name(), c, "up");
    CountAfterUpsert(rows, c, u, t.Name(), c, "down");
    CountOnAfterUpsert(rows, c, u, t.Name(), c);
  }
}
