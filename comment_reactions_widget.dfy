/** `CommentReactions`: the reaction buttons under one comment. The counts
    come either from the parent (`reactions` prop) or from the comment's
    rows; a click is handed to the parent's `onReaction` when there is one,
    and is otherwise written to `comment_reactions` and applied locally. */
module CommentReactionsWidget {
  import opened Base
  import opened Lists
  import opened Tables
  import opened Counts
  import opened ServerToggle
  import opened LocalReactions
  import PlatformComments

  /** The counts shown for a record from the parent: each offered kind,
      with a missing (or zero) count shown as 0. */
  function ExternalCounts(ext: Reactions): (m: map<string, int>)
    ensures m.Keys == ZeroCounts().Keys
    ensures forall k :: IsReactionKind(k) ==> m[k] == ext.Get(k)
  {
    map["heart" := ext.Get("heart"), "like" := ext.Get("like"), "laugh" := ext.Get("laugh"), "angry" := ext.Get("angry")]
  }

  /** `externalReactions.userReaction || null`. */
  function ExternalUserReaction(ext: Reactions): (r: Option<string>)
    ensures r == None || r == ext.userReaction
    ensures r.Some? <==> Truthy(ext.userReaction)
  {
    if Truthy(ext.userReaction) then ext.userReaction else None
  }

  /** Showing the shown record again changes nothing. */
  lemma ExternalViewIdempotent(ext: Reactions)
    ensures var shown := Reactions(ExternalCounts(ext), ExternalUserReaction(ext));
      ExternalCounts(shown) == shown.counts && ExternalUserReaction(shown) == shown.userReaction
  {
    var shown := Reactions(ExternalCounts(ext), ExternalUserReaction(ext));
    assert forall k :: k in shown.counts ==> IsReactionKind(k);
  }

  /** The counting loop over the rows of one comment: offered kinds only,
      and the kind of the user's last row. */
  method CountOffered(rows: seq<Row>, c: string, user: Option<string>) returns (counts: map<string, int>, mine: Option<string>)
    requires forall i :: 0 <= i < |rows| ==> rows[i].target == c
    ensures counts.Keys == ZeroCounts().Keys
    ensures forall k :: IsReactionKind(k) ==> counts[k] == CountKind(rows, c, k)
    ensures mine == if user.Some? then LastKind(rows, c, user.value) else None
  {
    counts := ZeroCounts();
    mine := None;
    var i := 0;
    while i < |rows|
      invariant 0 <= i <= |rows|
      invariant CountedOffered(rows[..i], c, user, counts, mine)
    {
      var r := rows[i];
      assert rows[..i + 1] == rows[..i] + [r];
      CountedOfferedStep(rows[..i], r, c, user, counts, mine);
      counts := if IsReactionKind(r.kind) then counts[r.kind := counts[r.kind] + 1] else counts;
      mine := if user.Some? && r.user == user.value then Some(r.kind) else mine;
      i := i + 1;
    }
    assert rows[..|rows|] == rows;
  }

  /** The rows selected for one comment count and end as that comment's
      rows in the whole table do. */
  lemma SelectedCounts(table: seq<Row>, c: string, user: Option<string>)
    ensures forall k :: CountKind(Filter(table, PlatformComments.OnTargets({c})), c, k) == CountKind(table, c, k)
    ensures user.Some? ==> LastKind(Filter(table, PlatformComments.OnTargets({c})), c, user.value) == LastKind(table, c, user.value)
  {
    PlatformComments.SelectedRows(table, {c}, c, if user.Some? then user.value else "");
  }

  class CommentReactionsState {
    var reactions: map<string, int>
    var userReaction: Option<string>
    var loading: bool

    constructor ()
      ensures reactions == ZeroCounts() && userReaction == None && !loading
    {
      reactions := ZeroCounts();
      userReaction := None;
      loading := false;
    }

    function Shown(): Reactions
      reads this
    {
      Reactions(reactions, userReaction)
    }

    /** The effect for a record from the parent. */
    method UseExternal(ext: Reactions)
      modifies this
      ensures reactions == ExternalCounts(ext) && userReaction == ExternalUserReaction(ext)
      ensures loading == old(loading)
    {
      reactions := map["heart" := ext.Get("heart"), "like" := ext.Get("like"), "laugh" := ext.Get("laugh"), "angry" := ext.Get("angry")];
      userReaction := if Truthy(ext.userReaction) then ext.userReaction else None;
    }

    /** `loadReactions`: the comment's rows are counted, offered kinds only;
        a row of the signed-in user sets the user's reaction, the last one
        winning, and without such a row the reaction shown before stays. A
        failed read changes nothing. */
    method LoadReactions(table: seq<Row>, commentId: string, user: Option<string>, fails: bool)
      modifies this
      ensures loading == old(loading)
      ensures fails ==> reactions == old(reactions) && userReaction == old(userReaction)
      ensures !fails ==> (
        && reactions.Keys == ZeroCounts().Keys
        && (forall k :: IsReactionKind(k) ==> reactions[k] == CountKind(table, commentId, k))
        && userReaction == (if user.Some? && LastKind(table, commentId, user.value).Some?
                            then LastKind(table, commentId, user.value) else old(userReaction)))
    {
      if fails {
        return;
      }
      var rows := Filter(table, PlatformComments.OnTargets({commentId}));
      assert forall i :: 0 <= i < |rows| ==> rows[i].target in {commentId};
      var counts, mine := CountOffered(rows, commentId, user);
      SelectedCounts(table, commentId, user);
      if mine.Some? {
        userReaction := mine;
      }
      reactions := counts;
    }

    /** `handleReaction`: a parent handler takes the click and nothing else
        happens; otherwise, with a user and no click in flight, the table
        is written and the shown record toggles, and `loading` ends false.
        The writes' errors are not looked at. */
    method HandleReaction(table: Table, user: Option<string>, commentId: string, reactionType: string, external: bool, f: Faults)
      returns (delegated: bool)
      requires table.Valid()
      modifies this, table
      ensures table.Valid()
      ensures delegated == external
      ensures external || user.None? || old(loading) ==> (
        && reactions == old(reactions) && userReaction == old(userReaction) && loading == old(loading)
        && table.rows == old(table.rows))
      ensures !external && user.Some? && !old(loading) ==> (
        && Shown() == ToggleReaction(old(Shown()), reactionType)
        && !loading
        && table.rows == ClickRows(old(table.rows), commentId, user.value, reactionType, old(userReaction), f))
    {
      if external {
        return true;
      }
      delegated := false;
      if user.None? || loading {
        return;
      }
      loading := true;
      WriteClick(table, commentId, user.value, reactionType, userReaction, f);
      if userReaction == Some(reactionType) {
        userReaction := None;
        reactions := reactions[reactionType := Max(0, (if reactionType in reactions then reactions[reactionType] else 0) - 1)];
      } else {
        if Truthy(userReaction) {
          var held := userReaction.value;
          reactions := reactions[held := Max(0, (if held in reactions then reactions[held] else 0) - 1)];
        }
        userReaction := Some(reactionType);
        reactions := reactions[reactionType := (if reactionType in reactions then reactions[reactionType] else 0) + 1];
      }
      loading := false;
    }
  }

  /** Loading and then clicking: with the table keeping one row per user,
      offered kinds only, a load shows the table, and a click without
      faults keeps the shown record and the table in agreement. */
  lemma LoadedThenClicked(rows: seq<Row>, c: string, u: string, k: string)
    requires UniqueKeys(rows) && KindsOn(rows, c, OFFERED) && IsReactionKind(k)
    ensures var shown := ReactionTally(rows, c, u);
      InStep(shown, rows, c, u)
      && InStep(ToggleReaction(shown, k), ClickRows(rows, c, u, k, shown.userReaction, NO_FAULTS), c, u)
  {
    LastKindIsStored(rows, c, u);
    ClickKeepsInStep(ReactionTally(rows, c, u), rows, c, u, k);
  }
}
