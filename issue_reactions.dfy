/** `IssueReactions`: the reaction buttons of an issue, over
    `issue_reactions`. The count loop increments `counts[kind]` for every
    row, so a kind outside the four offered ones gets a `NaN` entry; the
    model keeps those kinds as a set. The click is the one the comment
    buttons share, guarded also by the issue id. */
module IssueReactions {
  import opened Base
  import opened Lists
  import opened Tables
  import opened Counts
  import opened ServerToggle
  import opened LocalReactions
  import PlatformComments

  /** The counting loop over the rows of one issue: every offered kind is
      counted, every other kind is recorded as turned `NaN`, and the user's
      last row gives their kind. */
  method CountAll(rows: seq<Row>, t: string, user: Option<string>)
    returns (counts: map<string, int>, nan: set<string>, mine: Option<string>)
    requires forall i :: 0 <= i < |rows| ==> rows[i].target == t
    ensures counts.Keys == ZeroCounts().Keys
    ensures forall k :: IsReactionKind(k) ==> counts[k] == CountKind(rows, t, k)
    ensures nan == UnknownKinds(rows, t)
    ensures mine == if user.Some? then LastKind(rows, t, user.value) else None
  {
    counts := ZeroCounts();
    nan := {};
    mine := None;
    var i := 0;
    while i < |rows|
      invariant 0 <= i <= |rows|
      invariant CountedUpTo(rows[..i], t, user, counts, nan, mine)
    {
      var r := rows[i];
      assert rows[..i + 1] == rows[..i] + [r];
      CountStep(rows[..i], r, t, user, counts, nan, mine);
      // `counts[kind]++`: an offered kind is counted, any other turns NaN.
      counts := if IsReactionKind(r.kind) then counts[r.kind := counts[r.kind] + 1] else counts;
      nan := if IsReactionKind(r.kind) then nan else nan + {r.kind};
      mine := if user.Some? && r.user == user.value then Some(r.kind) else mine;
      i := i + 1;
    }
    assert rows[..|rows|] == rows;
  }

  /** The loop's state after the rows `done`: the count of each offered
      kind, the unknown kinds, and the kind of the user's last row. */
  ghost predicate CountedUpTo(done: seq<Row>, t: string, user: Option<string>,
                              counts: map<string, int>, nan: set<string>, mine: Option<string>)
  {
    CountedOffered(done, t, user, counts, mine) && nan == UnknownKinds(done, t)
  }

  /** One more row of the issue takes the loop's state one step. */
  lemma CountStep(done: seq<Row>, r: Row, t: string, user: Option<string>,
                  counts: map<string, int>, nan: set<string>, mine: Option<string>)
    requires r.target == t
    requires CountedUpTo(done, t, user, counts, nan, mine)
    ensures CountedUpTo(done + [r], t, user,
                        if IsReactionKind(r.kind) then counts[r.kind := counts[r.kind] + 1] else counts,
                        if IsReactionKind(r.kind) then nan else nan + {r.kind},
                        if user.Some? && r.user == user.value then Some(r.kind) else mine)
  {
    CountedOfferedStep(done, r, t, user, counts, mine);
    UnknownKindsAppend(done, r, t);
  }

  /** Selecting an issue's rows keeps its unknown kinds. */
  lemma SelectedUnknownKinds(table: seq<Row>, t: string)
    ensures UnknownKinds(Filter(table, PlatformComments.OnTargets({t})), t) == UnknownKinds(table, t)
  {
    var sel := Filter(table, PlatformComments.OnTargets({t}));
    forall x ensures x in sel <==> x in table && x.target in {t} {
      FilterMembership(table, PlatformComments.OnTargets({t}), x);
    }
  }

  /** Counting the rows selected for issue t counts as the whole table
      does for t. */
  lemma SelectionCounted(table: seq<Row>, t: string, user: Option<string>,
                         counts: map<string, int>, nan: set<string>, mine: Option<string>)
    requires CountedUpTo(Filter(table, PlatformComments.OnTargets({t})), t, user, counts, nan, mine)
    ensures CountedUpTo(table, t, user, counts, nan, mine)
  {
    PlatformComments.SelectedRows(table, {t}, t, if user.Some? then user.value else "");
    SelectedUnknownKinds(table, t);
  }

  class IssueReactionsState {
    var reactions: map<string, int>
    var nanKinds: set<string>
    var userReaction: Option<string>
    var loading: bool

    constructor ()
      ensures reactions == ZeroCounts() && nanKinds == {} && userReaction == None && !loading
    {
      reactions := ZeroCounts();
      nanKinds := {};
      userReaction := None;
      loading := false;
    }

    function Shown(): Reactions
      reads this
    {
      Reactions(reactions, userReaction)
    }

    /** `loadReactions`: nothing without an issue id or when the read
        fails; otherwise the issue's rows are counted, unknown kinds turn
        `NaN`, and a row of the signed-in user sets the user's reaction (the
        last one winning; without one, the reaction shown before stays). */
    method LoadReactions(table: seq<Row>, issueId: Option<string>, user: Option<string>, fails: bool)
      modifies this
      ensures loading == old(loading)
      ensures !Truthy(issueId) || fails ==> (reactions == old(reactions) && nanKinds == old(nanKinds)
        && userReaction == old(userReaction))
      ensures Truthy(issueId) && !fails ==> (
        && reactions.Keys == ZeroCounts().Keys
        && (forall k :: IsReactionKind(k) ==> reactions[k] == CountKind(table, issueId.value, k))
        && nanKinds == UnknownKinds(table, issueId.value)
        && userReaction == (if user.Some? && LastKind(table, issueId.value, user.value).Some?
                            then LastKind(table, issueId.value, user.value) else old(userReaction)))
    {
      if !Truthy(issueId) || fails {
        return;
      }
      var t := issueId.value;
      var rows := Filter(table, PlatformComments.OnTargets({t}));
      assert forall i :: 0 <= i < |rows| ==> rows[i].target in {t};
      var counts, nan, mine := CountAll(rows, t, user);
      SelectionCounted(table, t, user, counts, nan, mine);
      if mine.Some? {
        userReaction := mine;
      }
      reactions := counts;
      nanKinds := nan;
    }

    /** `handleReaction`: with a user, an issue id and no click in flight,
        the table is written and the shown record toggles; `loading` ends
        false. The writes' errors are not looked at. */
    method HandleReaction(table: Table, user: Option<string>, issueId: Option<string>, reactionType: string, f: Faults)
      requires table.Valid()
      modifies this, table
      ensures table.Valid()
      ensures nanKinds == old(nanKinds)
      ensures user.None? || old(loading) || !Truthy(issueId) ==> (
        && reactions == old(reactions) && userReaction == old(userReaction) && loading == old(loading)
        && table.rows == old(table.rows))
      ensures user.Some? && !old(loading) && Truthy(issueId) ==> (
        && Shown() == ToggleReaction(old(Shown()), reactionType)
        && !loading
        && table.rows == ClickRows(old(table.rows), issueId.value, user.value, reactionType, old(userReaction), f))
    {
      if user.None? || loading || !Truthy(issueId) {
        return;
      }
      loading := true;
      WriteClick(table, issueId.value, user.value, reactionType, userReaction, f);
      ToggleShown(reactionType);
      loading := false;
    }

    /** The local update after the writes: the held reaction is withdrawn,
        or the clicked one added in place of the one held before. */
    method ToggleShown(reactionType: string)
      modifies this
      ensures Shown() == ToggleReaction(old(Shown()), reactionType)
      ensures nanKinds == old(nanKinds) && loading == old(loading)
    {
      if userReaction == Some(reactionType) {
        userReaction := None;
        reactions := reactions[reactionType := Max(0, (if reactionType in reactions then reactions[reactionType] else 0) - 1)];
      } else {
        if Truthy(userReaction) {
          var held := userReaction.value;
          reactions := reactions[held := Max(0, (if held in reactions then reactions[held] else 0) - 1)];
        }
        userReaction := Some(reactionType);
        reactions := reactions[reactionType := (if reactionType in reactions then reactions[reactionType] else 0) + 1];
      }
    }
  }

  /** An issue whose rows all hold offered kinds shows no `NaN` entry. */
  lemma OfferedRowsShowNoNan(rows: seq<Row>, t: string)
    requires KindsOn(rows, t, OFFERED)
    ensures UnknownKinds(rows, t) == {}
  {
    forall r | r in rows && r.target == t ensures IsReactionKind(r.kind) {
      var i :| 0 <= i < |rows| && rows[i] == r;
    }
  }
}
