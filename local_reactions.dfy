/** The reaction buttons of one comment or one issue (`CommentReactions`,
    `IssueReactions`) share their click: with the kind the component
    believes the user holds, it deletes that row, or deletes any other held
    row and inserts the clicked kind. The writes' errors are not looked at,
    and the shown record is updated by the same toggle whatever the table
    answered. */
module LocalReactions {
  import opened Base
  import opened Tables
  import opened Counts
  import opened ServerToggle

  /** The table after a click on kind k, given the kind the component
      holds and the errors the delete and the insert return. */
  function ClickRows(rows: seq<Row>, t: string, u: string, k: string, held: Option<string>, f: Faults): seq<Row> {
    if held == Some(k) then
      if f.delete.Some? then rows else DeleteKey(rows, t, u)
    else
      var cleared := if Truthy(held) && f.delete.None? then DeleteKey(rows, t, u) else rows;
      if f.write.Some? then cleared
      else match InsertRow(cleared, t, u, k)
        case Ok(r) => r
        case Err(_) => cleared
  }

  /** The writes of a click, in order; their errors are dropped. */
  method WriteClick(table: Table, t: string, u: string, k: string, held: Option<string>, f: Faults)
    requires table.Valid()
    modifies table
    ensures table.Valid()
    ensures table.rows == ClickRows(old(table.rows), t, u, k, held, f)
  {
    var err;
    if held == Some(k) {
      err := table.Delete(t, u, f.delete);
    } else {
      if Truthy(held) {
        err := table.Delete(t, u, f.delete);
      }
      err := table.Insert(t, u, k, f.write);
    }
  }

  const OFFERED: set<string> := {"heart", "like", "laugh", "angry"}

  /** The shown record agrees with the table: the user's reaction is the
      stored one, and each offered kind shows its number of rows. */
  ghost predicate InStep(rec: Reactions, rows: seq<Row>, t: string, u: string) {
    && UniqueKeys(rows)
    && KindsOn(rows, t, OFFERED)
    && rec.userReaction == Stored(rows, t, u)
    && forall k :: IsReactionKind(k) ==> rec.Get(k) == CountKind(rows, t, k)
  }

  /** A stored kind has at least its own row counted. */
  lemma {:induction false} StoredIsCounted(rows: seq<Row>, t: string, u: string)
    requires Stored(rows, t, u).Some?
    ensures CountKind(rows, t, Stored(rows, t, u).value) >= 1
  {
    if !HasKey(rows[0], t, u) {
      assert Matches(rows, t, u) == Matches(rows[1..], t, u);
      StoredIsCounted(rows[1..], t, u);
    }
  }

  lemma {:induction false} KindsOnAfterDelete(rows: seq<Row>, t: string, u: string, kinds: set<string>)
    requires KindsOn(rows, t, kinds)
    ensures KindsOn(DeleteKey(rows, t, u), t, kinds)
  {
    if rows != [] {
      assert KindsOn(rows[1..], t, kinds) by {
        forall i | 0 <= i < |rows[1..]| && rows[1..][i].target == t ensures rows[1..][i].kind in kinds {
          assert rows[1..][i] == rows[i + 1];
        }
      }
      KindsOnAfterDelete(rows[1..], t, u, kinds);
      var rest := DeleteKey(rows[1..], t, u);
      if !HasKey(rows[0], t, u) {
        assert DeleteKey(rows, t, u) == [rows[0]] + rest;
        forall i | 0 <= i < |[rows[0]] + rest| && ([rows[0]] + rest)[i].target == t
          ensures ([rows[0]] + rest)[i].kind in kinds
        {
          if i > 0 {
            assert ([rows[0]] + rest)[i] == rest[i - 1];
          }
        }
      }
    }
  }

  lemma KindsOnAfterAppend(rows: seq<Row>, t: string, r: Row, kinds: set<string>)
    requires KindsOn(rows, t, kinds) && r.kind in kinds
    ensures KindsOn(rows + [r], t, kinds)
  {
    forall i | 0 <= i < |rows + [r]| && (rows + [r])[i].target == t ensures (rows + [r])[i].kind in kinds {
      if i < |rows| {
        assert (rows + [r])[i] == rows[i];
      }
    }
  }

  /** Removing the held kind, without faults, keeps the record in step. */
  lemma RemovalKeepsInStep(rec: Reactions, rows: seq<Row>, t: string, u: string, k: string)
    requires InStep(rec, rows, t, u) && IsReactionKind(k) && rec.userReaction == Some(k)
    ensures InStep(ToggleReaction(rec, k), ClickRows(rows, t, u, k, rec.userReaction, NO_FAULTS), t, u)
  {
    var after := DeleteKey(rows, t, u);
    var rec' := ToggleReaction(rec, k);
    DeleteKeepsUnique(rows, t, u);
    KindsOnAfterDelete(rows, t, u, OFFERED);
    StoredIsCounted(rows, t, u);
    forall j | IsReactionKind(j) ensures rec'.Get(j) == CountKind(after, t, j) {
      CountAfterDelete(rows, t, u, t, j);
    }
  }

  /** Clicking another offered kind, without faults, keeps the record in
      step: the old row goes, the clicked one is stored. */
  lemma SwitchKeepsInStep(rec: Reactions, rows: seq<Row>, t: string, u: string, k: string)
    requires InStep(rec, rows, t, u) && IsReactionKind(k) && rec.userReaction != Some(k)
    ensures InStep(ToggleReaction(rec, k), ClickRows(rows, t, u, k, rec.userReaction, NO_FAULTS), t, u)
  {
    var held := rec.userReaction;
    var cleared := if Truthy(held) then DeleteKey(rows, t, u) else rows;
    var rec' := ToggleReaction(rec, k);
    ClearHeld(rec, rows, t, u);
    var after := cleared + [Row(t, u, k)];
    assert ClickRows(rows, t, u, k, held, NO_FAULTS) == after;
    InsertClicked(cleared, t, u, k);
    forall j | IsReactionKind(j) ensures rec'.Get(j) == CountKind(after, t, j) {
      assert CountKind(cleared, t, j) == rec.Get(j) - (if held == Some(j) then 1 else 0);
    }
  }

  /** Appending the clicked row to a table without a row for the key
      stores that kind and counts it once more. */
  lemma InsertClicked(cleared: seq<Row>, t: string, u: string, k: string)
    requires UniqueKeys(cleared) && KindsOn(cleared, t, OFFERED) && Matches(cleared, t, u) == []
    requires IsReactionKind(k)
    ensures var after := cleared + [Row(t, u, k)];
      && UniqueKeys(after) && KindsOn(after, t, OFFERED) && Stored(after, t, u) == Some(k)
      && (forall j :: IsReactionKind(j) ==> CountKind(after, t, j) == CountKind(cleared, t, j) + (if j == k then 1 else 0))
  {
    InsertKeepsUnique(cleared, t, u, k);
    KindsOnAfterAppend(cleared, t, Row(t, u, k), OFFERED);
    MatchesAfterInsert(cleared, t, u, k, t, u);
    forall j | IsReactionKind(j) {
      CountAfterInsert(cleared, t, u, k, t, j);
    }
  }

  /** Deleting the held row, if any, leaves the key without a row, every
      other row as it was, and the held kind (counted at least once) one
      row fewer. */
  lemma ClearHeld(rec: Reactions, rows: seq<Row>, t: string, u: string)
    requires InStep(rec, rows, t, u)
    ensures var cleared := if Truthy(rec.userReaction) then DeleteKey(rows, t, u) else rows;
      && UniqueKeys(cleared) && KindsOn(cleared, t, OFFERED) && Matches(cleared, t, u) == []
      && (rec.userReaction.Some? ==> IsReactionKind(rec.userReaction.value) && rec.Get(rec.userReaction.value) >= 1)
      && (forall j :: IsReactionKind(j) ==>
            CountKind(cleared, t, j) == rec.Get(j) - (if rec.userReaction == Some(j) then 1 else 0))
  {
    var held := rec.userReaction;
    DeleteKeepsUnique(rows, t, u);
    KindsOnAfterDelete(rows, t, u, OFFERED);
    if held.Some? {
      StoredKindOn(rows, t, u, OFFERED);
      StoredIsCounted(rows, t, u);
    }
    forall j | IsReactionKind(j)
      ensures CountKind(DeleteKey(rows, t, u), t, j) == CountKind(rows, t, j) - (if Stored(rows, t, u) == Some(j) then 1 else 0)
    {
      CountAfterDelete(rows, t, u, t, j);
    }
  }

  /** Without faults, a click on an offered kind keeps a shown record that
      agrees with the table in agreement with it. */
  lemma ClickKeepsInStep(rec: Reactions, rows: seq<Row>, t: string, u: string, k: string)
    requires InStep(rec, rows, t, u) && IsReactionKind(k)
    ensures InStep(ToggleReaction(rec, k), ClickRows(rows, t, u, k, rec.userReaction, NO_FAULTS), t, u)
  {
    if rec.userReaction == Some(k) {
      RemovalKeepsInStep(rec, rows, t, u, k);
    } else {
      SwitchKeepsInStep(rec, rows, t, u, k);
    }
  }

  /** A failed insert breaks the agreement: the component shows the clicked
      reaction, but the table holds no row for the user. */
  lemma FailedInsertShowsUnstored(rows: seq<Row>, t: string, u: string, k: string, e: DbError)
    requires UniqueKeys(rows) && Stored(rows, t, u) == None
    ensures ToggleReaction(Reactions(ZeroCounts(), None), k).userReaction == Some(k)
    ensures Stored(ClickRows(rows, t, u, k, None, Faults(None, None, Some(e))), t, u) == None
  {
  }
}
