/** The server-side step the vote and reaction mutations share: look up the
    user's row for the target, then delete it (when it already holds the
    requested kind) or write the requested kind. Votes write with an upsert
    on (target, user); comment reactions delete any old row and insert. */
module ServerToggle {
  import opened Base
  import opened Tables
  import opened Counts
  import opened RetryPolicy

  /** Why a mutation function throws. */
  datatype Failure = NotAuthenticated | InvalidReactionType(kind: string) | Db(error: DbError)

  /** The error code the retry policy sees; the two thrown `Error`s have none. */
  function FailureCode(f: Failure): Option<string> {
    if f.Db? then Some(f.error.code) else None
  }

  /** What a successful toggle reports: whether the row was removed, and
      the kind the user held before (`previousReaction`). */
  datatype Toggled = Toggled(removed: bool, previous: Option<string>)

  /** The faults the database calls of one toggle return, in call order. */
  datatype Faults = Faults(lookup: Option<DbError>, delete: Option<DbError>, write: Option<DbError>)

  const NO_FAULTS: Faults := Faults(None, None, None)

  /** The current kind as the mutation reads it: a lookup error other than
      PGRST116 is rethrown; PGRST116 leaves no data; an empty kind reads as
      none (`data?.kind || null`). */
  function Current(rows: seq<Row>, t: string, u: string, fault: Option<DbError>): (r: Result<Option<string>, DbError>)
    ensures r.Err? ==> r.error.code != NOT_SINGLE
    ensures r.Ok? && r.value.Some? ==> r.value.value != ""
  {
    var lookup := if fault.Some? then Err(fault.value) else MaybeSingle(rows, t, u);
    match lookup
    case Err(e) => if e.code == NOT_SINGLE then Ok(None) else Err(e)
    case Ok(d) => Ok(if Truthy(d) then d else None)
  }

  /** The vote mutations (`useVoteMutation`, `useCommentVoteMutation`):
      the outcome and the table afterwards. */
  function UpsertToggle(rows: seq<Row>, user: Option<string>, t: string, k: string, f: Faults): (Result<Toggled, Failure>, seq<Row>) {
    if user.None? then (Err(NotAuthenticated), rows)
    else
      var u := user.value;
      match Current(rows, t, u, f.lookup)
      case Err(e) => (Err(Db(e)), rows)
      case Ok(cur) =>
        if cur == Some(k) then
          if f.delete.Some? then (Err(Db(f.delete.value)), rows)
          else (Ok(Toggled(true, cur)), DeleteKey(rows, t, u))
        else
          if f.write.Some? then (Err(Db(f.write.value)), rows)
          else (Ok(Toggled(false, cur)), UpsertKey(rows, t, u, k))
  }

  /** The comment reaction mutation: the kind is checked first, then the
      held row is deleted, and for a different kind a new row is inserted
      after deleting the old one. */
  function ReplaceToggle(rows: seq<Row>, user: Option<string>, t: string, k: string, f: Faults): (Result<Toggled, Failure>, seq<Row>) {
    if user.None? then (Err(NotAuthenticated), rows)
    else if !IsReactionKind(k) then (Err(InvalidReactionType(k)), rows)
    else
      var u := user.value;
      match Current(rows, t, u, f.lookup)
      case Err(e) => (Err(Db(e)), rows)
      case Ok(cur) =>
        if cur == Some(k) then
          if f.delete.Some? then (Err(Db(f.delete.value)), rows)
          else (Ok(Toggled(true, cur)), DeleteKey(rows, t, u))
        else if cur.Some? && f.delete.Some? then (Err(Db(f.delete.value)), rows)
        else
          var cleared := if cur.Some? then DeleteKey(rows, t, u) else rows;
          if f.write.Some? then (Err(Db(f.write.value)), cleared)
          else match InsertRow(cleared, t, u, k)
            case Err(e) => (Err(Db(e)), cleared)
            case Ok(r) => (Ok(Toggled(false, cur)), r)
  }

  /** The vote toggle, step by step against the table. */
  method ToggleByUpsert(table: Table, user: Option<string>, t: string, k: string, f: Faults)
    returns (r: Result<Toggled, Failure>)
    requires table.Valid()
    modifies table
    ensures table.Valid()
    ensures (r, table.rows) == UpsertToggle(old(table.rows), user, t, k, f)
  {
    if user.None? {
      return Err(NotAuthenticated);
    }
    var u := user.value;
    var lookup := table.SelectOne(t, u, f.lookup);
    var cur: Option<string> := None;
    if lookup.Err? {
      if lookup.error.code != NOT_SINGLE {
        return Err(Db(lookup.error));
      }
    } else if Truthy(lookup.value) {
      cur := lookup.value;
    }
    if cur == Some(k) {
      var err := table.Delete(t, u, f.delete);
      if err.Some? {
        return Err(Db(err.value));
      }
      return Ok(Toggled(true, cur));
    } else {
      var err := table.Upsert(t, u, k, f.write);
      if err.Some? {
        return Err(Db(err.value));
      }
      return Ok(Toggled(false, cur));
    }
  }

  /** The reaction toggle, step by step against the table. */
  method ToggleByReplace(table: Table, user: Option<string>, t: string, k: string, f: Faults)
    returns (r: Result<Toggled, Failure>)
    requires table.Valid()
    modifies table
    ensures table.Valid()
    ensures (r, table.rows) == ReplaceToggle(old(table.rows), user, t, k, f)
  {
    if user.None? {
      return Err(NotAuthenticated);
    }
    if !IsReactionKind(k) {
      return Err(InvalidReactionType(k));
    }
    var u := user.value;
    var lookup := table.SelectOne(t, u, f.lookup);
    var cur: Option<string> := None;
    if lookup.Err? {
      if lookup.error.code != NOT_SINGLE {
        return Err(Db(lookup.error));
      }
    } else if Truthy(lookup.value) {
      cur := lookup.value;
    }
    if cur == Some(k) {
      var err := table.Delete(t, u, f.delete);
      if err.Some? {
        return Err(Db(err.value));
      }
      return Ok(Toggled(true, cur));
    }
    if cur.Some? {
      var err := table.Delete(t, u, f.delete);
      if err.Some? {
        return Err(Db(err.value));
      }
    }
    var err := table.Insert(t, u, k, f.write);
    if err.Some? {
      return Err(Db(err.value));
    }
    return Ok(Toggled(false, cur));
  }

  /** `retry`, identical in the three mutation hooks: only conflicts and
      PGRST116 are retried, and only for the first two failures. */
  predicate Retry(failureCount: nat, error: Failure) {
    ShouldRetry(failureCount, FailureCode(error))
  }

  /** An error the mutation throws itself (no user, unknown kind) is never
      retried, and no failure is retried a third time. */
  lemma RetryBounded(failureCount: nat, error: Failure)
    ensures !error.Db? ==> !Retry(failureCount, error)
    ensures failureCount >= 2 ==> !Retry(failureCount, error)
    ensures Retry(failureCount, error) <==>
      failureCount < 2 && error.Db? && (error.error.code == CONFLICT || error.error.code == NOT_SINGLE)
  {
  }

  // ----------------------------------------------------------------- lemmas

  /** On a table that keeps the unique constraint and with no lookup fault,
      the mutation reads exactly the stored kind. */
  lemma CurrentIsStored(rows: seq<Row>, t: string, u: string)
    requires UniqueKeys(rows)
    ensures Current(rows, t, u, None) == Ok(if Truthy(Stored(rows, t, u)) then Stored(rows, t, u) else None)
  {
    MaybeSingleOnUnique(rows, t, u);
  }

  /** Both toggles keep at most one row per (target, user). */
  lemma TogglesKeepUnique(rows: seq<Row>, user: Option<string>, t: string, k: string, f: Faults)
    requires UniqueKeys(rows)
    ensures UniqueKeys(UpsertToggle(rows, user, t, k, f).1)
    ensures UniqueKeys(ReplaceToggle(rows, user, t, k, f).1)
  {
    if user.Some? {
      var u := user.value;
      DeleteKeepsUnique(rows, t, u);
      UpsertKeepsUnique(rows, t, u, k);
      if InsertRow(rows, t, u, k).Ok? {
        InsertKeepsUnique(rows, t, u, k);
      }
      if InsertRow(DeleteKey(rows, t, u), t, u, k).Ok? {
        InsertKeepsUnique(DeleteKey(rows, t, u), t, u, k);
      }
    }
  }

  /** A vote toggle that fails leaves the table as it was. */
  lemma UpsertToggleFailureUnchanged(rows: seq<Row>, user: Option<string>, t: string, k: string, f: Faults)
    requires UpsertToggle(rows, user, t, k, f).0.Err?
    ensures UpsertToggle(rows, user, t, k, f).1 == rows
  {
  }

  /** Without faults, a vote toggle succeeds, removes the row exactly when
      it held the requested kind, and otherwise stores that kind; no other
      (target, user) key changes. */
  lemma UpsertToggleEffect(rows: seq<Row>, u: string, t: string, k: string, t2: string, u2: string)
    requires UniqueKeys(rows) && k != ""
    ensures var (res, after) := UpsertToggle(rows, Some(u), t, k, NO_FAULTS);
      && res.Ok?
      && (res.value.removed <==> Stored(rows, t, u) == Some(k))
      && Stored(after, t, u) == (if res.value.removed then None else Some(k))
      && (t2 != t || u2 != u ==> Matches(after, t2, u2) == Matches(rows, t2, u2))
  {
    CurrentIsStored(rows, t, u);
    DeleteKeepsUnique(rows, t, u);
    UpsertKeepsUnique(rows, t, u, k);
    MatchesAfterDelete(rows, t, u, t2, u2);
    MatchesAfterUpsert(rows, t, u, k, t2, u2);
  }

  /** Starting from no row, voting the same kind twice without faults gives
      back the table exactly, so the user holds no vote. */
  lemma UpsertToggleTwice(rows: seq<Row>, u: string, t: string, k: string)
    requires UniqueKeys(rows) && k != ""
    requires Stored(rows, t, u) == None
    ensures var once := UpsertToggle(rows, Some(u), t, k, NO_FAULTS).1;
      UpsertToggle(once, Some(u), t, k, NO_FAULTS).1 == rows
  {
    CurrentIsStored(rows, t, u);
    var once := rows + [Row(t, u, k)];
    assert UpsertToggle(rows, Some(u), t, k, NO_FAULTS).1 == once;
    UpsertKeepsUnique(rows, t, u, k);
    CurrentIsStored(once, t, u);
    DeleteAbsent(rows, t, u);
    DeleteAppendOwn(rows, t, u, k);
  }

  lemma {:induction false} DeleteAppendOwn(rows: seq<Row>, t: string, u: string, k: string)
    ensures DeleteKey(rows + [Row(t, u, k)], t, u) == DeleteKey(rows, t, u)
  {
    if rows == [] {
      assert DeleteKey([Row(t, u, k)], t, u) == [] + DeleteKey([], t, u);
    } else {
      assert (rows + [Row(t, u, k)])[1..] == rows[1..] + [Row(t, u, k)];
      DeleteAppendOwn(rows[1..], t, u, k);
    }
  }

  /** A reaction toggle fails without touching the table, except when the
      insert that follows a successful delete fails: the user's old
      reaction is then gone and no new one is stored. */
  lemma ReplaceToggleFailure(rows: seq<Row>, u: string, t: string, k: string, f: Faults)
    requires UniqueKeys(rows)
    requires ReplaceToggle(rows, Some(u), t, k, f).0.Err?
    ensures var after := ReplaceToggle(rows, Some(u), t, k, f).1;
      after == rows || (after == DeleteKey(rows, t, u) && Stored(after, t, u) == None)
  {
    var after := ReplaceToggle(rows, Some(u), t, k, f).1;
    var cur := Current(rows, t, u, f.lookup);
    if IsReactionKind(k) && cur.Ok? && cur.value.Some? && cur.value != Some(k) && f.delete.None? {
      DeleteKeepsUnique(rows, t, u);
      assert after == DeleteKey(rows, t, u);
    }
  }

  /** Without faults and for an offered kind, a reaction toggle succeeds,
      removes the row exactly when it held that kind, and otherwise leaves
      exactly that kind stored, reporting the kind held before. */
  lemma ReplaceToggleEffect(rows: seq<Row>, u: string, t: string, k: string, t2: string, u2: string)
    requires UniqueKeys(rows) && IsReactionKind(k)
    requires KindsOn(rows, t, {"heart", "like", "laugh", "angry"})
    ensures var (res, after) := ReplaceToggle(rows, Some(u), t, k, NO_FAULTS);
      && res.Ok?
      && (res.value.removed <==> Stored(rows, t, u) == Some(k))
      && res.value.previous == Stored(rows, t, u)
      && Stored(after, t, u) == (if res.value.removed then None else Some(k))
      && (t2 != t || u2 != u ==> Matches(after, t2, u2) == Matches(rows, t2, u2))
  {
    ReplaceToggleRows(rows, t, u, k);
    DeleteKeepsUnique(rows, t, u);
    MatchesAfterDelete(rows, t, u, t2, u2);
    if Stored(rows, t, u) != Some(k) {
      var cleared := if Stored(rows, t, u).Some? then DeleteKey(rows, t, u) else rows;
      assert Matches(cleared, t, u) == [];
      MatchesAfterInsert(cleared, t, u, k, t2, u2);
      InsertKeepsUnique(cleared, t, u, k);
    }
  }

  /** The outcome and the table after a fault-free toggle of an offered
      kind: the held row is deleted, and unless it held that kind a row
      with the kind is appended. */
  lemma ReplaceToggleRows(rows: seq<Row>, t: string, u: string, k: string)
    requires UniqueKeys(rows) && IsReactionKind(k)
    requires KindsOn(rows, t, {"heart", "like", "laugh", "angry"})
    ensures var stored := Stored(rows, t, u);
      ReplaceToggle(rows, Some(u), t, k, NO_FAULTS) ==
        (Ok(Toggled(stored == Some(k), stored)),
         if stored == Some(k) then DeleteKey(rows, t, u)
         else if stored.Some? then DeleteKey(rows, t, u) + [Row(t, u, k)]
         else rows + [Row(t, u, k)])
  {
    CurrentIsStored(rows, t, u);
    StoredKindOn(rows, t, u, {"heart", "like", "laugh", "angry"});
    DeleteKeepsUnique(rows, t, u);
    assert Matches(DeleteKey(rows, t, u), t, u) == [];
  }

  /** A stored kind is one of the kinds the rows on its target may have. */
  lemma StoredKindOn(rows: seq<Row>, t: string, u: string, kinds: set<string>)
    requires KindsOn(rows, t, kinds)
    ensures Stored(rows, t, u).Some? ==> Stored(rows, t, u).value in kinds
  {
    if Stored(rows, t, u).Some? {
      MatchesIn(rows, t, u, 0);
    }
  }

  lemma {:induction false} MatchesIn(rows: seq<Row>, t: string, u: string, i: nat)
    requires i < |Matches(rows, t, u)|
    ensures Matches(rows, t, u)[i] in rows
  {
    if HasKey(rows[0], t, u) {
      if i > 0 {
        MatchesIn(rows[1..], t, u, i - 1);
      }
    } else {
      MatchesIn(rows[1..], t, u, i);
    }
  }
}
