/** The hosted database tables that hold one row per (target, user): issue
    votes, comment votes, comment reactions and issue reactions. A table is
    the list of its rows; the unique constraint on (target, user) is the
    invariant `UniqueKeys`, and every write below keeps it. */
module Tables {
  import opened Base

  /** One row: the voted or reacted-on target (issue or comment id), the
      user, and the kind column (`vote_type` or `reaction_type`). */
  datatype Row = Row(target: string, user: string, kind: string)

  predicate HasKey(r: Row, t: string, u: string) {
    r.target == t && r.user == u
  }

  /** The rows an `.eq(target).eq(user)` filter selects, in table order. */
  function Matches(rows: seq<Row>, t: string, u: string): (m: seq<Row>)
    ensures |m| <= |rows|
    ensures forall i :: 0 <= i < |m| ==> HasKey(m[i], t, u)
  {
    if rows == [] then []
    else (if HasKey(rows[0], t, u) then [rows[0]] else []) + Matches(rows[1..], t, u)
  }

  /** The unique constraint: at most one row per (target, user). */
  ghost predicate UniqueKeys(rows: seq<Row>) {
    forall t, u :: |Matches(rows, t, u)| <= 1
  }

  /** `.maybeSingle()`: no row gives no data, one row gives its kind, more
      than one row is the error PGRST116. */
  function MaybeSingle(rows: seq<Row>, t: string, u: string): (r: Result<Option<string>, DbError>)
    ensures r.Err? <==> |Matches(rows, t, u)| > 1
  {
    var m := Matches(rows, t, u);
    if |m| == 0 then Ok(None)
    else if |m| == 1 then Ok(Some(m[0].kind))
    else Err(DbError(NOT_SINGLE, "multiple rows returned"))
  }

  /** The kind stored for (t, u), if any. */
  function Stored(rows: seq<Row>, t: string, u: string): Option<string> {
    var m := Matches(rows, t, u);
    if m == [] then None else Some(m[0].kind)
  }

  /** `.delete().eq(target).eq(user)`. */
  function DeleteKey(rows: seq<Row>, t: string, u: string): (r: seq<Row>)
    ensures |r| <= |rows|
  {
    if rows == [] then []
    else (if HasKey(rows[0], t, u) then [] else [rows[0]]) + DeleteKey(rows[1..], t, u)
  }

  function SetKind(rows: seq<Row>, t: string, u: string, k: string): (r: seq<Row>)
    ensures |r| == |rows|
  {
    if rows == [] then []
    else [if HasKey(rows[0], t, u) then Row(t, u, k) else rows[0]] + SetKind(rows[1..], t, u, k)
  }

  /** `.upsert({target, user, kind}, {onConflict: 'target,user'})`: the
      existing row takes the new kind, otherwise a row is added. */
  function UpsertKey(rows: seq<Row>, t: string, u: string, k: string): seq<Row> {
    if Matches(rows, t, u) != [] then SetKind(rows, t, u, k) else rows + [Row(t, u, k)]
  }

  /** `.insert({target, user, kind})`: the unique constraint rejects a
      second row for the same key with a conflict. */
  function InsertRow(rows: seq<Row>, t: string, u: string, k: string): Result<seq<Row>, DbError> {
    if Matches(rows, t, u) != [] then Err(DbError(CONFLICT, "duplicate key value violates unique constraint")) else Ok(rows + [Row(t, u, k)])
  }

  // ------------------------------------------------------------ frame lemmas

  lemma {:induction false} MatchesAppend(a: seq<Row>, b: seq<Row>, t: string, u: string)
    ensures Matches(a + b, t, u) == Matches(a, t, u) + Matches(b, t, u)
  {
    if a != [] {
      assert (a + b)[1..] == a[1..] + b;
      MatchesAppend(a[1..], b, t, u);
    } else {
      assert a + b == b;
    }
  }

  /** After a delete, the deleted key has no row and every other key keeps
      exactly the rows it had. */
  lemma {:induction false} MatchesAfterDelete(rows: seq<Row>, t: string, u: string, t2: string, u2: string)
    ensures Matches(DeleteKey(rows, t, u), t2, u2) ==
      if t2 == t && u2 == u then [] else Matches(rows, t2, u2)
  {
    if rows != [] {
      MatchesAfterDelete(rows[1..], t, u, t2, u2);
      var head := if HasKey(rows[0], t, u) then [] else [rows[0]];
      MatchesAppend(head, DeleteKey(rows[1..], t, u), t2, u2);
    }
  }

  lemma {:induction false} MatchesAfterSetKind(rows: seq<Row>, t: string, u: string, k: string, t2: string, u2: string)
    ensures |Matches(SetKind(rows, t, u, k), t2, u2)| == |Matches(rows, t2, u2)|
    ensures t2 == t && u2 == u ==>
      forall i :: 0 <= i < |Matches(SetKind(rows, t, u, k), t2, u2)| ==>
        Matches(SetKind(rows, t, u, k), t2, u2)[i] == Row(t, u, k)
    ensures !(t2 == t && u2 == u) ==> Matches(SetKind(rows, t, u, k), t2, u2) == Matches(rows, t2, u2)
  {
    if rows != [] {
      MatchesAfterSetKind(rows[1..], t, u, k, t2, u2);
      var head := [if HasKey(rows[0], t, u) then Row(t, u, k) else rows[0]];
      MatchesAppend(head, SetKind(rows[1..], t, u, k), t2, u2);
      assert SetKind(rows, t, u, k) == head + SetKind(rows[1..], t, u, k);
    }
  }

  /** After an upsert on a table with unique keys, the key holds exactly the
      new row and every other key keeps exactly the rows it had. */
  lemma MatchesAfterUpsert(rows: seq<Row>, t: string, u: string, k: string, t2: string, u2: string)
    requires UniqueKeys(rows)
    ensures Matches(UpsertKey(rows, t, u, k), t2, u2) ==
      if t2 == t && u2 == u then [Row(t, u, k)] else Matches(rows, t2, u2)
  {
    assert |Matches(rows, t, u)| <= 1;
    if Matches(rows, t, u) != [] {
      MatchesAfterSetKind(rows, t, u, k, t2, u2);
      if t2 == t && u2 == u {
        var m := Matches(SetKind(rows, t, u, k), t2, u2);
        assert |m| == 1 && m[0] == Row(t, u, k);
        assert m == [Row(t, u, k)];
      }
    } else {
      MatchesAppend(rows, [Row(t, u, k)], t2, u2);
      assert Matches([Row(t, u, k)], t2, u2) == (if HasKey(Row(t, u, k), t2, u2) then [Row(t, u, k)] else []) + Matches([], t2, u2);
    }
  }

  lemma MatchesAfterInsert(rows: seq<Row>, t: string, u: string, k: string, t2: string, u2: string)
    requires InsertRow(rows, t, u, k).Ok?
    ensures Matches(InsertRow(rows, t, u, k).value, t2, u2) ==
      if t2 == t && u2 == u then [Row(t, u, k)] else Matches(rows, t2, u2)
  {
    MatchesAppend(rows, [Row(t, u, k)], t2, u2);
    assert Matches([Row(t, u, k)], t2, u2) == (if HasKey(Row(t, u, k), t2, u2) then [Row(t, u, k)] else []) + Matches([], t2, u2);
  }

  // ------------------------------------------------------ the unique constraint

  /** Deleting a key keeps the unique constraint and leaves no row for it. */
  lemma DeleteKeepsUnique(rows: seq<Row>, t: string, u: string)
    requires UniqueKeys(rows)
    ensures UniqueKeys(DeleteKey(rows, t, u))
    ensures Stored(DeleteKey(rows, t, u), t, u) == None
  {
    forall t2, u2 ensures |Matches(DeleteKey(rows, t, u), t2, u2)| <= 1 {
      MatchesAfterDelete(rows, t, u, t2, u2);
    }
    MatchesAfterDelete(rows, t, u, t, u);
  }

  /** Upserting keeps the unique constraint and stores the new kind. */
  lemma UpsertKeepsUnique(rows: seq<Row>, t: string, u: string, k: string)
    requires UniqueKeys(rows)
    ensures UniqueKeys(UpsertKey(rows, t, u, k))
    ensures Stored(UpsertKey(rows, t, u, k), t, u) == Some(k)
  {
    forall t2, u2 ensures |Matches(UpsertKey(rows, t, u, k), t2, u2)| <= 1 {
      MatchesAfterUpsert(rows, t, u, k, t2, u2);
    }
    MatchesAfterUpsert(rows, t, u, k, t, u);
  }

  /** A successful insert keeps the unique constraint and stores the kind. */
  lemma InsertKeepsUnique(rows: seq<Row>, t: string, u: string, k: string)
    requires UniqueKeys(rows)
    requires InsertRow(rows, t, u, k).Ok?
    ensures UniqueKeys(InsertRow(rows, t, u, k).value)
    ensures Stored(InsertRow(rows, t, u, k).value, t, u) == Some(k)
  {
    forall t2, u2 ensures |Matches(InsertRow(rows, t, u, k).value, t2, u2)| <= 1 {
      MatchesAfterInsert(rows, t, u, k, t2, u2);
    }
    MatchesAfterInsert(rows, t, u, k, t, u);
  }

  /** On a table that keeps the constraint, `maybeSingle` never fails and
      returns exactly the stored kind. */
  lemma MaybeSingleOnUnique(rows: seq<Row>, t: string, u: string)
    requires UniqueKeys(rows)
    ensures MaybeSingle(rows, t, u) == Ok(Stored(rows, t, u))
  {
    assert |Matches(rows, t, u)| <= 1;
  }

  // ---------------------------------------------------------------- counting

  /** The number of rows on target t whose kind is k. */
  function CountKind(rows: seq<Row>, t: string, k: string): (n: nat)
    ensures n <= |rows|
  {
    if rows == [] then 0
    else (if rows[0].target == t && rows[0].kind == k then 1 else 0) + CountKind(rows[1..], t, k)
  }

  /** The number of rows on target t, whatever their kind. */
  function CountOn(rows: seq<Row>, t: string): (n: nat)
    ensures n <= |rows|
  {
    if rows == [] then 0
    else (if rows[0].target == t then 1 else 0) + CountOn(rows[1..], t)
  }

  /** Every row on target t has one of the given kinds. */
  predicate KindsOn(rows: seq<Row>, t: string, kinds: set<string>) {
    forall i :: 0 <= i < |rows| && rows[i].target == t ==> rows[i].kind in kinds
  }

  /** When every row on t is "up" or "down", the rows on t split into the
      two counts. */
  lemma {:induction false} CountOnUpDown(rows: seq<Row>, t: string)
    requires KindsOn(rows, t, {"up", "down"})
    ensures CountOn(rows, t) == CountKind(rows, t, "up") + CountKind(rows, t, "down")
  {
    if rows != [] {
      assert KindsOn(rows[1..], t, {"up", "down"}) by {
        forall i | 0 <= i < |rows[1..]| && rows[1..][i].target == t ensures rows[1..][i].kind in {"up", "down"} {
          assert rows[1..][i] == rows[i + 1];
        }
      }
      CountOnUpDown(rows[1..], t);
    }
  }

  /** The kind of the last row of (t, u) in table order: what a loop that
      overwrites its record on every matching row ends with. */
  function LastKind(rows: seq<Row>, t: string, u: string): Option<string> {
    var m := Matches(rows, t, u);
    if m == [] then None else Some(m[|m| - 1].kind)
  }

  /** With unique keys, the last row of a key is its only row. */
  lemma LastKindIsStored(rows: seq<Row>, t: string, u: string)
    requires UniqueKeys(rows)
    ensures LastKind(rows, t, u) == Stored(rows, t, u)
  {
    assert |Matches(rows, t, u)| <= 1;
  }

  lemma {:induction false} CountKindAppend(a: seq<Row>, b: seq<Row>, t: string, k: string)
    ensures CountKind(a + b, t, k) == CountKind(a, t, k) + CountKind(b, t, k)
  {
    if a != [] {
      assert (a + b)[1..] == a[1..] + b;
      CountKindAppend(a[1..], b, t, k);
    } else {
      assert a + b == b;
    }
  }

  lemma UniqueTail(rows: seq<Row>)
    requires UniqueKeys(rows) && rows != []
    ensures UniqueKeys(rows[1..])
    ensures Matches(rows[1..], rows[0].target, rows[0].user) == []
  {
    forall t, u ensures |Matches(rows[1..], t, u)| <= 1 {
      assert |Matches(rows, t, u)| <= 1;
    }
    assert |Matches(rows, rows[0].target, rows[0].user)| <= 1;
  }

  lemma {:induction false} DeleteAbsent(rows: seq<Row>, t: string, u: string)
    requires Matches(rows, t, u) == []
    ensures DeleteKey(rows, t, u) == rows
  {
    if rows != [] {
      DeleteAbsent(rows[1..], t, u);
    }
  }

  lemma {:induction false} SetKindAbsent(rows: seq<Row>, t: string, u: string, k: string)
    requires Matches(rows, t, u) == []
    ensures SetKind(rows, t, u, k) == rows
  {
    if rows != [] {
      SetKindAbsent(rows[1..], t, u, k);
    }
  }

  /** Deleting (t, u) lowers the count of its stored kind on t by one and
      leaves every other count alone. */
  lemma {:induction false} CountAfterDelete(rows: seq<Row>, t: string, u: string, t2: string, k: string)
    requires UniqueKeys(rows)
    ensures CountKind(DeleteKey(rows, t, u), t2, k) ==
      CountKind(rows, t2, k) - (if t2 == t && Stored(rows, t, u) == Some(k) then 1 else 0)
  {
    if rows != [] {
      UniqueTail(rows);
      if HasKey(rows[0], t, u) {
        DeleteAbsent(rows[1..], t, u);
        assert Matches(rows, t, u) == [rows[0]];
        assert DeleteKey(rows, t, u) == rows[1..];
      } else {
        CountAfterDelete(rows[1..], t, u, t2, k);
      }
    }
  }

  lemma {:induction false} CountAfterSetKind(rows: seq<Row>, t: string, u: string, kNew: string, t2: string, k: string)
    requires UniqueKeys(rows)
    ensures CountKind(SetKind(rows, t, u, kNew), t2, k) ==
      CountKind(rows, t2, k)
      - (if t2 == t && Stored(rows, t, u) == Some(k) then 1 else 0)
      + (if t2 == t && Stored(rows, t, u).Some? && kNew == k then 1 else 0)
  {
    if rows != [] {
      UniqueTail(rows);
      if HasKey(rows[0], t, u) {
        SetKindAbsent(rows[1..], t, u, kNew);
        assert Matches(rows, t, u) == [rows[0]];
      } else {
        CountAfterSetKind(rows[1..], t, u, kNew, t2, k);
      }
    }
  }

  /** Upserting (t, u) with kind kNew moves one row on t from its stored
      kind (if any) to kNew. */
  lemma CountAfterUpsert(rows: seq<Row>, t: string, u: string, kNew: string, t2: string, k: string)
    requires UniqueKeys(rows)
    ensures CountKind(UpsertKey(rows, t, u, kNew), t2, k) ==
      CountKind(rows, t2, k)
      - (if t2 == t && Stored(rows, t, u) == Some(k) then 1 else 0)
      + (if t2 == t && kNew == k then 1 else 0)
  {
    if Matches(rows, t, u) != [] {
      CountAfterSetKind(rows, t, u, kNew, t2, k);
    } else {
      CountKindAppend(rows, [Row(t, u, kNew)], t2, k);
    }
  }

  lemma CountAfterInsert(rows: seq<Row>, t: string, u: string, kNew: string, t2: string, k: string)
    requires InsertRow(rows, t, u, kNew).Ok?
    ensures CountKind(InsertRow(rows, t, u, kNew).value, t2, k) ==
      CountKind(rows, t2, k) + (if t2 == t && kNew == k then 1 else 0)
  {
    CountKindAppend(rows, [Row(t, u, kNew)], t2, k);
  }

  /** Deleting (t, u) removes one row from t exactly when the key had one. */
  lemma {:induction false} CountOnAfterDelete(rows: seq<Row>, t: string, u: string, t2: string)
    requires UniqueKeys(rows)
    ensures CountOn(DeleteKey(rows, t, u), t2) ==
      CountOn(rows, t2) - (if t2 == t && Stored(rows, t, u).Some? then 1 else 0)
  {
    if rows != [] {
      UniqueTail(rows);
      if HasKey(rows[0], t, u) {
        DeleteAbsent(rows[1..], t, u);
        assert Matches(rows, t, u) == [rows[0]];
        assert DeleteKey(rows, t, u) == rows[1..];
      } else {
        CountOnAfterDelete(rows[1..], t, u, t2);
      }
    }
  }

  lemma {:induction false} CountOnAfterSetKind(rows: seq<Row>, t: string, u: string, k: string, t2: string)
    ensures CountOn(SetKind(rows, t, u, k), t2) == CountOn(rows, t2)
  {
    if rows != [] {
      CountOnAfterSetKind(rows[1..], t, u, k, t2);
    }
  }

  lemma {:induction false} CountOnAppend(a: seq<Row>, b: seq<Row>, t: string)
    ensures CountOn(a + b, t) == CountOn(a, t) + CountOn(b, t)
  {
    if a != [] {
      assert (a + b)[1..] == a[1..] + b;
      CountOnAppend(a[1..], b, t);
    } else {
      assert a + b == b;
    }
  }

  /** Upserting (t, u) adds one row to t exactly when the key had none. */
  lemma CountOnAfterUpsert(rows: seq<Row>, t: string, u: string, k: string, t2: string)
    ensures CountOn(UpsertKey(rows, t, u, k), t2) ==
      CountOn(rows, t2) + (if t2 == t && Stored(rows, t, u).None? then 1 else 0)
  {
    if Matches(rows, t, u) != [] {
      CountOnAfterSetKind(rows, t, u, k, t2);
    } else {
      CountOnAppend(rows, [Row(t, u, k)], t2);
    }
  }

  // ------------------------------------------------------------- the table

  /** A table as the database holds it; each write either succeeds or
      returns the error it was given (`fault`). */
  class Table {
    var rows: seq<Row>

    ghost predicate Valid()
      reads this
    {
      UniqueKeys(rows)
    }

    constructor ()
      ensures Valid() && rows == []
    {
      rows := [];
    }

    method SelectOne(t: string, u: string, fault: Option<DbError>) returns (r: Result<Option<string>, DbError>)
      ensures r == if fault.Some? then Err(fault.value) else MaybeSingle(rows, t, u)
    {
      if fault.Some? {
        r := Err(fault.value);
      } else {
        r := MaybeSingle(rows, t, u);
      }
    }

    method Delete(t: string, u: string, fault: Option<DbError>) returns (err: Option<DbError>)
      requires Valid()
      modifies this
      ensures Valid() && err == fault
      ensures rows == if fault.Some? then old(rows) else DeleteKey(old(rows), t, u)
    {
      err := fault;
      if fault.None? {
        DeleteKeepsUnique(rows, t, u);
        rows := DeleteKey(rows, t, u);
      }
    }

    method Upsert(t: string, u: string, k: string, fault: Option<DbError>) returns (err: Option<DbError>)
      requires Valid()
      modifies this
      ensures Valid() && err == fault
      ensures rows == if fault.Some? then old(rows) else UpsertKey(old(rows), t, u, k)
    {
      err := fault;
      if fault.None? {
        UpsertKeepsUnique(rows, t, u, k);
        rows := UpsertKey(rows, t, u, k);
      }
    }

    method Insert(t: string, u: string, k: string, fault: Option<DbError>) returns (err: Option<DbError>)
      requires Valid()
      modifies this
      ensures Valid()
      ensures fault.Some? ==> err == fault && rows == old(rows)
      ensures fault.None? ==> match InsertRow(old(rows), t, u, k)
        case Ok(r) => err.None? && rows == r
        case Err(e) => err == Some(e) && rows == old(rows)
    {
      if fault.Some? {
        err := fault;
      } else {
        match InsertRow(rows, t, u, k)
        case Ok(r) =>
          InsertKeepsUnique(rows, t, u, k);
          rows := r;
          err := None;
        case Err(e) =>
          err := Some(e);
      }
    }
  }
}
