/** Shared vocabulary of the model: optional values, results, database
    errors and the two vote kinds. */
module Base {

  datatype Option<T> = None | Some(value: T)

  datatype Result<T, E> = Ok(value: T) | Err(error: E)

  /** JavaScript truthiness of an optional string: null and "" are falsy. */
  predicate Truthy(s: Option<string>) {
    s.Some? && s.value != ""
  }

  /** An error returned by the hosted database: its code ("409" for a
      unique-constraint conflict, "PGRST116" for a `single` request that
      did not find exactly one row) and its message. */
  datatype DbError = DbError(code: string, message: string)

  const CONFLICT: string := "409"
  const NOT_SINGLE: string := "PGRST116"

  /** `.maybeSingle()` over the rows a query matched: no row, the one row,
      or PGRST116 for several. */
  function MaybeOne<T>(m: seq<T>): (r: Result<Option<T>, DbError>)
    ensures r.Err? <==> |m| > 1
    ensures r.Err? ==> r.error.code == NOT_SINGLE
    ensures r.Ok? && r.value.Some? <==> |m| == 1
    ensures r.Ok? && r.value.Some? ==> m == [r.value.value]
    ensures r == Ok(None) <==> m == []
  {
    if |m| == 0 then Ok(None) else if |m| == 1 then Ok(Some(m[0]))
    else Err(DbError(NOT_SINGLE, "multiple rows returned"))
  }

  datatype VoteType = Up | Down {
    /** The string stored in the `vote_type` column. */
    function Name(): string {
      if Up? then "up" else "down"
    }
    function Opposite(): VoteType {
      if Up? then Down else Up
    }
  }

  /** Reads a `vote_type` column value back as a vote kind. */
  function ParseVoteType(s: string): (r: Option<VoteType>)
    ensures r.Some? ==> r.value.Name() == s
    ensures r.None? ==> s != "up" && s != "down"
  {
    if s == "up" then Some(Up) else if s == "down" then Some(Down) else None
  }

  lemma VoteNameRoundTrip(v: VoteType)
    ensures ParseVoteType(v.Name()) == Some(v)
  {
  }

  function Max(a: int, b: int): int {
    if a >= b then a else b
  }

  function Min(a: int, b: int): int {
    if a <= b then a else b
  }
}
