/** `useIssueQuery(issueId, owner, repo)`: one issue, looked up by its
    UUID, by its number inside the repository `owner/repo`, or by its
    number alone. */
module IssueQuery {
  import opened Base
  import opened Strings
  import opened Lists

  /** The columns of `issues` the lookup uses. */
  datatype IssueRecord = IssueRecord(id: string, number: int, repositoryId: string)

  /** The columns of `repositories` the lookup uses. */
  datatype RepoRecord = RepoRecord(id: string, fullName: string)

  // ------------------------------------------------------------- the UUID test

  predicate IsHex(c: char) {
    '0' <= c <= '9' || 'a' <= c <= 'f' || 'A' <= c <= 'F'
  }

  /** Where the four dashes of a UUID stand. */
  predicate IsDashPosition(i: int) {
    i == 8 || i == 13 || i == 18 || i == 23
  }

  /** The pattern `^[0-9a-f]{8}-[0-9a-f]{4}-[1-5][0-9a-f]{3}-[89ab][0-9a-f]{3}-[0-9a-f]{12}$`
      with the `i` flag: five groups of 8, 4, 4, 4 and 12 hex digits
      joined by dashes; the third group starts with a version digit 1 to
      5 and the fourth with a variant digit 8, 9, a or b. */
  predicate IsUuid(s: string) {
    && |s| == 36
    && (forall i :: 0 <= i < 36 ==> if IsDashPosition(i) then s[i] == '-' else IsHex(s[i]))
    && '1' <= s[14] <= '5'
    && s[19] in {'8', '9', 'a', 'b', 'A', 'B'}
  }

  /** The test ignores case. */
  lemma UuidIgnoresCase(s: string)
    ensures IsUuid(Lower(s)) <==> IsUuid(s)
  {
    if |s| == 36 {
      forall i | 0 <= i < 36 ensures IsHex(Lower(s)[i]) <==> IsHex(s[i]) {
      }
    }
  }

  /** A UUID is five groups of hex digits of lengths 8, 4, 4, 4 and 12,
      joined by dashes. */
  lemma UuidGroups(s: string)
    requires IsUuid(s)
    ensures s == s[..8] + "-" + s[9..13] + "-" + s[14..18] + "-" + s[19..23] + "-" + s[24..]
    ensures forall i :: 0 <= i < |s[24..]| ==> IsHex(s[24..][i])
  {
    assert s[8] == '-' && s[13] == '-' && s[18] == '-' && s[23] == '-';
    assert s == s[..8] + [s[8]] + s[9..13] + [s[13]] + s[14..18] + [s[18]] + s[19..23] + [s[23]] + s[24..];
    forall i | 0 <= i < |s[24..]| ensures IsHex(s[24..][i]) {
      assert s[24..][i] == s[24 + i];
    }
  }

  /** An issue number given in decimal is never taken for a UUID. */
  lemma NumberIsNotUuid(n: int)
    ensures !IsUuid(IntToString(n))
  {
    var s := IntToString(n);
    if |s| == 36 {
      var m: nat := if n < 0 then -n else n;
      if n < 0 {
        assert s[8] == NatToString(m)[7];
      } else {
        assert s[8] == NatToString(m)[8];
      }
    }
  }

  // ------------------------------------------------------------- routing

  /** Which rows the issue query selects. A number that does not parse is
      kept as `None` (`NaN`). */
  datatype Lookup = ById(id: string) | ByNumber(number: Option<int>) | ByNumberInRepo(number: Option<int>, repositoryId: string)

  /** Why the query function throws. */
  datatype QueryError = RepositoryNotFound(fullName: string) | Db(error: DbError)

  /** The message of the thrown error. */
  function Message(e: QueryError): string {
    match e
    case RepositoryNotFound(name) => "Repository not found: " + name
    case Db(err) => err.message
  }

  /** The Postgres error for a value that is not an integer (`NaN` sent as
      an issue number). */
  const NOT_AN_INTEGER: string := "22P02"

  predicate HasFullName(name: string, r: RepoRecord) {
    r.fullName == name
  }

  /** The repository id `{ data: repoData }` holds: the read's error is not
      looked at, so a failed read and a name shared by several rows both
      leave no data. */
  function RepoIdOf(repos: seq<RepoRecord>, fullName: string, readFails: bool): (r: Option<string>)
    ensures r.Some? ==> exists k :: 0 <= k < |repos| && repos[k].fullName == fullName && repos[k].id == r.value
  {
    if readFails then None
    else
      var found := Filter(repos, r => HasFullName(fullName, r));
      match MaybeOne(found)
      case Ok(Some(rec)) =>
        assert rec == found[0];
        FilterMembership(repos, r => HasFullName(fullName, r), rec);
        Some(rec.id)
      case _ => None
  }

  /** The routing: a UUID is looked up by id; otherwise, with both an owner
      and a repository, the repository is resolved first and its absence is
      an error; otherwise the number alone is used. */
  function Route(issueId: string, owner: Option<string>, repo: Option<string>,
                 repos: seq<RepoRecord>, repoReadFails: bool): (r: Result<Lookup, QueryError>)
    ensures IsUuid(issueId) ==> r == Ok(ById(issueId))
    ensures !IsUuid(issueId) && !(Truthy(owner) && Truthy(repo)) ==> r == Ok(ByNumber(ParseInt(issueId)))
    ensures r.Err? ==> Truthy(owner) && Truthy(repo) && r.error == RepositoryNotFound(owner.value + "/" + repo.value)
    ensures r.Ok? && r.value.ByNumberInRepo? ==>
      Truthy(owner) && Truthy(repo)
      && r.value.number == ParseInt(issueId)
      && RepoIdOf(repos, owner.value + "/" + repo.value, repoReadFails) == Some(r.value.repositoryId)
  {
    if IsUuid(issueId) then Ok(ById(issueId))
    else if Truthy(owner) && Truthy(repo) then
      var fullName := owner.value + "/" + repo.value;
      match RepoIdOf(repos, fullName, repoReadFails)
      case Some(id) => Ok(ByNumberInRepo(ParseInt(issueId), id))
      case None => Err(RepositoryNotFound(fullName))
    else Ok(ByNumber(ParseInt(issueId)))
  }

  predicate Selects(l: Lookup, i: IssueRecord) {
    match l
    case ById(id) => i.id == id
    case ByNumber(n) => n == Some(i.number)
    case ByNumberInRepo(n, repoId) => n == Some(i.number) && i.repositoryId == repoId
  }

  /** The issue query of a lookup: an unparsable number is rejected by the
      database, a read error is passed on, and more than one match is the
      `maybeSingle` error. */
  function Select(issues: seq<IssueRecord>, l: Lookup, fault: Option<DbError>): (r: Result<Option<IssueRecord>, DbError>)
    ensures r.Ok? && r.value.Some? ==> r.value.value in issues && Selects(l, r.value.value)
  {
    if (l.ByNumber? || l.ByNumberInRepo?) && l.number.None? then Err(DbError(NOT_AN_INTEGER, "invalid input syntax for type integer"))
    else if fault.Some? then Err(fault.value)
    else
      var found := Filter(issues, i => Selects(l, i));
      var r := MaybeOne(found);
      if r.Ok? && r.value.Some? then
        FilterMembership(issues, i => Selects(l, i), found[0]);
        r
      else r
  }

  /** `queryFn`: route, then select; every error is thrown. */
  function QueryFn(issueId: string, owner: Option<string>, repo: Option<string>,
                   repos: seq<RepoRecord>, repoReadFails: bool,
                   issues: seq<IssueRecord>, fault: Option<DbError>): (r: Result<Option<IssueRecord>, QueryError>)
  {
    match Route(issueId, owner, repo, repos, repoReadFails)
    case Err(e) => Err(e)
    case Ok(l) =>
      match Select(issues, l, fault)
      case Ok(found) => Ok(found)
      case Err(e) => Err(Db(e))
  }

  /** `enabled: !!issueId`. */
  predicate Enabled(issueId: string) {
    issueId != ""
  }

  /** Ids are unique in `issues`. */
  predicate UniqueIds(issues: seq<IssueRecord>) {
    forall a, b :: 0 <= a < b < |issues| ==> issues[a].id != issues[b].id
  }

  /** Looking up an issue that is there by its UUID finds it, whatever the
      owner and repository. */
  lemma FindsByUuid(issues: seq<IssueRecord>, k: nat, owner: Option<string>, repo: Option<string>, repos: seq<RepoRecord>, rf: bool)
    requires k < |issues| && UniqueIds(issues) && IsUuid(issues[k].id)
    ensures QueryFn(issues[k].id, owner, repo, repos, rf, issues, None) == Ok(Some(issues[k]))
  {
    var l := ById(issues[k].id);
    var found := Filter(issues, i => Selects(l, i));
    FilterTwoDistinct(issues, l);
    FilterMembership(issues, i => Selects(l, i), issues[k]);
    assert found == [issues[k]];
  }

  /** Two matches of an id lookup in a table of unique ids cannot both be
      there. */
  lemma {:induction false} FilterTwoDistinct(issues: seq<IssueRecord>, l: Lookup)
    requires l.ById? && UniqueIds(issues)
    ensures |Filter(issues, i => Selects(l, i))| <= 1
  {
    if issues != [] {
      assert UniqueIds(issues[1..]) by {
        forall a, b | 0 <= a < b < |issues[1..]| ensures issues[1..][a].id != issues[1..][b].id {
          assert issues[1..][a] == issues[a + 1] && issues[1..][b] == issues[b + 1];
        }
      }
      FilterTwoDistinct(issues[1..], l);
      if Selects(l, issues[0]) {
        var rest := Filter(issues[1..], i => Selects(l, i));
        forall b | 0 <= b < |issues[1..]| ensures !Selects(l, issues[1..][b]) {
          assert issues[1..][b] == issues[b + 1];
        }
        FilterNone(issues[1..], i => Selects(l, i));
      }
    }
  }

  /** With both an owner and a repository, a repository that cannot be
      resolved is an error whose message names it. */
  lemma MissingRepositoryThrows(issueId: string, owner: string, repo: string, repos: seq<RepoRecord>, issues: seq<IssueRecord>)
    requires !IsUuid(issueId) && owner != "" && repo != ""
    requires forall k :: 0 <= k < |repos| ==> repos[k].fullName != owner + "/" + repo
    ensures var r := QueryFn(issueId, Some(owner), Some(repo), repos, false, issues, None);
      r.Err? && Message(r.error) == "Repository not found: " + owner + "/" + repo
  {
  }

  /** A repository name held by two rows cannot be resolved either: the
      `maybeSingle` error on the repository read is taken for a missing
      repository, whatever the issue number. */
  lemma SharedRepositoryNameThrows(issueId: string, owner: string, repo: string, repos: seq<RepoRecord>, a: nat, b: nat,
                                   issues: seq<IssueRecord>, fault: Option<DbError>)
    requires !IsUuid(issueId) && owner != "" && repo != ""
    requires a < b < |repos| && repos[a].fullName == owner + "/" + repo && repos[b].fullName == owner + "/" + repo
    ensures QueryFn(issueId, Some(owner), Some(repo), repos, false, issues, fault) == Err(RepositoryNotFound(owner + "/" + repo))
  {
    FilterKeepsTwo(repos, r => HasFullName(owner + "/" + repo, r), a, b);
  }
}
