/** `issueSync`: copies a GitHub issue, and first its repository, into the
    `repositories` and `issues` tables of the signed-in user, updating the
    issue's row when one exists for (github_id, user_id) and inserting one
    otherwise; `syncMultipleIssues` does this for a list of issues in
    batches of five and counts the outcomes. */
module IssueSync {
  import opened Base
  import opened Strings
  import opened Lists
  import opened GitHubApi
  import RepositorySync

  // ------------------------------------------------------------ records

  /** The columns `syncRepositoryToDatabase` writes to `repositories`. */
  datatype RepoRecord = RepoRecord(
    githubId: int, fullName: string, name: string, ownerLogin: string, description: Option<string>,
    htmlUrl: string, cloneUrl: Option<string>, sshUrl: Option<string>, language: Option<string>,
    stars: int, watchers: int, forks: int, openIssues: int,
    isPrivate: bool, isFork: bool, isArchived: bool,
    defaultBranch: string, topics: seq<string>, licenseName: Option<string>,
    createdAt: string, updatedAt: string, userId: string)

  /** `n || 0` on an optional count. */
  function OrZero(n: Option<int>): (r: int)
    ensures n.Some? ==> r == n.value
    ensures n.None? ==> r == 0
  {
    if n.Some? then n.value else 0
  }

  /** The repository row inserted for a GitHub repository: keyed by its
      GitHub id and the user, with GitHub's own full name; missing counts
      are stored as 0, missing flags as false, a missing or empty default
      branch as "main" and missing topics as none. */
  function RepoRecordOf(g: GitHubRepo, userId: string): (r: RepoRecord)
    ensures r.githubId == g.id && r.fullName == g.fullName && r.userId == userId
    ensures r.defaultBranch != ""
    ensures g.stars.None? ==> r.stars == 0
    ensures g.topics.None? ==> r.topics == []
  {
    RepoRecord(g.id, g.fullName, g.name, g.ownerLogin, g.description, g.htmlUrl, g.cloneUrl, g.sshUrl,
               g.language, OrZero(g.stars), OrZero(g.watchers), OrZero(g.forks), OrZero(g.openIssues),
               RepositorySync.OrFalse(g.isPrivate), RepositorySync.OrFalse(g.isFork),
               RepositorySync.OrFalse(g.isArchived), RepositorySync.OrMain(g.defaultBranch),
               if g.topics.Some? then g.topics.value else [], g.license, g.createdAt, g.updatedAt, userId)
  }

  /** The columns written to `issues`. */
  datatype IssueRecord = IssueRecord(
    githubId: int, repositoryId: nat, number: int, title: string, body: Option<string>, state: string,
    labels: seq<string>, assignees: seq<string>, authorLogin: string, authorAvatarUrl: Option<string>,
    htmlUrl: string, commentsCount: int, createdAt: string, updatedAt: string, closedAt: Option<string>,
    userId: string)

  /** The issue row: label names only, no assignees, a missing comment
      count stored as 0, and the repository row it belongs to. */
  function IssueRecordOf(g: GitHubIssue, repositoryId: nat, userId: string): (r: IssueRecord)
    ensures r.githubId == g.id && r.userId == userId && r.repositoryId == repositoryId
    ensures |r.labels| == |g.labels| && forall i :: 0 <= i < |g.labels| ==> r.labels[i] == g.labels[i].name
    ensures r.assignees == []
    ensures r.commentsCount == OrZero(g.comments)
  {
    IssueRecord(g.id, repositoryId, g.number, g.title, g.body, g.state, LabelNames(g.labels), [],
                g.userLogin, g.userAvatarUrl, g.htmlUrl, OrZero(g.comments), g.createdAt, g.updatedAt,
                g.closedAt, userId)
  }

  // ------------------------------------------------------------ tables

  datatype RepoEntry = RepoEntry(id: nat, record: RepoRecord)

  datatype IssueRow = IssueRow(id: nat, record: IssueRecord)

  /** Both tables and the next id the database hands out. */
  datatype IssueStore = IssueStore(repos: seq<RepoEntry>, issues: seq<IssueRow>, nextId: nat)

  /** The repositories `.eq('full_name', n).eq('user_id', u)` selects. */
  function RepoNamed(repos: seq<RepoEntry>, fullName: string, u: string): (m: seq<RepoEntry>)
    ensures |m| <= |repos|
    ensures forall i :: 0 <= i < |m| ==> m[i].record.fullName == fullName && m[i].record.userId == u
  {
    if repos == [] then []
    else (if repos[0].record.fullName == fullName && repos[0].record.userId == u then [repos[0]] else [])
         + RepoNamed(repos[1..], fullName, u)
  }

  lemma {:induction false} RepoNamedAppend(a: seq<RepoEntry>, b: seq<RepoEntry>, fullName: string, u: string)
    ensures RepoNamed(a + b, fullName, u) == RepoNamed(a, fullName, u) + RepoNamed(b, fullName, u)
  {
    if a == [] {
      assert a + b == b;
    } else {
      assert (a + b)[0] == a[0];
      assert (a + b)[1..] == a[1..] + b;
      RepoNamedAppend(a[1..], b, fullName, u);
    }
  }

  predicate HasIssueKey(r: IssueRow, g: int, u: string) {
    r.record.githubId == g && r.record.userId == u
  }

  /** The issues `.eq('github_id', g).eq('user_id', u)` selects. */
  function IssueMatches(rows: seq<IssueRow>, g: int, u: string): (m: seq<IssueRow>)
    ensures |m| <= |rows|
    ensures forall i :: 0 <= i < |m| ==> HasIssueKey(m[i], g, u)
  {
    if rows == [] then []
    else (if HasIssueKey(rows[0], g, u) then [rows[0]] else []) + IssueMatches(rows[1..], g, u)
  }

  /** At most one issue row per (github_id, user_id). */
  ghost predicate UniqueIssueKeys(rows: seq<IssueRow>) {
    forall g, u :: |IssueMatches(rows, g, u)| <= 1
  }

  /** Ids in both tables are below the next id; issue ids are distinct. */
  ghost predicate Valid(s: IssueStore) {
    && UniqueIssueKeys(s.issues)
    && (forall i :: 0 <= i < |s.issues| ==> s.issues[i].id < s.nextId)
    && (forall i, j :: 0 <= i < j < |s.issues| ==> s.issues[i].id != s.issues[j].id)
    && (forall i :: 0 <= i < |s.repos| ==> s.repos[i].id < s.nextId)
  }

  /** `.update(record).eq('id', id)`. */
  function UpdateIssueId(rows: seq<IssueRow>, id: nat, rec: IssueRecord): (r: seq<IssueRow>)
    ensures |r| == |rows|
    ensures forall i :: 0 <= i < |r| ==> r[i] == if rows[i].id == id then IssueRow(id, rec) else rows[i]
  {
    if rows == [] then []
    else [if rows[0].id == id then IssueRow(id, rec) else rows[0]] + UpdateIssueId(rows[1..], id, rec)
  }

  /** A lookup as it comes back: the request's own failure, or the
      answer to the query. */
  function Checked<T>(fault: Option<DbError>, m: seq<T>): (r: Result<Option<T>, DbError>)
    ensures fault.Some? ==> r == Err(fault.value)
    ensures fault.None? ==> r == MaybeOne(m)
  {
    if fault.Some? then Err(fault.value) else MaybeOne(m)
  }

  lemma {:induction false} IssueMatchesAppend(a: seq<IssueRow>, b: seq<IssueRow>, g: int, u: string)
    ensures IssueMatches(a + b, g, u) == IssueMatches(a, g, u) + IssueMatches(b, g, u)
  {
    if a == [] {
      assert a + b == b;
    } else {
      assert (a + b)[0] == a[0];
      assert (a + b)[1..] == a[1..] + b;
      IssueMatchesAppend(a[1..], b, g, u);
    }
  }

  /** Rewriting the rows with one id, all of which carry the key of the
      new record, changes no other key's rows. */
  lemma {:induction false} IssueMatchesAfterUpdate(rows: seq<IssueRow>, id: nat, rec: IssueRecord, g: int, u: string)
    requires forall i :: 0 <= i < |rows| && rows[i].id == id ==> HasIssueKey(rows[i], rec.githubId, rec.userId)
    ensures (g, u) != (rec.githubId, rec.userId) ==> IssueMatches(UpdateIssueId(rows, id, rec), g, u) == IssueMatches(rows, g, u)
    ensures (g, u) == (rec.githubId, rec.userId) ==>
      IssueMatches(UpdateIssueId(rows, id, rec), g, u) == UpdateIssueId(IssueMatches(rows, g, u), id, rec)
  {
    if rows != [] {
      var tail := rows[1..];
      var r := if rows[0].id == id then IssueRow(id, rec) else rows[0];
      assert UpdateIssueId(rows, id, rec) == [r] + UpdateIssueId(tail, id, rec);
      assert HasIssueKey(r, g, u) <==> HasIssueKey(rows[0], g, u);
      forall i | 0 <= i < |tail| && tail[i].id == id
        ensures HasIssueKey(tail[i], rec.githubId, rec.userId)
      {
        assert tail[i] == rows[i + 1];
      }
      IssueMatchesAfterUpdate(tail, id, rec, g, u);
      IssueMatchesAppend([r], UpdateIssueId(tail, id, rec), g, u);
      IssueMatchesAppend([rows[0]], tail, g, u);
      assert rows == [rows[0]] + tail;
      if (g, u) == (rec.githubId, rec.userId) {
        var m0 := if HasIssueKey(rows[0], g, u) then [rows[0]] else [];
        assert UpdateIssueId(m0 + IssueMatches(tail, g, u), id, rec)
            == UpdateIssueId(m0, id, rec) + UpdateIssueId(IssueMatches(tail, g, u), id, rec);
      }
    }
  }

  /** The index of a selected issue row in its table. */
  lemma {:induction false} MatchedIssueIndex(rows: seq<IssueRow>, g: int, u: string, r: IssueRow) returns (k: nat)
    requires r in IssueMatches(rows, g, u)
    ensures k < |rows| && rows[k] == r
  {
    if rows[0] == r && HasIssueKey(rows[0], g, u) {
      k := 0;
    } else {
      assert IssueMatches(rows, g, u) == (if HasIssueKey(rows[0], g, u) then [rows[0]] else []) + IssueMatches(rows[1..], g, u);
      var k' := MatchedIssueIndex(rows[1..], g, u, r);
      k := k' + 1;
    }
  }

  // ------------------------------------------------------------ syncRepositoryToDatabase

  /** What the repository request gives: a response with its `ok` flag,
      status text and parsed body, or the error `fetch` throws. */
  datatype RepoResponse = RepoResponse(ok: bool, statusText: string, body: GitHubRepo) | RepoRequestFailed(message: string)

  const FETCH_ERROR_PREFIX: string := "Failed to fetch repository data: "
  const DB_ERROR_PREFIX: string := "Database error: "

  /** The message thrown for a database error. */
  function DbMessage(e: DbError): (m: string)
    ensures StartsWith(m, DB_ERROR_PREFIX) && m[|DB_ERROR_PREFIX|..] == e.message
  {
    assert (DB_ERROR_PREFIX + e.message)[..|DB_ERROR_PREFIX|] == DB_ERROR_PREFIX;
    DB_ERROR_PREFIX + e.message
  }

  /** The repository data to insert: the data passed in, or else the body
      of an ok response; a response that was not ok throws with its status
      text. */
  function RepoSource(given: Option<GitHubRepo>, fetched: RepoResponse): (r: Result<GitHubRepo, string>)
    ensures given.Some? ==> r == Ok(given.value)
    ensures given.None? && fetched.RepoRequestFailed? ==> r == Err(fetched.message)
    ensures given.None? && fetched.RepoResponse? ==>
      r == if fetched.ok then Ok(fetched.body) else Err(FETCH_ERROR_PREFIX + fetched.statusText)
  {
    if given.Some? then Ok(given.value)
    else match fetched
      case RepoRequestFailed(m) => Err(m)
      case RepoResponse(ok, statusText, body) =>
        if ok then Ok(body) else Err(FETCH_ERROR_PREFIX + statusText)
  }

  /** The failures of the repository lookup and of its insert. */
  datatype RepoSyncFaults = RepoSyncFaults(check: Option<DbError>, insert: Option<DbError>)

  const NO_REPO_FAULTS: RepoSyncFaults := RepoSyncFaults(None, None)

  /** `syncRepositoryToDatabase` on the store: the id of the user's row for
      "owner/repoName" when there is one; otherwise the id of a row inserted
      from the repository data; or the message it throws. */
  function SyncRepositoryEffect(s: IssueStore, owner: string, repoName: string, u: string,
                                given: Option<GitHubRepo>, fetched: RepoResponse, f: RepoSyncFaults)
    : (Result<nat, string>, IssueStore)
  {
    match Checked(f.check, RepoNamed(s.repos, owner + "/" + repoName, u))
    case Err(e) => (Err(DbMessage(e)), s)
    case Ok(found) =>
      if found.Some? then (Ok(found.value.id), s)
      else match RepoSource(given, fetched)
        case Err(m) => (Err(m), s)
        case Ok(g) =>
          if f.insert.Some? then (Err(DbMessage(f.insert.value)), s)
          else (Ok(s.nextId), s.(repos := s.repos + [RepoEntry(s.nextId, RepoRecordOf(g, u))], nextId := s.nextId + 1))
  }

  /** An existing row is returned as it is: nothing is inserted, and the
      repository data and the request do not matter. */
  lemma SyncRepositoryFindsExisting(s: IssueStore, owner: string, repoName: string, u: string,
                                    given: Option<GitHubRepo>, fetched: RepoResponse, insertFault: Option<DbError>)
    requires |RepoNamed(s.repos, owner + "/" + repoName, u)| == 1
    ensures SyncRepositoryEffect(s, owner, repoName, u, given, fetched, RepoSyncFaults(None, insertFault))
         == (Ok(RepoNamed(s.repos, owner + "/" + repoName, u)[0].id), s)
  {
  }

  /** The repository is requested only when no data was passed: with data
      the outcome does not depend on the response. */
  lemma GivenDataNeedsNoRequest(s: IssueStore, owner: string, repoName: string, u: string,
                                g: GitHubRepo, fetched1: RepoResponse, fetched2: RepoResponse, f: RepoSyncFaults)
    ensures SyncRepositoryEffect(s, owner, repoName, u, Some(g), fetched1, f)
         == SyncRepositoryEffect(s, owner, repoName, u, Some(g), fetched2, f)
  {
  }

  /** A successful sync keeps the store valid, and when the repository was
      looked up under the name GitHub gives it, a second sync finds the row
      the first inserted and changes nothing. */
  lemma SyncRepositoryTwice(s: IssueStore, owner: string, repoName: string, u: string,
                            given: Option<GitHubRepo>, fetched: RepoResponse)
    requires Valid(s)
    requires RepoSource(given, fetched).Ok? ==> RepoSource(given, fetched).value.fullName == owner + "/" + repoName
    ensures var (r1, s1) := SyncRepositoryEffect(s, owner, repoName, u, given, fetched, NO_REPO_FAULTS);
      && Valid(s1)
      && (r1.Ok? ==> SyncRepositoryEffect(s1, owner, repoName, u, given, fetched, NO_REPO_FAULTS) == (r1, s1))
  {
    var name := owner + "/" + repoName;
    var m := RepoNamed(s.repos, name, u);
    if |m| == 0 && RepoSource(given, fetched).Ok? {
      var g := RepoSource(given, fetched).value;
      var entry := RepoEntry(s.nextId, RepoRecordOf(g, u));
      RepoNamedAppend(s.repos, [entry], name, u);
      assert RepoNamed([entry], name, u) == [entry];
    }
  }

  /** Looked up under another name than GitHub's (a renamed or differently
      cased repository), the row is never found again: each sync inserts
      another row. */
  lemma SyncRepositoryRenamedInsertsAgain(s: IssueStore, owner: string, repoName: string, u: string, g: GitHubRepo)
    requires RepoNamed(s.repos, owner + "/" + repoName, u) == []
    requires g.fullName != owner + "/" + repoName
    ensures var (r1, s1) := SyncRepositoryEffect(s, owner, repoName, u, Some(g), RepoRequestFailed(""), NO_REPO_FAULTS);
      var (r2, s2) := SyncRepositoryEffect(s1, owner, repoName, u, Some(g), RepoRequestFailed(""), NO_REPO_FAULTS);
      r1.Ok? && r2.Ok? && r1 != r2 && |s2.repos| == |s.repos| + 2
  {
    var name := owner + "/" + repoName;
    var entry := RepoEntry(s.nextId, RepoRecordOf(g, u));
    RepoNamedAppend(s.repos, [entry], name, u);
    assert RepoNamed([entry], name, u) == [];
  }

  // ------------------------------------------------------------ syncIssueToDatabase

  /** The failures one issue sync meets: its repository sync, the issue
      lookup, and the update or insert. */
  datatype IssueFaults = IssueFaults(repo: RepoSyncFaults, check: Option<DbError>, write: Option<DbError>)

  const NO_ISSUE_FAULTS: IssueFaults := IssueFaults(NO_REPO_FAULTS, None, None)

  /** `syncIssueToDatabase` on the store: the repository is synced first
      (its failure is rethrown); then the issue's row for (github_id, user)
      is updated when it exists and inserted otherwise. The id of the
      written row, or the message thrown. */
  function SyncIssueEffect(s: IssueStore, owner: string, repoName: string, g: GitHubIssue, u: string,
                           fetched: RepoResponse, f: IssueFaults): (Result<nat, string>, IssueStore)
  {
    var (repo, s1) := SyncRepositoryEffect(s, owner, repoName, u, None, fetched, f.repo);
    if repo.Err? then (Err(repo.error), s1)
    else IssueStepEffect(s1, g, u, repo.value, f)
  }

  /** The issue half of `syncIssueToDatabase`, once the repository row is
      known: look the key up, then update the row found or insert one. */
  function IssueStepEffect(s1: IssueStore, g: GitHubIssue, u: string, repositoryId: nat, f: IssueFaults)
    : (Result<nat, string>, IssueStore)
  {
    match Checked(f.check, IssueMatches(s1.issues, g.id, u))
    case Err(e) => (Err(DbMessage(e)), s1)
    case Ok(found) =>
      var rec := IssueRecordOf(g, repositoryId, u);
      if f.write.Some? then (Err(DbMessage(f.write.value)), s1)
      else if found.Some? then (Ok(found.value.id), s1.(issues := UpdateIssueId(s1.issues, found.value.id, rec)))
      else (Ok(s1.nextId), s1.(issues := s1.issues + [IssueRow(s1.nextId, rec)], nextId := s1.nextId + 1))
  }

  /** The repository sync keeps the store valid and leaves the issues
      alone. */
  lemma SyncRepositoryKeepsValid(s: IssueStore, owner: string, repoName: string, u: string,
                                 given: Option<GitHubRepo>, fetched: RepoResponse, f: RepoSyncFaults)
    requires Valid(s)
    ensures var s1 := SyncRepositoryEffect(s, owner, repoName, u, given, fetched, f).1;
      Valid(s1) && s1.issues == s.issues && s.nextId <= s1.nextId
  {
  }

  /** Writing the issue record to the row found for its key, or appending a
      fresh row, keeps the store valid, leaves exactly one row for the key
      holding the record, and leaves every other key's rows as they were. */
  lemma IssueWriteKeepsValid(s: IssueStore, rec: IssueRecord, found: Option<IssueRow>)
    requires Valid(s)
    requires found.Some? ==> IssueMatches(s.issues, rec.githubId, rec.userId) == [found.value]
    requires found.None? ==> IssueMatches(s.issues, rec.githubId, rec.userId) == []
    ensures var s' := IssueWritten(s, rec, found);
      && Valid(s')
      && IssueMatches(s'.issues, rec.githubId, rec.userId) == [IssueRow(if found.Some? then found.value.id else s.nextId, rec)]
      && (forall g, u :: (g, u) != (rec.githubId, rec.userId) ==> IssueMatches(s'.issues, g, u) == IssueMatches(s.issues, g, u))
  {
    if found.Some? {
      IssueUpdateKeepsValid(s, rec, found.value);
    } else {
      IssueAppendKeepsValid(s, rec);
    }
  }

  lemma IssueUpdateKeepsValid(s: IssueStore, rec: IssueRecord, found: IssueRow)
    requires Valid(s)
    requires IssueMatches(s.issues, rec.githubId, rec.userId) == [found]
    ensures var s' := IssueWritten(s, rec, Some(found));
      && Valid(s')
      && IssueMatches(s'.issues, rec.githubId, rec.userId) == [IssueRow(found.id, rec)]
      && (forall g, u :: (g, u) != (rec.githubId, rec.userId) ==> IssueMatches(s'.issues, g, u) == IssueMatches(s.issues, g, u))
  {
    var s' := IssueWritten(s, rec, Some(found));
    var id := found.id;
    var k := MatchedIssueIndex(s.issues, rec.githubId, rec.userId, found);
    forall i | 0 <= i < |s.issues| && s.issues[i].id == id
      ensures HasIssueKey(s.issues[i], rec.githubId, rec.userId)
    {
      assert i == k;
    }
    forall g, u
      ensures (g, u) != (rec.githubId, rec.userId) ==> IssueMatches(s'.issues, g, u) == IssueMatches(s.issues, g, u)
      ensures (g, u) == (rec.githubId, rec.userId) ==> IssueMatches(s'.issues, g, u) == UpdateIssueId(IssueMatches(s.issues, g, u), id, rec)
    {
      IssueMatchesAfterUpdate(s.issues, id, rec, g, u);
    }
    assert UpdateIssueId([found], id, rec) == [IssueRow(id, rec)];
  }

  lemma IssueAppendKeepsValid(s: IssueStore, rec: IssueRecord)
    requires Valid(s)
    requires IssueMatches(s.issues, rec.githubId, rec.userId) == []
    ensures var s' := IssueWritten(s, rec, None);
      && Valid(s')
      && IssueMatches(s'.issues, rec.githubId, rec.userId) == [IssueRow(s.nextId, rec)]
      && (forall g, u :: (g, u) != (rec.githubId, rec.userId) ==> IssueMatches(s'.issues, g, u) == IssueMatches(s.issues, g, u))
  {
    var s' := IssueWritten(s, rec, None);
    forall g, u
      ensures IssueMatches(s'.issues, g, u) == IssueMatches(s.issues, g, u) + IssueMatches([IssueRow(s.nextId, rec)], g, u)
    {
      IssueMatchesAppend(s.issues, [IssueRow(s.nextId, rec)], g, u);
    }
  }

  /** The store after writing the issue record for its key. */
  function IssueWritten(s: IssueStore, rec: IssueRecord, found: Option<IssueRow>): IssueStore {
    if found.Some? then s.(issues := UpdateIssueId(s.issues, found.value.id, rec))
    else s.(issues := s.issues + [IssueRow(s.nextId, rec)], nextId := s.nextId + 1)
  }

  /** `syncIssueToDatabase` keeps one row per (github_id, user). When it
      returns an id, the key's only row has that id and holds the issue's
      record, pointing at the synced repository; when the issue step throws,
      the issues are untouched; other keys' rows never change. */
  lemma SyncIssueUpdatesOrInserts(s: IssueStore, owner: string, repoName: string, g: GitHubIssue, u: string,
                                  fetched: RepoResponse, f: IssueFaults)
    requires Valid(s)
    ensures var (r, s') := SyncIssueEffect(s, owner, repoName, g, u, fetched, f);
      var repo := SyncRepositoryEffect(s, owner, repoName, u, None, fetched, f.repo).0;
      && Valid(s') && s.nextId <= s'.nextId
      && (r.Err? ==> s'.issues == s.issues)
      && (r.Ok? ==> repo.Ok? && IssueMatches(s'.issues, g.id, u) == [IssueRow(r.value, IssueRecordOf(g, repo.value, u))])
      && (forall g2, u2 :: (g2, u2) != (g.id, u) ==> IssueMatches(s'.issues, g2, u2) == IssueMatches(s.issues, g2, u2))
  {
    SyncRepositoryKeepsValid(s, owner, repoName, u, None, fetched, f.repo);
    var (repo, s1) := SyncRepositoryEffect(s, owner, repoName, u, None, fetched, f.repo);
    if repo.Ok? {
      IssueStepUpdatesOrInserts(s1, g, u, repo.value, f);
    }
  }

  /** The issue half on its own: the same promises, for a known
      repository row. */
  lemma IssueStepUpdatesOrInserts(s1: IssueStore, g: GitHubIssue, u: string, repositoryId: nat, f: IssueFaults)
    requires Valid(s1)
    ensures var (r, s') := IssueStepEffect(s1, g, u, repositoryId, f);
      && Valid(s') && s1.nextId <= s'.nextId
      && (r.Err? ==> s'.issues == s1.issues)
      && (r.Ok? ==> IssueMatches(s'.issues, g.id, u) == [IssueRow(r.value, IssueRecordOf(g, repositoryId, u))])
      && (forall g2, u2 :: (g2, u2) != (g.id, u) ==> IssueMatches(s'.issues, g2, u2) == IssueMatches(s1.issues, g2, u2))
  {
    var found := Checked(f.check, IssueMatches(s1.issues, g.id, u));
    if found.Ok? && f.write.None? {
      IssueWriteKeepsValid(s1, IssueRecordOf(g, repositoryId, u), found.value);
    }
  }

  // ------------------------------------------------------------ syncMultipleIssues

  const BATCH_SIZE: nat := 5

  /** `Issue #N: message`, one per failed issue. */
  function IssueError(number: int, message: string): (e: string)
    ensures StartsWith(e, "Issue #")
  {
    assert ("Issue #" + IntToString(number) + ": " + message)[..7] == "Issue #";
    "Issue #" + IntToString(number) + ": " + message
  }

  datatype SyncResults = SyncResults(success: nat, failed: nat, errors: seq<string>)

  /** The counters after one more issue: a success, or a failure with its
      message. */
  function Counted(res: SyncResults, number: int, one: Result<nat, string>): SyncResults {
    if one.Ok? then res.(success := res.success + 1)
    else SyncResults(res.success, res.failed + 1, res.errors + [IssueError(number, one.error)])
  }

  /** The results and the store after syncing the first `k` issues one
      after another, the i-th meeting `faults(i)`. Every issue is counted
      once, as a success or as a failure with exactly one "Issue #N: …"
      error. */
  function Tally(s: IssueStore, owner: string, repoName: string, issues: seq<GitHubIssue>, u: string,
                 fetched: RepoResponse, faults: nat -> IssueFaults, k: nat): (r: (SyncResults, IssueStore))
    requires k <= |issues|
    ensures r.0.success + r.0.failed == k
    ensures |r.0.errors| == r.0.failed
    ensures forall i :: 0 <= i < |r.0.errors| ==> StartsWith(r.0.errors[i], "Issue #")
    decreases k, 0
  {
    if k == 0 then (SyncResults(0, 0, []), s)
    else
      var (one, s2) := Outcome(s, owner, repoName, issues, u, fetched, faults, k - 1);
      (Counted(Tally(s, owner, repoName, issues, u, fetched, faults, k - 1).0, issues[k - 1].number, one), s2)
  }

  /** The sync of issue k, on the store the issues before it left. */
  function Outcome(s: IssueStore, owner: string, repoName: string, issues: seq<GitHubIssue>, u: string,
                   fetched: RepoResponse, faults: nat -> IssueFaults, k: nat): (Result<nat, string>, IssueStore)
    requires k < |issues|
    decreases k, 1
  {
    SyncIssueEffect(Tally(s, owner, repoName, issues, u, fetched, faults, k).1, owner, repoName, issues[k], u, fetched, faults(k))
  }

  /** `syncMultipleIssues`: the repository is synced first, and its failure
      is thrown; then every issue is synced, and partial failures are only
      counted. */
  function SyncMultipleEffect(s: IssueStore, owner: string, repoName: string, issues: seq<GitHubIssue>, u: string,
                              fetched: RepoResponse, first: RepoSyncFaults, faults: nat -> IssueFaults)
    : (r: (Result<SyncResults, string>, IssueStore))
    ensures r.0.Ok? ==> r.0.value.success + r.0.value.failed == |issues| && |r.0.value.errors| == r.0.value.failed
  {
    var (repo, s1) := SyncRepositoryEffect(s, owner, repoName, u, None, fetched, first);
    if repo.Err? then (Err(repo.error), s1)
    else
      var (res, s2) := Tally(s1, owner, repoName, issues, u, fetched, faults, |issues|);
      (Ok(res), s2)
  }

  /** The bulk sync keeps one issue row per (github_id, user). */
  lemma {:induction false} TallyKeepsValid(s: IssueStore, owner: string, repoName: string, issues: seq<GitHubIssue>,
                                           u: string, fetched: RepoResponse, faults: nat -> IssueFaults, k: nat)
    requires k <= |issues|
    requires Valid(s)
    ensures Valid(Tally(s, owner, repoName, issues, u, fetched, faults, k).1)
  {
    if k > 0 {
      TallyKeepsValid(s, owner, repoName, issues, u, fetched, faults, k - 1);
      var s1 := Tally(s, owner, repoName, issues, u, fetched, faults, k - 1).1;
      assert Outcome(s, owner, repoName, issues, u, fetched, faults, k - 1)
          == SyncIssueEffect(s1, owner, repoName, issues[k - 1], u, fetched, faults(k - 1));
      SyncIssueUpdatesOrInserts(s1, owner, repoName, issues[k - 1], u, fetched, faults(k - 1));
    }
  }

  /** The consecutive batches of at most `size` items, in order. */
  function Batches<T>(xs: seq<T>, size: nat): (bs: seq<seq<T>>)
    requires size > 0
    decreases |xs|
  {
    if xs == [] then []
    else if |xs| <= size then [xs]
    else [xs[..size]] + Batches(xs[size..], size)
  }

  /** The batches put back together are the list, and none is empty or
      holds more than `size` items. */
  lemma {:induction false} BatchesCover<T>(xs: seq<T>, size: nat)
    requires size > 0
    ensures Flatten(Batches(xs, size)) == xs
    ensures forall b :: 0 <= b < |Batches(xs, size)| ==> 0 < |Batches(xs, size)[b]| <= size
    decreases |xs|
  {
    if xs != [] && |xs| > size {
      var rest := Batches(xs[size..], size);
      BatchesCover(xs[size..], size);
      assert Batches(xs, size) == [xs[..size]] + rest;
      assert Flatten([xs[..size]] + rest) == xs[..size] + Flatten(rest);
      assert xs[..size] + xs[size..] == xs;
      forall b | 0 < b < |Batches(xs, size)| ensures 0 < |Batches(xs, size)[b]| <= size {
        assert Batches(xs, size)[b] == rest[b - 1];
      }
    } else if xs != [] {
      assert Flatten([xs]) == xs + Flatten([xs][1..]);
    }
  }

  /** Batch b is the items from b·size up to (b + 1)·size, or to the end:
      the slices the loop takes, in order. */
  lemma {:induction false} BatchAt<T>(xs: seq<T>, size: nat, b: nat)
    requires size > 0 && b * size < |xs|
    ensures b < |Batches(xs, size)|
    ensures Batches(xs, size)[b] == xs[b * size..Min(b * size + size, |xs|)]
    decreases b
  {
    if b > 0 {
      var lo := b * size;
      var prev: nat := (b - 1) * size;
      assert prev + size == lo;
      assert size < |xs|;
      BatchAt(xs[size..], size, b - 1);
      assert Batches(xs, size) == [xs[..size]] + Batches(xs[size..], size);
      var hi := Min(prev + size, |xs| - size);
      assert size + hi == Min(lo + size, |xs|);
      SliceOfDrop(xs, size, prev, hi);
    }
  }

  /** The slice `i..end` the loop takes is batch b. */
  lemma BatchIsSlice<T>(xs: seq<T>, size: nat, b: nat, i: nat, end: nat)
    requires size > 0 && i == size * b && i < |xs| && end == Min(i + size, |xs|)
    ensures b < |Batches(xs, size)| && Batches(xs, size)[b] == xs[i..end]
  {
    BatchAt(xs, size, b);
  }

  /** A slice of the list without its first d items is the slice shifted
      by d. */
  lemma SliceOfDrop<T>(xs: seq<T>, d: nat, i: nat, j: nat)
    requires d <= |xs| && i <= j <= |xs| - d
    ensures xs[d..][i..j] == xs[d + i..d + j]
  {
    forall n | 0 <= n < j - i ensures xs[d..][i..j][n] == xs[d + i..d + j][n] {
      assert xs[d..][i + n] == xs[d + i + n];
    }
  }

  // ------------------------------------------------------------ the database

  class IssueDatabase {
    var repos: seq<RepoEntry>
    var issues: seq<IssueRow>
    var nextId: nat

    function State(): IssueStore
      reads this
    {
      IssueStore(repos, issues, nextId)
    }

    constructor ()
      ensures State() == IssueStore([], [], 0)
    {
      repos := [];
      issues := [];
      nextId := 0;
    }

    /** `syncRepositoryToDatabase`. */
    method SyncRepositoryToDatabase(owner: string, repoName: string, userId: string,
                                    given: Option<GitHubRepo>, fetched: RepoResponse, f: RepoSyncFaults)
      returns (r: Result<nat, string>)
      modifies this
      ensures (r, State()) == SyncRepositoryEffect(old(State()), owner, repoName, userId, given, fetched, f)
    {
      var existing := Checked(f.check, RepoNamed(repos, owner + "/" + repoName, userId));
      if existing.Err? {
        return Err(DbMessage(existing.error));
      }
      if existing.value.Some? {
        return Ok(existing.value.value.id);
      }
      var source := RepoSource(given, fetched);
      if source.Err? {
        return Err(source.error);
      }
      if f.insert.Some? {
        return Err(DbMessage(f.insert.value));
      }
      r := Ok(nextId);
      repos := repos + [RepoEntry(nextId, RepoRecordOf(source.value, userId))];
      nextId := nextId + 1;
    }

    /** `syncIssueToDatabase`. */
    method SyncIssueToDatabase(owner: string, repoName: string, g: GitHubIssue, userId: string,
                               fetched: RepoResponse, f: IssueFaults)
      returns (r: Result<nat, string>)
      modifies this
      ensures (r, State()) == SyncIssueEffect(old(State()), owner, repoName, g, userId, fetched, f)
    {
      var repository := SyncRepositoryToDatabase(owner, repoName, userId, None, fetched, f.repo);
      if repository.Err? {
        return Err(repository.error);
      }
      var existing := Checked(f.check, IssueMatches(issues, g.id, userId));
      if existing.Err? {
        return Err(DbMessage(existing.error));
      }
      var rec := IssueRecordOf(g, repository.value, userId);
      if f.write.Some? {
        return Err(DbMessage(f.write.value));
      }
      if existing.value.Some? {
        r := Ok(existing.value.value.id);
        issues := UpdateIssueId(issues, existing.value.value.id, rec);
      } else {
        r := Ok(nextId);
        issues := issues + [IssueRow(nextId, rec)];
        nextId := nextId + 1;
      }
    }

    /** `syncMultipleIssues`: the repository first, then the issues in
        consecutive batches of five, each issue's outcome counted. */
    method SyncMultipleIssues(owner: string, repoName: string, githubIssues: seq<GitHubIssue>, userId: string,
                              fetched: RepoResponse, first: RepoSyncFaults, faults: nat -> IssueFaults)
      returns (r: Result<SyncResults, string>)
      modifies this
      ensures (r, State()) == SyncMultipleEffect(old(State()), owner, repoName, githubIssues, userId, fetched, first, faults)
    {
      var repository := SyncRepositoryToDatabase(owner, repoName, userId, None, fetched, first);
      if repository.Err? {
        return Err(repository.error);
      }
      ghost var s1 := State();
      var results := SyncInBatches(owner, repoName, githubIssues, userId, fetched, faults, s1);
      r := Ok(results);
    }

    /** The batch loop: the issues in consecutive batches of five, from a
        database `s1` that already holds the repository. */
    method SyncInBatches(owner: string, repoName: string, githubIssues: seq<GitHubIssue>, userId: string,
                         fetched: RepoResponse, faults: nat -> IssueFaults, ghost s1: IssueStore)
      returns (results: SyncResults)
      requires State() == s1
      modifies this
      ensures TalliedTo(s1, owner, repoName, githubIssues, userId, fetched, faults, |githubIssues|, results)
    {
      results := SyncResults(0, 0, []);
      var i := 0;
      ghost var b := 0;
      while i < |githubIssues|
        invariant 0 <= i && i == BATCH_SIZE * b
        invariant TalliedTo(s1, owner, repoName, githubIssues, userId, fetched, faults, Min(i, |githubIssues|), results)
      {
        var end := Min(i + BATCH_SIZE, |githubIssues|);
        BatchIsSlice(githubIssues, BATCH_SIZE, b, i, end);
        results := SyncBatch(owner, repoName, githubIssues, userId, fetched, faults, i, end, results, s1);
        i := i + BATCH_SIZE;
        b := b + 1;
      }
    }

    /** The results so far and the database are those of syncing the
        first k issues in order. */
    ghost predicate TalliedTo(s1: IssueStore, owner: string, repoName: string, githubIssues: seq<GitHubIssue>,
                              userId: string, fetched: RepoResponse, faults: nat -> IssueFaults, k: nat,
                              results: SyncResults)
      requires k <= |githubIssues|
      reads this
    {
      (results, State()) == Tally(s1, owner, repoName, githubIssues, userId, fetched, faults, k)
    }

    /** One batch: the issues `from` up to `to`, each synced and counted in
        turn. */
    method SyncBatch(owner: string, repoName: string, githubIssues: seq<GitHubIssue>, userId: string,
                     fetched: RepoResponse, faults: nat -> IssueFaults, from: nat, to: nat,
                     before: SyncResults, ghost s1: IssueStore)
      returns (results: SyncResults)
      requires from <= to <= |githubIssues|
      requires TalliedTo(s1, owner, repoName, githubIssues, userId, fetched, faults, from, before)
      modifies this
      ensures TalliedTo(s1, owner, repoName, githubIssues, userId, fetched, faults, to, results)
    {
      results := before;
      var k := from;
      while k < to
        invariant from <= k <= to
        invariant TalliedTo(s1, owner, repoName, githubIssues, userId, fetched, faults, k, results)
      {
        results := SyncAndCount(owner, repoName, githubIssues, userId, fetched, faults, k, results, s1);
        k := k + 1;
      }
    }

    /** The body of the batch's callback for issue k: sync it, then count a
        success or a failure with its message. */
    method SyncAndCount(owner: string, repoName: string, githubIssues: seq<GitHubIssue>, userId: string,
                        fetched: RepoResponse, faults: nat -> IssueFaults, k: nat,
                        before: SyncResults, ghost s1: IssueStore)
      returns (results: SyncResults)
      requires k < |githubIssues|
      requires TalliedTo(s1, owner, repoName, githubIssues, userId, fetched, faults, k, before)
      modifies this
      ensures TalliedTo(s1, owner, repoName, githubIssues, userId, fetched, faults, k + 1, results)
    {
      var one := SyncIssueToDatabase(owner, repoName, githubIssues[k], userId, fetched, faults(k));
      results := Counted(before, githubIssues[k].number, one);
    }
  }
}
