/** `repositorySync`: copies GitHub repositories into the `repositories`
    table, one row per (github_id, user_id), updating the row that is
    already there and inserting one otherwise. The bulk sync also links
    every newly inserted repository to the user in `user_repositories`. */
module RepositorySync {
  import opened Base
  import opened Strings
  import GitHubApi

  /** The columns written to `repositories`; `None` is SQL null. */
  datatype RepoData = RepoData(
    githubId: int, fullName: string, name: string, ownerLogin: string, description: Option<string>,
    htmlUrl: string, cloneUrl: Option<string>, sshUrl: Option<string>, language: Option<string>,
    stars: Option<int>, watchers: Option<int>, forks: Option<int>, openIssues: Option<int>,
    isPrivate: Option<bool>, isFork: Option<bool>, isArchived: Option<bool>,
    defaultBranch: Option<string>, topics: Option<seq<string>>, licenseName: Option<string>,
    createdAt: string, updatedAt: string, userId: string)

  /** `x || false` on an optional boolean. */
  function OrFalse(b: Option<bool>): bool {
    b.Some? && b.value
  }

  /** `branch || 'main'`: a missing or empty branch name becomes "main". */
  function OrMain(branch: Option<string>): (r: string)
    ensures r != ""
    ensures branch.Some? && branch.value != "" ==> r == branch.value
  {
    if branch.Some? && branch.value != "" then branch.value else "main"
  }

  /** `watchers_count || stargazers_count`: a missing or zero watcher count
      falls back to the star count. */
  function WatchersOrStars(watchers: Option<int>, stars: Option<int>): (r: Option<int>)
    ensures watchers.Some? && watchers.value != 0 ==> r == watchers
    ensures watchers == None || watchers == Some(0) ==> r == stars
  {
    if watchers.Some? && watchers.value != 0 then watchers else stars
  }

  function SshUrl(fullName: string): string {
    "git@github.com:" + fullName + ".git"
  }

  /** The repository's full name can be read back from its ssh url. */
  lemma SshUrlReadsBack(fullName: string)
    ensures |SshUrl(fullName)| == |fullName| + 19
    ensures SshUrl(fullName)[15..|fullName| + 15] == fullName
    ensures StartsWith(SshUrl(fullName), "git@github.com:") && EndsWith(SshUrl(fullName), ".git")
  {
    var s := SshUrl(fullName);
    assert s[..15] == "git@github.com:";
    assert s[|s| - 4..] == ".git";
  }

  /** The record `syncRepository` writes: the clone and ssh urls are derived
      from the html url and the full name, and missing values get their
      defaults. */
  function RepoDataOf(repo: GitHubApi.GitHubRepo, userId: string): (d: RepoData)
    ensures d.githubId == repo.id && d.fullName == repo.fullName && d.userId == userId
    ensures d.cloneUrl == Some(repo.htmlUrl + ".git") && d.sshUrl == Some(SshUrl(repo.fullName))
    ensures d.watchers == WatchersOrStars(repo.watchers, repo.stars)
    ensures d.isPrivate.Some? && d.isFork.Some? && d.isArchived.Some?
    ensures d.defaultBranch.Some? && d.defaultBranch.value != "" && d.topics.Some?
    ensures repo.topics.Some? ==> d.topics == repo.topics
  {
    RepoData(repo.id, repo.fullName, repo.name, repo.ownerLogin, repo.description, repo.htmlUrl,
      Some(repo.htmlUrl + ".git"), Some(SshUrl(repo.fullName)), repo.language,
      repo.stars, WatchersOrStars(repo.watchers, repo.stars), repo.forks, repo.openIssues,
      Some(OrFalse(repo.isPrivate)), Some(OrFalse(repo.isFork)), Some(OrFalse(repo.isArchived)),
      Some(OrMain(repo.defaultBranch)), Some(if repo.topics.Some? then repo.topics.value else []),
      repo.license, repo.createdAt, repo.updatedAt, userId)
  }

  /** The record `syncUserRepositories` writes: every column copied as the
      API gave it. */
  function DirectRepoData(repo: GitHubApi.GitHubRepo, userId: string): (d: RepoData)
    ensures d.githubId == repo.id && d.fullName == repo.fullName && d.userId == userId
    ensures d.cloneUrl == repo.cloneUrl && d.sshUrl == repo.sshUrl && d.watchers == repo.watchers
  {
    RepoData(repo.id, repo.fullName, repo.name, repo.ownerLogin, repo.description, repo.htmlUrl,
      repo.cloneUrl, repo.sshUrl, repo.language,
      repo.stars, repo.watchers, repo.forks, repo.openIssues,
      repo.isPrivate, repo.isFork, repo.isArchived,
      repo.defaultBranch, repo.topics, repo.license, repo.createdAt, repo.updatedAt, userId)
  }

  /** A complete record from the API, whose urls follow GitHub's scheme and
      whose watcher count is set (or already equals the star count). */
  predicate Complete(repo: GitHubApi.GitHubRepo) {
    && repo.cloneUrl == Some(repo.htmlUrl + ".git") && repo.sshUrl == Some(SshUrl(repo.fullName))
    && ((repo.watchers.Some? && repo.watchers.value != 0) || repo.watchers == repo.stars)
    && repo.isPrivate.Some? && repo.isFork.Some? && repo.isArchived.Some?
    && repo.defaultBranch.Some? && repo.defaultBranch.value != "" && repo.topics.Some?
  }

  /** The two mappings write the same row for a complete record, and only
      then: the fallbacks change nothing the API already supplied. */
  lemma MappingsAgreeOnComplete(repo: GitHubApi.GitHubRepo, userId: string)
    ensures RepoDataOf(repo, userId) == DirectRepoData(repo, userId) <==> Complete(repo)
  {
    var a, b := RepoDataOf(repo, userId), DirectRepoData(repo, userId);
    if Complete(repo) {
      assert Some(OrFalse(repo.isPrivate)) == repo.isPrivate;
      assert Some(OrFalse(repo.isFork)) == repo.isFork;
      assert Some(OrFalse(repo.isArchived)) == repo.isArchived;
      assert Some(OrMain(repo.defaultBranch)) == repo.defaultBranch;
      assert WatchersOrStars(repo.watchers, repo.stars) == repo.watchers;
    }
  }

  // ------------------------------------------------------------ tables

  /** A row of `repositories`: its id and its columns. */
  datatype RepoRow = RepoRow(id: nat, data: RepoData)

  /** A row of `user_repositories`. */
  datatype Link = Link(userId: string, repositoryId: nat, isFollowing: bool)

  /** Both tables and the next id the database hands out. */
  datatype Store = Store(rows: seq<RepoRow>, nextId: nat, links: seq<Link>)

  predicate HasKey(r: RepoRow, githubId: int, userId: string) {
    r.data.githubId == githubId && r.data.userId == userId
  }

  /** The rows `.eq('github_id', g).eq('user_id', u)` selects, in table order. */
  function KeyMatches(rows: seq<RepoRow>, g: int, u: string): (m: seq<RepoRow>)
    ensures |m| <= |rows|
    ensures forall i :: 0 <= i < |m| ==> HasKey(m[i], g, u)
  {
    if rows == [] then []
    else (if HasKey(rows[0], g, u) then [rows[0]] else []) + KeyMatches(rows[1..], g, u)
  }

  /** At most one row per (github_id, user_id). */
  ghost predicate UniqueKeys(rows: seq<RepoRow>) {
    forall g, u :: |KeyMatches(rows, g, u)| <= 1
  }

  /** Row ids are distinct and below the next id to hand out. */
  predicate IdsFresh(rows: seq<RepoRow>, nextId: nat) {
    && (forall i :: 0 <= i < |rows| ==> rows[i].id < nextId)
    && (forall i, j :: 0 <= i < j < |rows| ==> rows[i].id != rows[j].id)
  }

  ghost predicate Valid(s: Store) {
    UniqueKeys(s.rows) && IdsFresh(s.rows, s.nextId)
  }

  /** `.update(data).eq('id', id)`. */
  function UpdateId(rows: seq<RepoRow>, id: nat, d: RepoData): (r: seq<RepoRow>)
    ensures |r| == |rows|
    ensures forall i :: 0 <= i < |r| ==> r[i].id == rows[i].id
    ensures forall i :: 0 <= i < |r| ==> r[i] == if rows[i].id == id then RepoRow(id, d) else rows[i]
  {
    if rows == [] then []
    else [if rows[0].id == id then RepoRow(id, d) else rows[0]] + UpdateId(rows[1..], id, d)
  }

  /** `.maybeSingle()` on a key: no row, the row, or PGRST116 for several. */
  function MaybeSingleRow(rows: seq<RepoRow>, g: int, u: string): (r: Result<Option<RepoRow>, DbError>)
    ensures r.Err? <==> |KeyMatches(rows, g, u)| > 1
    ensures r.Err? ==> r.error.code == NOT_SINGLE
    ensures r.Ok? && r.value.Some? ==> KeyMatches(rows, g, u) == [r.value.value]
    ensures r.Ok? && r.value.None? ==> KeyMatches(rows, g, u) == []
  {
    var m := KeyMatches(rows, g, u);
    if |m| == 0 then Ok(None) else if |m| == 1 then Ok(Some(m[0]))
    else Err(DbError(NOT_SINGLE, "multiple rows returned"))
  }

  /** `.single()` on a key: the row, or PGRST116 unless there is exactly one. */
  function SingleRow(rows: seq<RepoRow>, g: int, u: string): (r: Result<RepoRow, DbError>)
    ensures r.Err? <==> |KeyMatches(rows, g, u)| != 1
    ensures r.Err? ==> r.error.code == NOT_SINGLE
    ensures r.Ok? ==> KeyMatches(rows, g, u) == [r.value]
  {
    var m := KeyMatches(rows, g, u);
    if |m| == 1 then Ok(m[0])
    else Err(DbError(NOT_SINGLE, if m == [] then "no rows returned" else "multiple rows returned"))
  }

  // ------------------------------------------------------------ frame lemmas

  lemma {:induction false} KeyMatchesAppend(a: seq<RepoRow>, b: seq<RepoRow>, g: int, u: string)
    ensures KeyMatches(a + b, g, u) == KeyMatches(a, g, u) + KeyMatches(b, g, u)
  {
    if a == [] {
      assert a + b == b;
    } else {
      assert (a + b)[0] == a[0];
      assert (a + b)[1..] == a[1..] + b;
      KeyMatchesAppend(a[1..], b, g, u);
    }
  }

  /** Updating the rows with one id, all of which carry the key of the new
      data, changes no other key's rows. */
  lemma {:induction false} KeyMatchesAfterUpdate(rows: seq<RepoRow>, id: nat, d: RepoData, g: int, u: string)
    requires forall i :: 0 <= i < |rows| && rows[i].id == id ==> HasKey(rows[i], d.githubId, d.userId)
    ensures (g, u) != (d.githubId, d.userId) ==> KeyMatches(UpdateId(rows, id, d), g, u) == KeyMatches(rows, g, u)
    ensures (g, u) == (d.githubId, d.userId) ==> KeyMatches(UpdateId(rows, id, d), g, u) == UpdateId(KeyMatches(rows, g, u), id, d)
  {
    if rows != [] {
      var tail := rows[1..];
      var r := if rows[0].id == id then RepoRow(id, d) else rows[0];
      assert UpdateId(rows, id, d) == [r] + UpdateId(tail, id, d);
      assert HasKey(r, g, u) <==> HasKey(rows[0], g, u);
      forall i | 0 <= i < |tail| && tail[i].id == id
        ensures HasKey(tail[i], d.githubId, d.userId)
      {
        assert tail[i] == rows[i + 1];
      }
      KeyMatchesAfterUpdate(tail, id, d, g, u);
      KeyMatchesAppend([r], UpdateId(tail, id, d), g, u);
      KeyMatchesAppend([rows[0]], tail, g, u);
      assert rows == [rows[0]] + tail;
      if (g, u) == (d.githubId, d.userId) {
        var m0 := if HasKey(rows[0], g, u) then [rows[0]] else [];
        assert UpdateId(m0 + KeyMatches(tail, g, u), id, d) == UpdateId(m0, id, d) + UpdateId(KeyMatches(tail, g, u), id, d);
      }
    }
  }

  /** The index of a row in the table it was selected from. */
  lemma {:induction false} MatchedRowIndex(rows: seq<RepoRow>, g: int, u: string, r: RepoRow) returns (k: nat)
    requires r in KeyMatches(rows, g, u)
    ensures k < |rows| && rows[k] == r
  {
    if rows[0] == r && HasKey(rows[0], g, u) {
      k := 0;
    } else {
      assert KeyMatches(rows, g, u) == (if HasKey(rows[0], g, u) then [rows[0]] else []) + KeyMatches(rows[1..], g, u);
      var k' := MatchedRowIndex(rows[1..], g, u, r);
      k := k' + 1;
    }
  }

  // ------------------------------------------------------------ syncRepository

  /** A lookup as it comes back: a failure of the request itself (any code
      but PGRST116, which only the data can cause), or the query's answer. */
  function Looked<T>(fault: Option<DbError>, answer: Result<T, DbError>): (r: Result<T, DbError>)
    ensures r.Err? && r.error.code == NOT_SINGLE ==> r == answer
  {
    if fault.Some? && fault.value.code != NOT_SINGLE then Err(fault.value) else answer
  }

  /** The lookup and write failures one `syncRepository` call meets. */
  datatype SyncFaults = SyncFaults(lookup: Option<DbError>, write: Option<DbError>)

  /** `syncRepository` on the store: the id of the row it updated or
      inserted, or the error it throws, and the new store. A lookup error
      PGRST116 counts as "no row found" and leads to an insert. */
  function SyncRepositoryEffect(s: Store, d: RepoData, f: SyncFaults): (Result<nat, DbError>, Store) {
    var found := Looked(f.lookup, MaybeSingleRow(s.rows, d.githubId, d.userId));
    if found.Err? && found.error.code != NOT_SINGLE then (Err(found.error), s)
    else if f.write.Some? then (Err(f.write.value), s)
    else if found.Ok? && found.value.Some? then
      (Ok(found.value.value.id), s.(rows := UpdateId(s.rows, found.value.value.id, d)))
    else (Ok(s.nextId), s.(rows := s.rows + [RepoRow(s.nextId, d)], nextId := s.nextId + 1))
  }

  /** Writing the data to the row found for its key, or appending a fresh
      row when none was found, keeps the store valid, leaves every other
      key's rows as they were and leaves exactly one row for the key, which
      holds the data. */
  lemma WriteKeepsValid(s: Store, d: RepoData, found: Option<RepoRow>)
    requires Valid(s)
    requires found.Some? ==> KeyMatches(s.rows, d.githubId, d.userId) == [found.value]
    requires found.None? ==> KeyMatches(s.rows, d.githubId, d.userId) == []
    ensures var s' := Written(s, d, found);
      && Valid(s')
      && KeyMatches(s'.rows, d.githubId, d.userId) == [RepoRow(if found.Some? then found.value.id else s.nextId, d)]
      && (forall g, u :: (g, u) != (d.githubId, d.userId) ==> KeyMatches(s'.rows, g, u) == KeyMatches(s.rows, g, u))
      && |s.rows| <= |s'.rows| && s'.links == s.links
  {
    if found.Some? {
      UpdateKeepsValid(s, d, found.value);
    } else {
      AppendKeepsValid(s, d);
    }
  }

  lemma UpdateKeepsValid(s: Store, d: RepoData, found: RepoRow)
    requires Valid(s)
    requires KeyMatches(s.rows, d.githubId, d.userId) == [found]
    ensures var s' := Written(s, d, Some(found));
      && Valid(s')
      && KeyMatches(s'.rows, d.githubId, d.userId) == [RepoRow(found.id, d)]
      && (forall g, u :: (g, u) != (d.githubId, d.userId) ==> KeyMatches(s'.rows, g, u) == KeyMatches(s.rows, g, u))
      && |s.rows| <= |s'.rows| && s'.links == s.links
  {
    var s' := Written(s, d, Some(found));
    var id := found.id;
    var k := MatchedRowIndex(s.rows, d.githubId, d.userId, found);
    forall i | 0 <= i < |s.rows| && s.rows[i].id == id
      ensures HasKey(s.rows[i], d.githubId, d.userId)
    {
      assert i == k;
    }
    forall g, u
      ensures (g, u) != (d.githubId, d.userId) ==> KeyMatches(s'.rows, g, u) == KeyMatches(s.rows, g, u)
      ensures (g, u) == (d.githubId, d.userId) ==> KeyMatches(s'.rows, g, u) == UpdateId(KeyMatches(s.rows, g, u), id, d)
    {
      KeyMatchesAfterUpdate(s.rows, id, d, g, u);
    }
    assert UpdateId([found], id, d) == [RepoRow(id, d)];
  }

  lemma AppendKeepsValid(s: Store, d: RepoData)
    requires Valid(s)
    requires KeyMatches(s.rows, d.githubId, d.userId) == []
    ensures var s' := Written(s, d, None);
      && Valid(s')
      && KeyMatches(s'.rows, d.githubId, d.userId) == [RepoRow(s.nextId, d)]
      && (forall g, u :: (g, u) != (d.githubId, d.userId) ==> KeyMatches(s'.rows, g, u) == KeyMatches(s.rows, g, u))
      && |s.rows| <= |s'.rows| && s'.links == s.links
  {
    var s' := Written(s, d, None);
    forall g, u
      ensures KeyMatches(s'.rows, g, u) == KeyMatches(s.rows, g, u) + KeyMatches([RepoRow(s.nextId, d)], g, u)
    {
      KeyMatchesAppend(s.rows, [RepoRow(s.nextId, d)], g, u);
    }
  }

  /** The store after writing the data for its key. */
  function Written(s: Store, d: RepoData, found: Option<RepoRow>): Store {
    if found.Some? then s.(rows := UpdateId(s.rows, found.value.id, d))
    else s.(rows := s.rows + [RepoRow(s.nextId, d)], nextId := s.nextId + 1)
  }

  /** `syncRepository` keeps one row per key. When it returns an id, the
      key's only row has that id and holds the data; every other key's rows
      are untouched. When it throws, nothing changed. */
  lemma SyncRepositoryUpdatesOrInserts(s: Store, d: RepoData, f: SyncFaults)
    requires Valid(s)
    ensures var (r, s') := SyncRepositoryEffect(s, d, f);
      && Valid(s') && s'.links == s.links
      && (r.Err? ==> s' == s)
      && (r.Ok? ==> KeyMatches(s'.rows, d.githubId, d.userId) == [RepoRow(r.value, d)])
      && (forall g, u :: (g, u) != (d.githubId, d.userId) ==> KeyMatches(s'.rows, g, u) == KeyMatches(s.rows, g, u))
  {
    var found := Looked(f.lookup, MaybeSingleRow(s.rows, d.githubId, d.userId));
    if !(found.Err? && found.error.code != NOT_SINGLE) && f.write.None? {
      var existing := if found.Ok? && found.value.Some? then found.value else None;
      WriteKeepsValid(s, d, existing);
    }
  }

  /** Syncing the same repository twice without faults returns the same
      id and leaves the store as the first sync left it. */
  lemma SyncRepositoryIdempotent(s: Store, d: RepoData)
    requires Valid(s)
    ensures var (r1, s1) := SyncRepositoryEffect(s, d, SyncFaults(None, None));
      var (r2, s2) := SyncRepositoryEffect(s1, d, SyncFaults(None, None));
      r1.Ok? && r2 == r1 && s2 == s1
  {
    SyncRepositoryUpdatesOrInserts(s, d, SyncFaults(None, None));
    var (r1, s1) := SyncRepositoryEffect(s, d, SyncFaults(None, None));
    ResyncChangesNothing(s1, d, r1.value);
  }

  /** When the key's only row already holds the data, syncing it again
      returns that row's id and rewrites the row with what it holds. */
  lemma ResyncChangesNothing(s1: Store, d: RepoData, id: nat)
    requires Valid(s1)
    requires KeyMatches(s1.rows, d.githubId, d.userId) == [RepoRow(id, d)]
    ensures SyncRepositoryEffect(s1, d, SyncFaults(None, None)) == (Ok(id), s1)
  {
    var row := RepoRow(id, d);
    assert MaybeSingleRow(s1.rows, d.githubId, d.userId) == Ok(Some(row));
    var k := MatchedRowIndex(s1.rows, d.githubId, d.userId, row);
    assert UpdateId(s1.rows, id, d) == s1.rows by {
      forall i | 0 <= i < |s1.rows|
        ensures UpdateId(s1.rows, id, d)[i] == s1.rows[i]
      {
        if s1.rows[i].id == id {
          assert i == k;
        }
      }
    }
  }

  /** One row per key is not a constraint of the table: the lookup's
      PGRST116 on several rows reads as "no row found". From a store with
      several rows for the key, a sync whose lookup and write succeed
      appends a fresh row holding the data, leaves every existing row as it
      was and adds a row to the key's rows. */
  lemma SyncRepositoryDuplicateAppends(s: Store, d: RepoData, f: SyncFaults)
    requires |KeyMatches(s.rows, d.githubId, d.userId)| > 1
    requires f.write.None? && (f.lookup.None? || f.lookup.value.code == NOT_SINGLE)
    ensures var (r, s') := SyncRepositoryEffect(s, d, f);
      && r == Ok(s.nextId)
      && s'.rows[..|s.rows|] == s.rows && |s'.rows| == |s.rows| + 1
      && s'.rows[|s.rows|] == RepoRow(s.nextId, d) && s'.nextId == s.nextId + 1 && s'.links == s.links
      && KeyMatches(s'.rows, d.githubId, d.userId) == KeyMatches(s.rows, d.githubId, d.userId) + [RepoRow(s.nextId, d)]
      && (forall g, u :: (g, u) != (d.githubId, d.userId) ==> KeyMatches(s'.rows, g, u) == KeyMatches(s.rows, g, u))
  {
    var row := RepoRow(s.nextId, d);
    forall g, u
      ensures KeyMatches(s.rows + [row], g, u) == KeyMatches(s.rows, g, u) + KeyMatches([row], g, u)
    {
      KeyMatchesAppend(s.rows, [row], g, u);
    }
    assert (s.rows + [row])[..|s.rows|] == s.rows;
  }

  /** From a store with several rows for the key, two fault-free syncs of
      the same repository return two different ids and append two rows:
      the sync is not idempotent there. */
  lemma DuplicateKeyResyncAppendsAgain(s: Store, d: RepoData)
    requires |KeyMatches(s.rows, d.githubId, d.userId)| > 1
    ensures var (r1, s1) := SyncRepositoryEffect(s, d, SyncFaults(None, None));
      var (r2, s2) := SyncRepositoryEffect(s1, d, SyncFaults(None, None));
      && r1 == Ok(s.nextId) && r2 == Ok(s.nextId + 1)
      && s2.rows == s.rows + [RepoRow(s.nextId, d), RepoRow(s.nextId + 1, d)]
      && |KeyMatches(s2.rows, d.githubId, d.userId)| == |KeyMatches(s.rows, d.githubId, d.userId)| + 2
  {
    var f := SyncFaults(None, None);
    SyncRepositoryDuplicateAppends(s, d, f);
    var (r1, s1) := SyncRepositoryEffect(s, d, f);
    SyncRepositoryDuplicateAppends(s1, d, f);
    var (r2, s2) := SyncRepositoryEffect(s1, d, f);
    assert s1.rows == s.rows + [RepoRow(s.nextId, d)] by {
      assert s1.rows == s1.rows[..|s.rows|] + [s1.rows[|s.rows|]];
    }
    assert s2.rows == s1.rows + [RepoRow(s1.nextId, d)] by {
      assert s2.rows == s2.rows[..|s1.rows|] + [s2.rows[|s1.rows|]];
    }
  }

  // ------------------------------------------------------------ syncUserRepositories

  /** The failures one repository of the bulk sync meets: the lookup, the
      update, the insert, and the link insert. */
  datatype StepFaults = StepFaults(lookup: Option<DbError>, update: Option<DbError>,
                                   insert: Option<DbError>, link: Option<DbError>)

  const NO_STEP_FAULTS: StepFaults := StepFaults(None, None, None, None)

  /** One pass of the bulk sync's loop. A lookup error other than PGRST116
      skips the repository; an update error is only logged; an insert
      error skips the link; a new row gets a followed link. */
  function SyncStep(s: Store, d: RepoData, f: StepFaults): Store {
    var found := Looked(f.lookup, SingleRow(s.rows, d.githubId, d.userId));
    if found.Err? && found.error.code != NOT_SINGLE then s
    else if found.Ok? then
      (if f.update.Some? then s else s.(rows := UpdateId(s.rows, found.value.id, d)))
    else if f.insert.Some? then s
    else
      var s' := s.(rows := s.rows + [RepoRow(s.nextId, d)], nextId := s.nextId + 1);
      if f.link.Some? then s' else s'.(links := s.links + [Link(d.userId, s.nextId, true)])
  }

  /** The public and private listings in order, mapped to rows. */
  function AllRepoData(repos: seq<GitHubApi.GitHubRepo>, userId: string): (ds: seq<RepoData>)
    ensures |ds| == |repos|
    ensures forall i :: 0 <= i < |repos| ==> ds[i] == DirectRepoData(repos[i], userId)
  {
    seq(|repos|, i requires 0 <= i < |repos| => DirectRepoData(repos[i], userId))
  }

  /** The store after the loop has handled `ds`, the i-th with faults(i). */
  function SyncAll(s: Store, ds: seq<RepoData>, faults: nat -> StepFaults): Store {
    if ds == [] then s
    else SyncStep(SyncAll(s, ds[..|ds| - 1], faults), ds[|ds| - 1], faults(|ds| - 1))
  }

  /** A link added by the sync follows a repository it inserted. */
  ghost predicate NewLinksFollowNewRows(s: Store, s': Store, userIds: set<string>) {
    && |s.links| <= |s'.links| && s'.links[..|s.links|] == s.links
    && forall j :: |s.links| <= j < |s'.links| ==>
         && s'.links[j].isFollowing && s'.links[j].userId in userIds
         && s.nextId <= s'.links[j].repositoryId < s'.nextId
  }

  /** One step keeps the store valid, keeps every row it had (possibly with
      new data), and only links a row it inserted. */
  lemma SyncStepKeepsValid(s: Store, d: RepoData, f: StepFaults)
    requires Valid(s)
    ensures var s' := SyncStep(s, d, f);
      && Valid(s') && s.nextId <= s'.nextId && |s.rows| <= |s'.rows|
      && NewLinksFollowNewRows(s, s', {d.userId})
      && (f == NO_STEP_FAULTS ==> |KeyMatches(s'.rows, d.githubId, d.userId)| == 1 && KeyMatches(s'.rows, d.githubId, d.userId)[0].data == d)
      && (forall g, u :: (g, u) != (d.githubId, d.userId) ==> KeyMatches(s'.rows, g, u) == KeyMatches(s.rows, g, u))
  {
    var found := Looked(f.lookup, SingleRow(s.rows, d.githubId, d.userId));
    var s' := SyncStep(s, d, f);
    if found.Err? && found.error.code != NOT_SINGLE {
    } else if found.Ok? {
      if f.update.None? {
        WriteKeepsValid(s, d, Some(found.value));
        assert s' == Written(s, d, Some(found.value));
      }
    } else if f.insert.None? {
      WriteKeepsValid(s, d, None);
    }
  }

  lemma NewLinksCompose(s0: Store, s1: Store, s2: Store, userIds: set<string>)
    requires NewLinksFollowNewRows(s0, s1, userIds) && NewLinksFollowNewRows(s1, s2, userIds)
    requires s0.nextId <= s1.nextId <= s2.nextId
    ensures NewLinksFollowNewRows(s0, s2, userIds)
  {
    assert s2.links[..|s0.links|] == s2.links[..|s1.links|][..|s0.links|];
    forall j | |s0.links| <= j < |s2.links|
      ensures s2.links[j].isFollowing && s2.links[j].userId in userIds
      ensures s0.nextId <= s2.links[j].repositoryId < s2.nextId
    {
      if j < |s1.links| {
        assert s2.links[j] == s1.links[j];
      }
    }
  }

  /** The bulk sync keeps the store valid and links only the repositories
      it inserted, all to the syncing user and followed. */
  lemma {:induction false} SyncAllKeepsValid(s: Store, ds: seq<RepoData>, faults: nat -> StepFaults, userId: string)
    requires Valid(s)
    requires forall i :: 0 <= i < |ds| ==> ds[i].userId == userId
    ensures var s' := SyncAll(s, ds, faults);
      Valid(s') && s.nextId <= s'.nextId && NewLinksFollowNewRows(s, s', {userId})
  {
    if ds == [] {
      assert s.links[..|s.links|] == s.links;
    } else {
      var init := ds[..|ds| - 1];
      SyncAllKeepsValid(s, init, faults, userId);
      var mid := SyncAll(s, init, faults);
      SyncStepKeepsValid(mid, ds[|ds| - 1], faults(|ds| - 1));
      NewLinksCompose(s, mid, SyncAll(s, ds, faults), {userId});
    }
  }

  /** One step without faults stores the data under its key, and touches
      no other key. */
  lemma SyncStepStores(s: Store, d: RepoData, g: int, u: string)
    requires Valid(s)
    requires (g, u) == (d.githubId, d.userId) || |KeyMatches(s.rows, g, u)| == 1
    ensures |KeyMatches(SyncStep(s, d, NO_STEP_FAULTS).rows, g, u)| == 1
  {
    SyncStepKeepsValid(s, d, NO_STEP_FAULTS);
  }

  /** Without faults, every listed repository ends up with exactly one row
      for the user. */
  lemma {:induction false} SyncAllStoresEvery(s: Store, ds: seq<RepoData>, faults: nat -> StepFaults, userId: string)
    requires Valid(s)
    requires forall i :: 0 <= i < |ds| ==> ds[i].userId == userId && faults(i) == NO_STEP_FAULTS
    ensures forall i :: 0 <= i < |ds| ==> |KeyMatches(SyncAll(s, ds, faults).rows, ds[i].githubId, userId)| == 1
  {
    if ds != [] {
      var init := ds[..|ds| - 1];
      var d := ds[|ds| - 1];
      SyncAllStoresEvery(s, init, faults, userId);
      SyncAllKeepsValid(s, init, faults, userId);
      var mid := SyncAll(s, init, faults);
      assert SyncAll(s, ds, faults) == SyncStep(mid, d, NO_STEP_FAULTS);
      forall i | 0 <= i < |ds|
        ensures |KeyMatches(SyncStep(mid, d, NO_STEP_FAULTS).rows, ds[i].githubId, userId)| == 1
      {
        if i < |init| {
          assert init[i] == ds[i];
          assert |KeyMatches(mid.rows, ds[i].githubId, userId)| == 1;
        } else {
          assert ds[i] == d && d.userId == userId;
        }
        assert Valid(mid);
        SyncStepStores(mid, d, ds[i].githubId, userId);
      }
    }
  }

  /** From a store with several rows for the key, `.single()` answers
      PGRST116, which the bulk sync reads as "not found": a pass without
      faults inserts yet another row for the key and links it. */
  lemma SyncStepDuplicateInserts(s: Store, d: RepoData)
    requires |KeyMatches(s.rows, d.githubId, d.userId)| > 1
    ensures var s' := SyncStep(s, d, NO_STEP_FAULTS);
      && s'.rows == s.rows + [RepoRow(s.nextId, d)]
      && s'.links == s.links + [Link(d.userId, s.nextId, true)]
      && |KeyMatches(s'.rows, d.githubId, d.userId)| == |KeyMatches(s.rows, d.githubId, d.userId)| + 1
  {
    KeyMatchesAppend(s.rows, [RepoRow(s.nextId, d)], d.githubId, d.userId);
  }

  /** A GitHub listing response: `ok`, `statusText` and the parsed list,
      or a request that threw. */
  datatype Listing = Listing(ok: bool, statusText: string, repos: seq<GitHubApi.GitHubRepo>) | Failed(message: string)

  /** The error thrown when one of the two listings is not ok: the public
      response's status text, or the private one's when that is empty. */
  function ListingError(pub: Listing, priv: Listing): (m: Option<string>)
    ensures m.None? <==> pub.Listing? && priv.Listing? && pub.ok && priv.ok
  {
    if pub.Failed? then Some(pub.message)
    else if priv.Failed? then Some(priv.message)
    else if pub.ok && priv.ok then None
    else Some(GitHubApi.API_ERROR_PREFIX + (if pub.statusText != "" then pub.statusText else priv.statusText))
  }

  /** The two tables the sync writes. */
  class Database {
    var rows: seq<RepoRow>
    var nextId: nat
    var links: seq<Link>

    function State(): Store
      reads this
    {
      Store(rows, nextId, links)
    }

    constructor ()
      ensures State() == Store([], 0, [])
    {
      rows := [];
      nextId := 0;
      links := [];
    }

    /** `syncRepository(repo, userId)`: the id of the synced row, or the
        database error it rethrows. */
    method SyncRepository(repo: GitHubApi.GitHubRepo, userId: string, f: SyncFaults) returns (r: Result<nat, DbError>)
      modifies this
      ensures (r, State()) == SyncRepositoryEffect(old(State()), RepoDataOf(repo, userId), f)
    {
      var d := RepoDataOf(repo, userId);
      var found := Looked(f.lookup, MaybeSingleRow(rows, repo.id, userId));
      if found.Err? && found.error.code != NOT_SINGLE {
        return Err(found.error);
      }
      var existing := if found.Ok? then found.value else None;
      if f.write.Some? {
        return Err(f.write.value);
      }
      if existing.Some? {
        rows := UpdateId(rows, existing.value.id, d);
        r := Ok(existing.value.id);
      } else {
        rows := rows + [RepoRow(nextId, d)];
        r := Ok(nextId);
        nextId := nextId + 1;
      }
    }

    /** One iteration of the bulk sync's loop. */
    method SyncOne(d: RepoData, f: StepFaults)
      modifies this
      ensures State() == SyncStep(old(State()), d, f)
    {
      var found := Looked(f.lookup, SingleRow(rows, d.githubId, d.userId));
      if found.Err? && found.error.code != NOT_SINGLE {
        return;
      }
      if found.Ok? {
        if f.update.None? {
          rows := UpdateId(rows, found.value.id, d);
        }
      } else {
        if f.insert.Some? {
          return;
        }
        var newId := nextId;
        rows := rows + [RepoRow(newId, d)];
        nextId := nextId + 1;
        if f.link.None? {
          links := links + [Link(d.userId, newId, true)];
        }
      }
    }

    /** `syncUserRepositories`: the number of repositories listed, public
        and private, whatever happened to each one in the database; or the
        error when a listing failed, before anything is written. */
    method SyncUserRepositories(userId: string, pub: Listing, priv: Listing, faults: nat -> StepFaults)
      returns (r: Result<nat, string>)
      modifies this
      ensures ListingError(pub, priv).Some? ==> r == Err(ListingError(pub, priv).value) && State() == old(State())
      ensures ListingError(pub, priv).None? ==>
        && r == Ok(|pub.repos| + |priv.repos|)
        && State() == SyncAll(old(State()), AllRepoData(pub.repos + priv.repos, userId), faults)
    {
      var err := ListingError(pub, priv);
      if err.Some? {
        return Err(err.value);
      }
      var all := pub.repos + priv.repos;
      ghost var ds := AllRepoData(all, userId);
      var i := 0;
      while i < |all|
        invariant 0 <= i <= |all|
        invariant State() == SyncAll(old(State()), ds[..i], faults)
      {
        assert ds[..i + 1][..i] == ds[..i];
        SyncOne(DirectRepoData(all[i], userId), faults(i));
        i := i + 1;
      }
      assert ds[..|all|] == ds;
      r := Ok(|all|);
    }
  }
}
