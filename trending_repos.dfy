/** `TrendingRepos`: a page of trending or searched GitHub repositories,
    and watching or unwatching one of them. */
module TrendingRepos {
  import opened Base
  import opened Strings
  import opened Watches
  import GitHubApi
  import RepositorySync

  /** The GitHub search API serves at most 1000 results, so at most 100
      pages of ten. */
  const MAX_PAGES: int := 100

  /** `Math.min(Math.ceil(total / 10), 100)`. */
  function TotalPages(total: int): (n: int)
    ensures n <= MAX_PAGES
    ensures total <= PER_PAGE * MAX_PAGES ==> n == CeilDiv(total, PER_PAGE)
    ensures total > PER_PAGE * MAX_PAGES ==> n == MAX_PAGES
  {
    var c := CeilDiv(total, PER_PAGE);
    MulLess(PER_PAGE, MAX_PAGES, c);
    if c <= MAX_PAGES then c else MAX_PAGES
  }

  /** An empty result has no pages. */
  lemma NoResultsNoPages()
    ensures TotalPages(0) == 0
  {
    assert CeilDiv(0, PER_PAGE) == 0;
  }

  /** The language sent to the API: "all" means none. */
  function LanguageParam(languageFilter: string): (l: Option<string>)
    ensures l.None? <==> languageFilter == "all"
  {
    if languageFilter == "all" then None else Some(languageFilter)
  }

  /** The search path is taken iff the query has a non-blank character. */
  predicate UsesSearch(searchQuery: string) {
    Trim(searchQuery) != ""
  }

  lemma UsesSearchIffNotBlank(searchQuery: string)
    ensures UsesSearch(searchQuery) <==> !AllSpace(searchQuery)
  {
    TrimEmptyIff(searchQuery);
  }

  /** The url `loadRepos` requests. */
  function LoadUrl(searchQuery: string, timeFilter: string, languageFilter: string, page: int,
                   isoDaysAgo: nat -> string, encode: string -> string): (url: string)
    ensures UsesSearch(searchQuery) ==>
      url == GitHubApi.SearchUrl(GitHubApi.SearchQuery(searchQuery, LanguageParam(languageFilter)), page, PER_PAGE, encode)
    ensures !UsesSearch(searchQuery) ==>
      url == GitHubApi.SearchUrl(GitHubApi.TrendingQuery(timeFilter, LanguageParam(languageFilter), isoDaysAgo), page, PER_PAGE, encode)
  {
    var q := if UsesSearch(searchQuery) then GitHubApi.SearchQuery(searchQuery, LanguageParam(languageFilter))
             else GitHubApi.TrendingQuery(timeFilter, LanguageParam(languageFilter), isoDaysAgo);
    GitHubApi.SearchUrl(q, page, PER_PAGE, encode)
  }

  /** The request `loadRepos` makes: `searchRepositories` when the query
      is not blank, `fetchTrendingRepositories` otherwise. */
  method RequestPage(api: GitHubApi.GitHubApiState, searchQuery: string, timeFilter: string, languageFilter: string,
                     page: int, isoDaysAgo: nat -> string, encode: string -> string,
                     response: GitHubApi.Fetched<GitHubApi.SearchResponse>)
    returns (url: string, result: GitHubApi.SearchResponse)
    modifies api
    ensures url == LoadUrl(searchQuery, timeFilter, languageFilter, page, isoDaysAgo, encode)
    ensures result == GitHubApi.Settle(response, GitHubApi.EMPTY_SEARCH).0
    ensures GitHubApi.MakeRequest(response).Err? ==> result == GitHubApi.EMPTY_SEARCH
  {
    var language := if languageFilter == "all" then None else Some(languageFilter);
    var query := Trim(searchQuery);
    if query != "" {
      url, result := api.SearchRepositories(searchQuery, language, page, PER_PAGE, encode, response);
    } else {
      url, result := api.FetchTrendingRepositories(timeFilter, language, page, PER_PAGE, isoDaysAgo, encode, response);
    }
  }

  /** The language filter "all" asks GitHub for the same url as no
      language would. */
  lemma AllLanguagesSameUrl(searchQuery: string, timeFilter: string, page: int,
                            isoDaysAgo: nat -> string, encode: string -> string)
    ensures LoadUrl(searchQuery, timeFilter, "all", page, isoDaysAgo, encode)
         == GitHubApi.SearchUrl(if UsesSearch(searchQuery) then searchQuery
                                else GitHubApi.TrendingQuery(timeFilter, None, isoDaysAgo), page, PER_PAGE, encode)
  {
    GitHubApi.NoLanguageIsNoFilter(timeFilter, searchQuery, None, isoDaysAgo);
  }

  /** The watched-state key of a repository: its GitHub id as a string. */
  function WatchKey(githubId: int): string {
    IntToString(githubId)
  }

  /** `loadWatchedRepos`: the GitHub ids, as strings, of the repositories
      the user's watches point to; watches whose repository row is missing
      contribute nothing. */
  function WatchedGithubIds(watches: seq<Watch>, rows: seq<RepositorySync.RepoRow>, u: string): (ids: set<string>)
    ensures forall i, j :: (0 <= i < |watches| && 0 <= j < |rows| && watches[i].userId == u
                            && rows[j].id == watches[i].repositoryId) ==> WatchKey(rows[j].data.githubId) in ids
  {
    set i, j | 0 <= i < |watches| && 0 <= j < |rows| && watches[i].userId == u && rows[j].id == watches[i].repositoryId
      :: WatchKey(rows[j].data.githubId)
  }

  /** Every id in the set comes from one of the user's watches. */
  lemma WatchedIdsComeFromWatches(watches: seq<Watch>, rows: seq<RepositorySync.RepoRow>, u: string, key: string)
    requires key in WatchedGithubIds(watches, rows, u)
    ensures exists i, j :: (0 <= i < |watches| && 0 <= j < |rows| && watches[i].userId == u
                            && rows[j].id == watches[i].repositoryId && key == WatchKey(rows[j].data.githubId))
  {
  }

  class TrendingState {
    var repos: seq<GitHubApi.GitHubRepo>
    var loading: bool
    var watchingRepos: set<int>
    var watchedRepoIds: set<string>
    var currentPage: nat
    var totalPages: int

    ghost predicate Valid()
      reads this
    {
      currentPage >= 1
    }

    constructor ()
      ensures Valid()
      ensures repos == [] && loading && watchingRepos == {} && watchedRepoIds == {}
      ensures currentPage == 1 && totalPages == 1
    {
      repos := [];
      loading := true;
      watchingRepos := {};
      watchedRepoIds := {};
      currentPage := 1;
      totalPages := 1;
    }

    /** `loadRepos`: the search path when the query is not blank, the
        trending path otherwise; the list and the page count come from the
        response, and a failed request leaves no repositories and no
        pages. */
    method LoadRepos(api: GitHubApi.GitHubApiState, searchQuery: string, timeFilter: string, languageFilter: string,
                     isoDaysAgo: nat -> string, encode: string -> string, response: GitHubApi.Fetched<GitHubApi.SearchResponse>)
      returns (url: string)
      requires Valid()
      modifies this, api
      ensures Valid() && !loading
      ensures url == LoadUrl(searchQuery, timeFilter, languageFilter, old(currentPage), isoDaysAgo, encode)
      ensures var body := GitHubApi.Settle(response, GitHubApi.EMPTY_SEARCH).0;
        repos == body.items && totalPages == TotalPages(body.totalCount)
      ensures GitHubApi.MakeRequest(response).Err? ==> repos == [] && totalPages == 0
      ensures currentPage == old(currentPage) && watchingRepos == old(watchingRepos) && watchedRepoIds == old(watchedRepoIds)
    {
      loading := true;
      var result;
      url, result := RequestPage(api, searchQuery, timeFilter, languageFilter, currentPage, isoDaysAgo, encode, response);
      NoResultsNoPages();
      repos := result.items;
      totalPages := TotalPages(result.totalCount);
      loading := false;
    }

    /** `loadWatchedRepos`: nothing without a user or when the query gives
        no data; otherwise the set of watched GitHub ids is replaced. */
    method LoadWatchedRepos(user: Option<string>, table: WatchTable, db: RepositorySync.Database, queryFails: bool)
      modifies this
      ensures user.None? || queryFails ==> watchedRepoIds == old(watchedRepoIds)
      ensures user.Some? && !queryFails ==> watchedRepoIds == WatchedGithubIds(table.watches, db.rows, user.value)
      ensures repos == old(repos) && watchingRepos == old(watchingRepos) && currentPage == old(currentPage)
      ensures totalPages == old(totalPages) && loading == old(loading)
    {
      if user.None? || queryFails {
        return;
      }
      watchedRepoIds := WatchedGithubIds(table.watches, db.rows, user.value);
    }

    /** `handleWatch`: ignored without a user or while the repository is
        being processed. The repository is synced; when that returns a row,
        a watch of it is inserted and it is marked watched, whether or not
        the insert succeeded. The processing mark is cleared either way. */
    method HandleWatch(user: Option<string>, repo: GitHubApi.GitHubRepo, db: RepositorySync.Database, table: WatchTable,
                       f: RepositorySync.SyncFaults, insertFault: Option<DbError>, now: int)
      modifies this, db, table
      ensures watchingRepos == old(watchingRepos)
      ensures repos == old(repos) && currentPage == old(currentPage) && totalPages == old(totalPages) && loading == old(loading)
      ensures user.None? || repo.id in old(watchingRepos) ==>
        watchedRepoIds == old(watchedRepoIds) && db.State() == old(db.State()) && table.watches == old(table.watches)
      ensures user.Some? && repo.id !in old(watchingRepos) ==>
        var (r, s) := RepositorySync.SyncRepositoryEffect(old(db.State()), RepositorySync.RepoDataOf(repo, user.value), f);
        && db.State() == s
        && watchedRepoIds == (if r.Ok? then old(watchedRepoIds) + {WatchKey(repo.id)} else old(watchedRepoIds))
        && table.watches == (if r.Ok? && insertFault.None? then old(table.watches) + [Watch(user.value, r.value, now)]
                             else old(table.watches))
    {
      if user.None? || repo.id in watchingRepos {
        return;
      }
      watchingRepos := watchingRepos + {repo.id};
      var synced := db.SyncRepository(repo, user.value, f);
      if synced.Ok? {
        var _ := table.Insert(user.value, synced.value, now, insertFault);
        watchedRepoIds := watchedRepoIds + {WatchKey(repo.id)};
      }
      watchingRepos := watchingRepos - {repo.id};
    }

    /** `handleUnwatch`: ignored without a user or while the repository is
        being processed. When the user's row for the repository is found,
        the watch is deleted (a failed delete is ignored) and it is marked
        unwatched; otherwise nothing changes. */
    method HandleUnwatch(user: Option<string>, repo: GitHubApi.GitHubRepo, db: RepositorySync.Database, table: WatchTable,
                         lookupFails: bool, deleteFault: Option<DbError>)
      modifies this, table
      ensures watchingRepos == old(watchingRepos)
      ensures repos == old(repos) && currentPage == old(currentPage) && totalPages == old(totalPages) && loading == old(loading)
      ensures var found := if lookupFails then None else FoundRow(db.rows, repo.id, user);
        && (found.None? ==> watchedRepoIds == old(watchedRepoIds) && table.watches == old(table.watches))
        && (found.Some? && repo.id !in old(watchingRepos) ==>
              && watchedRepoIds == old(watchedRepoIds) - {WatchKey(repo.id)}
              && table.watches == (if deleteFault.None? then Unwatched(old(table.watches), user.value, found.value) else old(table.watches)))
      ensures repo.id in old(watchingRepos) ==> watchedRepoIds == old(watchedRepoIds) && table.watches == old(table.watches)
    {
      if user.None? || repo.id in watchingRepos {
        return;
      }
      watchingRepos := watchingRepos + {repo.id};
      var dbRepo := if lookupFails then None else FoundRow(db.rows, repo.id, user);
      if dbRepo.Some? {
        var _ := table.Delete(user.value, dbRepo.value, deleteFault);
        watchedRepoIds := watchedRepoIds - {WatchKey(repo.id)};
      }
      watchingRepos := watchingRepos - {repo.id};
    }

    /** `handleSearch`: back to page 1; a non-blank input becomes the
        location hash. */
    method HandleSearch(searchInput: string, encode: string -> string) returns (hash: Option<string>)
      modifies this
      ensures Valid() && currentPage == 1
      ensures hash.Some? <==> UsesSearch(searchInput)
      ensures hash.Some? ==> hash.value == "#search=" + encode(searchInput)
      ensures repos == old(repos) && watchedRepoIds == old(watchedRepoIds) && watchingRepos == old(watchingRepos)
      ensures loading == old(loading) && totalPages == old(totalPages)
    {
      currentPage := 1;
      hash := if Trim(searchInput) != "" then Some("#search=" + encode(searchInput)) else None;
    }

    /** `handlePageChange` from the Previous and Next buttons, which are
        rendered only when there is more than one page; a disabled or
        missing button does nothing. From a page within range the page
        stays within range. */
    method ChangePage(next: bool)
      requires Valid()
      modifies this
      ensures Valid()
      ensures next ==> currentPage == if PaginationShown(totalPages) && NextEnabled(old(currentPage), totalPages) then old(currentPage) + 1 else old(currentPage)
      ensures !next ==> currentPage == if PaginationShown(totalPages) && PrevEnabled(old(currentPage)) then old(currentPage) - 1 else old(currentPage)
      ensures old(currentPage) <= totalPages ==> currentPage <= totalPages
      ensures repos == old(repos) && totalPages == old(totalPages) && watchedRepoIds == old(watchedRepoIds)
      ensures loading == old(loading) && watchingRepos == old(watchingRepos)
    {
      if PaginationShown(totalPages) {
        if currentPage <= totalPages {
          ButtonsStayInRange(currentPage, totalPages);
        }
        if next && NextEnabled(currentPage, totalPages) {
          currentPage := currentPage + 1;
        } else if !next && PrevEnabled(currentPage) {
          currentPage := currentPage - 1;
        }
      }
    }
  }

  /** The `repositories` row id `maybeSingle` finds for the user's copy of
      a GitHub repository: none when there is none or several, and none
      without a user. */
  function FoundRow(rows: seq<RepositorySync.RepoRow>, githubId: int, user: Option<string>): (r: Option<nat>)
    ensures r.Some? <==> user.Some? && |RepositorySync.KeyMatches(rows, githubId, user.value)| == 1
    ensures r.Some? ==> RepositorySync.KeyMatches(rows, githubId, user.value)[0].id == r.value
  {
    if user.None? then None
    else match RepositorySync.MaybeSingleRow(rows, githubId, user.value)
      case Ok(Some(row)) => Some(row.id)
      case _ => None
  }

  /** A watch whose writes succeed syncs a row that the unwatch lookup
      finds again, and the unwatch's delete of that row takes back exactly
      the watch the watch inserted: every other watch stays. */
  lemma WatchThenUnwatch(s: RepositorySync.Store, repo: GitHubApi.GitHubRepo, u: string, watches: seq<Watch>, now: int)
    requires RepositorySync.Valid(s)
    ensures var (r, s') := RepositorySync.SyncRepositoryEffect(s, RepositorySync.RepoDataOf(repo, u), RepositorySync.SyncFaults(None, None));
      && r.Ok? && FoundRow(s'.rows, repo.id, Some(u)) == Some(r.value)
      && (forall x :: x in Unwatched(watches + [Watch(u, r.value, now)], u, r.value) <==> x in watches && !IsWatch(x, u, r.value))
  {
    var d := RepositorySync.RepoDataOf(repo, u);
    RepositorySync.SyncRepositoryUpdatesOrInserts(s, d, RepositorySync.SyncFaults(None, None));
  }
}
