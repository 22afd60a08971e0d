/** `useGitHubAPI`: requests to the public GitHub REST API for trending
    repositories, repository search, the open issues of a repository and a
    single issue. Every request failure is turned into a fallback value
    and an error message. */
module GitHubApi {
  import opened Base
  import opened Strings

  /** A repository as the GitHub API returns it; `None` is a field that is
      missing or null. */
  datatype GitHubRepo = GitHubRepo(
    id: int, name: string, fullName: string, ownerLogin: string, description: Option<string>,
    htmlUrl: string, cloneUrl: Option<string>, sshUrl: Option<string>, language: Option<string>,
    stars: Option<int>, watchers: Option<int>, forks: Option<int>, openIssues: Option<int>,
    isPrivate: Option<bool>, isFork: Option<bool>, isArchived: Option<bool>,
    defaultBranch: Option<string>, topics: Option<seq<string>>, license: Option<string>,
    createdAt: string, updatedAt: string)

  datatype Label = Label(name: string, color: string)

  /** `labels.map(label => label.name)`. */
  function LabelNames(labels: seq<Label>): (r: seq<string>)
    ensures |r| == |labels|
    ensures forall i :: 0 <= i < |r| ==> r[i] == labels[i].name
  {
    seq(|labels|, i requires 0 <= i < |labels| => labels[i].name)
  }

  /** An issue as the GitHub API returns it. */
  datatype GitHubIssue = GitHubIssue(
    id: int, number: int, title: string, body: Option<string>, state: string, labels: seq<Label>,
    userLogin: string, userAvatarUrl: Option<string>, htmlUrl: string,
    createdAt: string, updatedAt: string, closedAt: Option<string>, comments: Option<int>)

  datatype SearchResponse = SearchResponse(totalCount: int, items: seq<GitHubRepo>)

  const EMPTY_SEARCH: SearchResponse := SearchResponse(0, [])

  /** What `fetch` gives: a response with its status and parsed body, or
      an error it throws (a network failure). */
  datatype Fetched<T> = Response(status: int, body: T) | Threw(message: string)

  /** `response.ok`. */
  predicate IsOk(status: int) {
    200 <= status <= 299
  }

  const API_ERROR_PREFIX: string := "GitHub API error: "

  function ApiErrorMessage(status: int): string {
    API_ERROR_PREFIX + IntToString(status)
  }

  /** The status can be read back from the message. */
  lemma ApiErrorMessageReadsBack(status: int)
    ensures StartsWith(ApiErrorMessage(status), API_ERROR_PREFIX)
    ensures ParseInt(ApiErrorMessage(status)[|API_ERROR_PREFIX|..]) == Some(status)
  {
    assert ApiErrorMessage(status)[|API_ERROR_PREFIX|..] == IntToString(status);
    ParseIntOfIntToString(status);
  }

  /** `makeGitHubRequest`: the parsed body of an ok response; otherwise the
      message of the error thrown. */
  function MakeRequest<T>(f: Fetched<T>): (r: Result<T, string>)
    ensures r.Ok? <==> f.Response? && IsOk(f.status)
    ensures r.Ok? ==> r.value == f.body
    ensures f.Response? && !IsOk(f.status) ==> r == Err(ApiErrorMessage(f.status))
    ensures f.Threw? ==> r == Err(f.message)
  {
    match f
    case Threw(m) => Err(m)
    case Response(status, body) => if IsOk(status) then Ok(body) else Err(ApiErrorMessage(status))
  }

  // ------------------------------------------------------------ queries

  /** `language && language !== 'all'`. */
  predicate HasLanguage(language: Option<string>) {
    language.Some? && language.value != "" && language.value != "all"
  }

  function LanguageClause(language: Option<string>): (c: string)
    ensures c == "" <==> !HasLanguage(language)
  {
    if HasLanguage(language) then " language:" + language.value else ""
  }

  /** The days of the `pushed` window: 1 for "daily", 7 for "weekly", 30
      for anything else. */
  function WindowDays(timeFilter: string): (d: nat)
    ensures d in {1, 7, 30}
    ensures timeFilter == "daily" <==> d == 1
    ensures timeFilter == "weekly" <==> d == 7
  {
    if timeFilter == "daily" then 1 else if timeFilter == "weekly" then 7 else 30
  }

  /** The trending query: repositories with more than 1000 stars, in the
      language when one other than "all" is given, pushed after the date
      the window reaches back to unless the filter is "all".
      `isoDaysAgo(d)` is the ISO date d days before today. */
  function TrendingQuery(timeFilter: string, language: Option<string>, isoDaysAgo: nat -> string): (q: string)
    ensures StartsWith(q, "stars:>1000")
    ensures HasLanguage(language) ==> Contains(q, " language:" + language.value)
    ensures timeFilter != "all" ==> EndsWith(q, " pushed:>" + isoDaysAgo(WindowDays(timeFilter)))
    ensures timeFilter == "all" ==> q == "stars:>1000" + LanguageClause(language)
  {
    var tail := if timeFilter == "all" then "" else " pushed:>" + isoDaysAgo(WindowDays(timeFilter));
    TrendingParts(LanguageClause(language), tail, language);
    "stars:>1000" + LanguageClause(language) + tail
  }

  lemma TrendingParts(clause: string, tail: string, language: Option<string>)
    requires clause == LanguageClause(language)
    ensures StartsWith("stars:>1000" + clause + tail, "stars:>1000")
    ensures HasLanguage(language) ==> Contains("stars:>1000" + clause + tail, " language:" + language.value)
    ensures EndsWith("stars:>1000" + clause + tail, tail)
  {
    var q := "stars:>1000" + clause + tail;
    assert q[..11] == "stars:>1000";
    assert q[|q| - |tail|..] == tail;
    if HasLanguage(language) {
      ContainsPart("stars:>1000", clause, tail);
    }
  }

  /** A language that is missing, empty or "all" filters as much as no
      language: the clause is appended only for a real language. */
  lemma NoLanguageIsNoFilter(timeFilter: string, query: string, language: Option<string>, isoDaysAgo: nat -> string)
    requires !HasLanguage(language)
    ensures TrendingQuery(timeFilter, language, isoDaysAgo) == TrendingQuery(timeFilter, None, isoDaysAgo)
    ensures SearchQuery(query, language) == query
  {
    assert LanguageClause(language) == "";
  }

  /** The search query: the user's text and the language clause. */
  function SearchQuery(query: string, language: Option<string>): (q: string)
    ensures StartsWith(q, query)
    ensures !HasLanguage(language) ==> q == query
    ensures HasLanguage(language) ==> EndsWith(q, " language:" + language.value)
  {
    query + LanguageClause(language)
  }

  /** The search URL; `encode` is `encodeURIComponent`. */
  function SearchUrl(q: string, page: int, perPage: int, encode: string -> string): string {
    "https://api.github.com/search/repositories?q=" + encode(q) + "&sort=stars&order=desc&page="
      + IntToString(page) + "&per_page=" + IntToString(perPage)
  }

  function RepoIssuesUrl(owner: string, repo: string, page: int, perPage: int): string {
    "https://api.github.com/repos/" + owner + "/" + repo + "/issues?state=open&page=" + IntToString(page)
      + "&per_page=" + IntToString(perPage)
  }

  function IssueUrl(owner: string, repo: string, issueNumber: string): string {
    "https://api.github.com/repos/" + owner + "/" + repo + "/issues/" + issueNumber
  }

  /** The value a request returns and the error it leaves: the body on
      success, the fallback and the message otherwise. */
  function Settle<T>(f: Fetched<T>, fallback: T): (r: (T, Option<string>))
    ensures r.1 == None <==> MakeRequest(f).Ok?
    ensures r.0 == if MakeRequest(f).Ok? then f.body else fallback
  {
    match MakeRequest(f)
    case Ok(body) => (body, None)
    case Err(m) => (fallback, Some(m))
  }

  /** A failed request returns its fallback, and the message names the
      status of a response that was not ok. */
  lemma FailureGivesFallback<T>(status: int, body: T, fallback: T)
    requires !IsOk(status)
    ensures Settle(Response(status, body), fallback) == (fallback, Some(ApiErrorMessage(status)))
  {
  }

  class GitHubApiState {
    var loading: bool
    var error: Option<string>

    constructor ()
      ensures !loading && error == None
    {
      loading := false;
      error := None;
    }

    /** `fetchTrendingRepositories`; `response` is what the request to
        `url` gives. */
    method FetchTrendingRepositories(timeFilter: string, language: Option<string>, page: int, perPage: int,
                                     isoDaysAgo: nat -> string, encode: string -> string,
                                     response: Fetched<SearchResponse>)
      returns (url: string, r: SearchResponse)
      modifies this
      ensures url == SearchUrl(TrendingQuery(timeFilter, language, isoDaysAgo), page, perPage, encode)
      ensures (r, error) == Settle(response, EMPTY_SEARCH)
      ensures !loading
    {
      loading := true;
      error := None;
      var clause := "";
      if HasLanguage(language) {
        clause := " language:" + language.value;
      }
      var tail := "";
      if timeFilter != "all" {
        var days := if timeFilter == "daily" then 1 else if timeFilter == "weekly" then 7 else 30;
        tail := " pushed:>" + isoDaysAgo(days);
      }
      var query := "stars:>1000" + clause + tail;
      assert query == TrendingQuery(timeFilter, language, isoDaysAgo);
      url := "https://api.github.com/search/repositories?q=" + encode(query) + "&sort=stars&order=desc&page="
        + IntToString(page) + "&per_page=" + IntToString(perPage);
      match MakeRequest(response) {
        case Ok(body) =>
          r := body;
        case Err(m) =>
          error := Some(m);
          r := EMPTY_SEARCH;
      }
      loading := false;
    }

    /** `searchRepositories`. */
    method SearchRepositories(query: string, language: Option<string>, page: int, perPage: int,
                              encode: string -> string, response: Fetched<SearchResponse>)
      returns (url: string, r: SearchResponse)
      modifies this
      ensures url == SearchUrl(SearchQuery(query, language), page, perPage, encode)
      ensures (r, error) == Settle(response, EMPTY_SEARCH)
      ensures !loading
    {
      loading := true;
      error := None;
      var clause := "";
      if HasLanguage(language) {
        clause := " language:" + language.value;
      }
      var searchQuery := query + clause;
      url := "https://api.github.com/search/repositories?q=" + encode(searchQuery) + "&sort=stars&order=desc&page="
        + IntToString(page) + "&per_page=" + IntToString(perPage);
      match MakeRequest(response) {
        case Ok(body) =>
          r := body;
        case Err(m) =>
          error := Some(m);
          r := EMPTY_SEARCH;
      }
      loading := false;
    }

    /** `fetchRepoIssues`: the open issues of one page, or none. */
    method FetchRepoIssues(owner: string, repo: string, page: int, perPage: int, response: Fetched<seq<GitHubIssue>>)
      returns (url: string, r: seq<GitHubIssue>)
      modifies this
      ensures url == RepoIssuesUrl(owner, repo, page, perPage)
      ensures (r, error) == Settle(response, [])
      ensures !loading
    {
      loading := true;
      error := None;
      url := "https://api.github.com/repos/" + owner + "/" + repo + "/issues?state=open&page=" + IntToString(page)
        + "&per_page=" + IntToString(perPage);
      match MakeRequest(response) {
        case Ok(body) =>
          r := body;
        case Err(m) =>
          error := Some(m);
          r := [];
      }
      loading := false;
    }

    /** `fetchIssueById`: the issue, or null. */
    method FetchIssueById(owner: string, repo: string, issueNumber: int, response: Fetched<GitHubIssue>)
      returns (url: string, r: Option<GitHubIssue>)
      modifies this
      ensures url == IssueUrl(owner, repo, IntToString(issueNumber))
      ensures r.Some? <==> MakeRequest(response).Ok?
      ensures r.Some? ==> r.value == response.body && error == None
      ensures r.None? ==> error == Some(MakeRequest(response).error)
      ensures !loading
    {
      loading := true;
      error := None;
      url := "https://api.github.com/repos/" + owner + "/" + repo + "/issues/" + IntToString(issueNumber);
      match MakeRequest(response) {
        case Ok(body) =>
          r := Some(body);
        case Err(m) =>
          error := Some(m);
          r := None;
      }
      loading := false;
    }
  }
}
