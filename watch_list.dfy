/** `WatchList`: the signed-in user's watched repositories, ten per page,
    newest watch first, with removal from the list. */
module WatchList {
  import opened Base
  import opened Lists
  import opened Sorting
  import opened Watches

  /** The repository columns the list shows. */
  datatype WatchedRepo = WatchedRepo(
    id: nat, githubId: int, name: string, fullName: string, description: Option<string>,
    htmlUrl: string, language: Option<string>, stars: int, forks: int, openIssues: int,
    ownerLogin: string, createdAt: string, updatedAt: string)

  const LOAD_ERROR: string := "Failed to load watched repositories"
  const REMOVE_ERROR: string := "Failed to remove repository from watchlist"

  /** `Math.ceil((count || 0) / 10)`: a missing count counts as 0. */
  function TotalPages(count: Option<nat>): (n: nat)
    ensures count.None? ==> n == 0
    ensures count.Some? ==> PER_PAGE * (n - 1) < count.value <= PER_PAGE * n
  {
    var c := if count.Some? then count.value else 0;
    CeilDiv(c, PER_PAGE)
  }

  function CreatedKey(w: Watch): int {
    w.createdAt
  }

  /** The embedded repository of each watch, with watches whose repository
      row is missing (`repositories` is null) dropped. */
  function PresentRepos(ws: seq<Watch>, repos: map<nat, WatchedRepo>): (r: seq<WatchedRepo>)
    ensures |r| <= |ws|
    ensures forall i :: 0 <= i < |r| ==> r[i] in repos.Values
  {
    if ws == [] then []
    else (if ws[0].repositoryId in repos then [repos[ws[0].repositoryId]] else []) + PresentRepos(ws[1..], repos)
  }

  /** Every watch on the page whose repository exists contributes its
      repository, in the page's order. */
  lemma {:induction false} PresentReposKeepsFound(ws: seq<Watch>, repos: map<nat, WatchedRepo>)
    ensures |PresentRepos(ws, repos)| == |Filter(ws, (w: Watch) => w.repositoryId in repos)|
    ensures forall i :: 0 <= i < |ws| && ws[i].repositoryId in repos ==> repos[ws[i].repositoryId] in PresentRepos(ws, repos)
  {
    if ws != [] {
      PresentReposKeepsFound(ws[1..], repos);
      forall i | 0 <= i < |ws| && ws[i].repositoryId in repos
        ensures repos[ws[i].repositoryId] in PresentRepos(ws, repos)
      {
        if i > 0 {
          assert ws[i] == ws[1..][i - 1];
        }
      }
    }
  }

  /** The rows of page p: the user's watches, newest first, rows
      (p − 1)·10 through p·10 − 1, with their repositories. */
  function PageOfWatches(watches: seq<Watch>, repos: map<nat, WatchedRepo>, u: string, p: nat): (r: seq<WatchedRepo>)
    requires p >= 1
    ensures |r| <= PER_PAGE
  {
    var ordered := SortDesc(WatchesOf(watches, u), CreatedKey);
    PresentRepos(RangeSlice(ordered, PageRange(p).0, PageRange(p).1), repos)
  }

  /** Only the user's own watches are listed: every repository shown is
      watched by the user. */
  lemma PageShowsOwnWatches(watches: seq<Watch>, repos: map<nat, WatchedRepo>, u: string, p: nat, k: nat)
    requires p >= 1
    requires k < |PageOfWatches(watches, repos, u, p)|
    ensures exists w :: (w in watches && w.userId == u && w.repositoryId in repos
                         && repos[w.repositoryId] == PageOfWatches(watches, repos, u, p)[k])
  {
    var ordered := SortDesc(WatchesOf(watches, u), CreatedKey);
    var page := RangeSlice(ordered, PageRange(p).0, PageRange(p).1);
    var w := PresentOrigin(page, repos, k);
    assert w in ordered;
    SortDescMembership(WatchesOf(watches, u), CreatedKey, w);
  }

  /** The watch a listed repository comes from. */
  lemma {:induction false} PresentOrigin(ws: seq<Watch>, repos: map<nat, WatchedRepo>, k: nat) returns (w: Watch)
    requires k < |PresentRepos(ws, repos)|
    ensures w in ws && w.repositoryId in repos && repos[w.repositoryId] == PresentRepos(ws, repos)[k]
  {
    var head := if ws[0].repositoryId in repos then [repos[ws[0].repositoryId]] else [];
    assert PresentRepos(ws, repos) == head + PresentRepos(ws[1..], repos);
    if k < |head| {
      w := ws[0];
    } else {
      w := PresentOrigin(ws[1..], repos, k - |head|);
    }
  }

  /** The list after removing one repository: the others, in order. */
  function Without(repos: seq<WatchedRepo>, repoId: nat): (r: seq<WatchedRepo>)
    ensures forall x :: x in r <==> x in repos && x.id != repoId
    ensures IsSubsequence(r, repos)
  {
    var r := Filter(repos, (x: WatchedRepo) => x.id != repoId);
    forall x ensures x in r <==> x in repos && x.id != repoId {
      FilterMembership(repos, (x: WatchedRepo) => x.id != repoId, x);
    }
    FilterIsSubsequence(repos, (x: WatchedRepo) => x.id != repoId);
    r
  }

  /** Removing a repository that is not listed leaves the list as it was. */
  lemma WithoutAbsent(repos: seq<WatchedRepo>, repoId: nat)
    requires forall i :: 0 <= i < |repos| ==> repos[i].id != repoId
    ensures Without(repos, repoId) == repos
  {
    FilterAll(repos, (x: WatchedRepo) => x.id != repoId);
  }

  class WatchListState {
    var watchedRepos: seq<WatchedRepo>
    var loading: bool
    var error: Option<string>
    var removingRepos: set<nat>
    var currentPage: nat
    var totalPages: nat

    ghost predicate Valid()
      reads this
    {
      currentPage >= 1
    }

    constructor ()
      ensures Valid()
      ensures watchedRepos == [] && loading && error == None && removingRepos == {}
      ensures currentPage == 1 && totalPages == 1
    {
      watchedRepos := [];
      loading := true;
      error := None;
      removingRepos := {};
      currentPage := 1;
      totalPages := 1;
    }

    /** `loadWatchedRepositories`: without a user nothing happens.
        Otherwise the page count comes from the count of the user's
        watches (null when `countFails`), and the list becomes the current
        page; a failed page query keeps the list and sets the error. */
    method LoadWatchedRepositories(user: Option<string>, table: WatchTable, repos: map<nat, WatchedRepo>,
                                   countFails: bool, fault: Option<DbError>)
      requires Valid()
      modifies this
      ensures Valid()
      ensures user.None? ==> unchanged(this)
      ensures user.Some? ==>
        && totalPages == TotalPages(if countFails then None else Some(|WatchesOf(table.watches, user.value)|))
        && watchedRepos == (if fault.None? then PageOfWatches(table.watches, repos, user.value, currentPage) else old(watchedRepos))
        && error == (if fault.None? then None else Some(LOAD_ERROR))
        && !loading && currentPage == old(currentPage) && removingRepos == old(removingRepos)
    {
      if user.None? {
        return;
      }
      loading := true;
      error := None;
      var mine := WatchesOf(table.watches, user.value);
      var count: Option<nat> := if countFails then None else Some(|mine|);
      totalPages := TotalPages(count);
      if fault.Some? {
        error := Some(LOAD_ERROR);
      } else {
        var range := PageRange(currentPage);
        var page := RangeSlice(SortDesc(mine, CreatedKey), range.0, range.1);
        watchedRepos := PresentRepos(page, repos);
      }
      loading := false;
    }

    /** `handleRemoveFromWatchlist`: ignored without a user or while the
        same repository is being removed. Otherwise the user's watch of it
        is deleted; on success it leaves the list, on failure the error is
        set; the removing mark is cleared either way. */
    method HandleRemoveFromWatchlist(user: Option<string>, repoId: nat, table: WatchTable, fault: Option<DbError>)
      modifies this, table
      ensures currentPage == old(currentPage) && totalPages == old(totalPages) && loading == old(loading)
      ensures removingRepos == old(removingRepos)
      ensures user.None? || repoId in old(removingRepos) ==>
        watchedRepos == old(watchedRepos) && error == old(error) && table.watches == old(table.watches)
      ensures user.Some? && repoId !in old(removingRepos) ==>
        && table.watches == (if fault.None? then Unwatched(old(table.watches), user.value, repoId) else old(table.watches))
        && watchedRepos == (if fault.None? then Without(old(watchedRepos), repoId) else old(watchedRepos))
        && error == (if fault.None? then old(error) else Some(REMOVE_ERROR))
    {
      if user.None? || repoId in removingRepos {
        return;
      }
      removingRepos := removingRepos + {repoId};
      var err := table.Delete(user.value, repoId, fault);
      if err.None? {
        watchedRepos := Without(watchedRepos, repoId);
      } else {
        error := Some(REMOVE_ERROR);
      }
      removingRepos := removingRepos - {repoId};
    }

    /** `handlePageChange` from the Previous button, which is rendered only
        when there is more than one page; a disabled or missing button does
        nothing. From a page within range the page stays within range. */
    method PreviousPage()
      requires Valid()
      modifies this
      ensures Valid()
      ensures currentPage == if PaginationShown(totalPages) && PrevEnabled(old(currentPage)) then old(currentPage) - 1 else old(currentPage)
      ensures old(currentPage) <= totalPages ==> currentPage <= totalPages
      ensures watchedRepos == old(watchedRepos) && totalPages == old(totalPages)
      ensures loading == old(loading) && error == old(error) && removingRepos == old(removingRepos)
    {
      if PaginationShown(totalPages) && PrevEnabled(currentPage) {
        currentPage := currentPage - 1;
      }
    }

    /** `handlePageChange` from the Next button, rendered and enabled as
        the Previous one is. */
    method NextPage()
      requires Valid()
      modifies this
      ensures Valid()
      ensures currentPage == if PaginationShown(old(totalPages)) && NextEnabled(old(currentPage), old(totalPages)) then old(currentPage) + 1 else old(currentPage)
      ensures old(currentPage) <= totalPages ==> currentPage <= totalPages
      ensures watchedRepos == old(watchedRepos) && totalPages == old(totalPages)
      ensures loading == old(loading) && error == old(error) && removingRepos == old(removingRepos)
    {
      if PaginationShown(totalPages) && NextEnabled(currentPage, totalPages) {
        if currentPage <= totalPages {
          ButtonsStayInRange(currentPage, totalPages);
        }
        currentPage := currentPage + 1;
      }
    }
  }
}
