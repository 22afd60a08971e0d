/** `DiscussionsList`: the latest GitHub discussions of the repositories the
    user watches — at most five repositories queried, their discussions
    tagged with the repository, merged, newest first, twenty shown. */
module Discussions {
  import opened Base
  import opened Lists
  import opened Sorting

  const MAX_REPOS: nat := 5
  const MAX_SHOWN: nat := 20

  // ------------------------------------------------------------ full names

  predicate NoSlash(s: string) {
    forall i :: 0 <= i < |s| ==> s[i] != '/'
  }

  /** The position of the first '/', if any. */
  function FirstSlash(s: string): (r: Option<nat>)
    ensures r.Some? ==> r.value < |s| && s[r.value] == '/' && NoSlash(s[..r.value])
    ensures r.None? <==> NoSlash(s)
  {
    if s == [] then None
    else if s[0] == '/' then Some(0)
    else
      match FirstSlash(s[1..])
      case None => None
      case Some(i) =>
        assert s[..i + 1] == [s[0]] + s[1..][..i];
        Some(i + 1)
  }

  /** The text before the first '/', or all of it. */
  function FirstPart(s: string): (r: string)
    ensures NoSlash(r)
  {
    match FirstSlash(s)
    case None => s
    case Some(i) => s[..i]
  }

  /** `const [owner, repo] = fullName.split('/')`: the first two pieces;
      without a '/' there is no second piece (`repo` is undefined). */
  function SplitOwnerRepo(fullName: string): (r: (string, Option<string>))
    ensures NoSlash(r.0)
    ensures r.1.Some? ==> NoSlash(r.1.value)
    ensures r.1.None? <==> NoSlash(fullName)
  {
    match FirstSlash(fullName)
    case None => (fullName, None)
    case Some(i) => (fullName[..i], Some(FirstPart(fullName[i + 1..])))
  }

  /** An "owner/repo" name splits back into its owner and repository. */
  lemma SplitRoundTrip(owner: string, repo: string)
    requires NoSlash(owner) && NoSlash(repo)
    ensures SplitOwnerRepo(owner + "/" + repo) == (owner, Some(repo))
  {
    var s := owner + "/" + repo;
    assert s == owner + ("/" + repo);
    FirstSlashAfter(owner, "/" + repo);
    assert FirstSlash(s) == Some(|owner|);
    assert s[..|owner|] == owner;
    assert s[|owner| + 1..] == repo;
    assert FirstSlash(repo).None?;
    assert FirstPart(s[|owner| + 1..]) == repo;
  }

  /** The first '/' of a + b is the first of b when a has none. */
  lemma {:induction false} FirstSlashAfter(a: string, b: string)
    requires NoSlash(a) && b != [] && b[0] == '/'
    ensures FirstSlash(a + b) == Some(|a|)
  {
    if a != [] {
      assert (a + b)[1..] == a[1..] + b;
      FirstSlashAfter(a[1..], b);
    } else {
      assert a + b == b;
    }
  }

  // ------------------------------------------------------------ discussions

  /** The repository a discussion is shown under. */
  datatype RepoTag = RepoTag(name: Option<string>, fullName: string, ownerLogin: string)

  /** The fields of a discussion the list reads; `createdAt` is the time
      stamp of `created_at`. */
  datatype Discussion = Discussion(id: int, number: int, title: string, createdAt: int, repository: Option<RepoTag>)

  function CreatedAt(d: Discussion): int {
    d.createdAt
  }

  /** The tag built from the name the repository was queried under. */
  function TagOf(fullName: string): (t: RepoTag)
    ensures t.fullName == fullName
    ensures (t.ownerLogin, t.name) == SplitOwnerRepo(fullName)
  {
    var parts := SplitOwnerRepo(fullName);
    RepoTag(parts.1, fullName, parts.0)
  }

  /** Every discussion of one response with its repository replaced by the
      queried repository; nothing else changes. */
  function Tagged(ds: seq<Discussion>, fullName: string): (r: seq<Discussion>)
    ensures |r| == |ds|
    ensures forall i :: 0 <= i < |ds| ==> r[i] == ds[i].(repository := Some(TagOf(fullName)))
  {
    seq(|ds|, i requires 0 <= i < |ds| => ds[i].(repository := Some(TagOf(fullName))))
  }

  /** What one repository adds: its tagged discussions when the response
      was ok, nothing when the request failed or was not ok. */
  function Contribution(fullName: string, fetch: string -> Option<seq<Discussion>>): seq<Discussion> {
    if fetch(fullName).Some? then Tagged(fetch(fullName).value, fullName) else []
  }

  /** `allDiscussions` after the loop has visited `names`, in order. */
  function Gathered(names: seq<string>, fetch: string -> Option<seq<Discussion>>): seq<Discussion> {
    if names == [] then []
    else Gathered(names[..|names| - 1], fetch) + Contribution(names[|names| - 1], fetch)
  }

  /** A gathered discussion is one a queried repository answered with,
      tagged with that repository; every discussion of every answering
      repository is gathered, and a failing repository adds nothing. */
  lemma {:induction false} GatheredMembership(names: seq<string>, fetch: string -> Option<seq<Discussion>>, d: Discussion)
    ensures d in Gathered(names, fetch) <==>
      exists k :: 0 <= k < |names| && fetch(names[k]).Some? && d in Tagged(fetch(names[k]).value, names[k])
  {
    if names != [] {
      var init := names[..|names| - 1];
      GatheredMembership(init, fetch, d);
      var last := |names| - 1;
      if exists k :: 0 <= k < |init| && fetch(init[k]).Some? && d in Tagged(fetch(init[k]).value, init[k]) {
        var k :| 0 <= k < |init| && fetch(init[k]).Some? && d in Tagged(fetch(init[k]).value, init[k]);
        assert names[k] == init[k];
      }
      if exists k :: 0 <= k < |names| && fetch(names[k]).Some? && d in Tagged(fetch(names[k]).value, names[k]) {
        var k :| 0 <= k < |names| && fetch(names[k]).Some? && d in Tagged(fetch(names[k]).value, names[k]);
        if k < last {
          assert init[k] == names[k];
        } else {
          assert d in Contribution(names[last], fetch);
        }
      }
    }
  }

  /** Every gathered discussion carries the tag of one of the queried
      names. */
  lemma TagsFromQueried(names: seq<string>, fetch: string -> Option<seq<Discussion>>, d: Discussion)
    requires d in Gathered(names, fetch)
    ensures exists k :: 0 <= k < |names| && d.repository == Some(TagOf(names[k]))
  {
    GatheredMembership(names, fetch, d);
    var k :| 0 <= k < |names| && fetch(names[k]).Some? && d in Tagged(fetch(names[k]).value, names[k]);
    var ds := Tagged(fetch(names[k]).value, names[k]);
    var j :| 0 <= j < |ds| && ds[j] == d;
  }

  /** The list shown: the gathered discussions newest first, the first
      twenty of them. */
  function Shown(gathered: seq<Discussion>): (r: seq<Discussion>)
    ensures |r| <= MAX_SHOWN
    ensures SortedDesc(r, CreatedAt)
    ensures forall i :: 0 <= i < |r| ==> r[i] in gathered
    ensures |gathered| <= MAX_SHOWN ==> multiset(r) == multiset(gathered)
    ensures |gathered| >= MAX_SHOWN ==> |r| == MAX_SHOWN
    ensures multiset(r) <= multiset(gathered)
  {
    var sorted := SortDesc(gathered, CreatedAt);
    var r := Take(sorted, MAX_SHOWN);
    forall i | 0 <= i < |r| ensures r[i] in gathered {
      assert r[i] == sorted[i];
      SortDescMembership(gathered, CreatedAt, r[i]);
    }
    r
  }

  /** Nothing left out of the twenty is newer than anything shown. */
  lemma ShownAreNewest(gathered: seq<Discussion>, y: Discussion)
    requires y in gathered && y !in Shown(gathered)
    ensures forall i :: 0 <= i < |Shown(gathered)| ==> CreatedAt(Shown(gathered)[i]) >= CreatedAt(y)
  {
    var sorted := SortDesc(gathered, CreatedAt);
    SortDescMembership(gathered, CreatedAt, y);
    var j :| 0 <= j < |sorted| && sorted[j] == y;
    assert j >= |Shown(gathered)|;
    forall i | 0 <= i < |Shown(gathered)| ensures CreatedAt(Shown(gathered)[i]) >= CreatedAt(y) {
      assert Shown(gathered)[i] == sorted[i];
    }
  }

  /** `watches?.map(w => w.repositories?.full_name).filter(Boolean)`: the
      full names that are present and not empty; null data gives []. */
  function WatchedNames(rows: Option<seq<Option<string>>>): (r: seq<string>)
    ensures rows.None? ==> r == []
    ensures forall i :: 0 <= i < |r| ==> r[i] != ""
    ensures rows.Some? ==> forall n :: n in r <==> Some(n) in rows.value && n != ""
  {
    if rows.None? then []
    else
      var present := Filter(rows.value, (o: Option<string>) => o.Some? && o.value != "");
      forall n ensures n in Values(present) <==> Some(n) in rows.value && n != "" {
        FilterMembership(rows.value, (o: Option<string>) => o.Some? && o.value != "", Some(n));
        ValuesMembership(present, n);
      }
      Values(present)
  }

  /** The names of a list of present names. */
  function Values(os: seq<Option<string>>): (r: seq<string>)
    requires forall i :: 0 <= i < |os| ==> os[i].Some? && os[i].value != ""
    ensures |r| == |os|
    ensures forall i :: 0 <= i < |r| ==> r[i] == os[i].value && r[i] != ""
  {
    seq(|os|, i requires 0 <= i < |os| => os[i].value)
  }

  lemma ValuesMembership(os: seq<Option<string>>, n: string)
    requires forall i :: 0 <= i < |os| ==> os[i].Some? && os[i].value != ""
    ensures n in Values(os) <==> Some(n) in os
  {
    if Some(n) in os {
      var i :| 0 <= i < |os| && os[i] == Some(n);
      assert Values(os)[i] == n;
    }
  }

  class DiscussionsState {
    var discussions: seq<Discussion>
    var loading: bool
    var watchedRepos: seq<string>

    constructor ()
      ensures discussions == [] && loading && watchedRepos == []
    {
      discussions := [];
      loading := true;
      watchedRepos := [];
    }

    /** `loadWatchedRepositories`: without a user nothing happens;
        otherwise the watched names are those of the user's watch rows. */
    method LoadWatchedRepositories(user: Option<string>, rows: Option<seq<Option<string>>>)
      modifies this
      ensures user.None? ==> unchanged(this)
      ensures user.Some? ==> watchedRepos == WatchedNames(rows)
      ensures discussions == old(discussions) && loading == old(loading)
    {
      if user.None? {
        return;
      }
      watchedRepos := WatchedNames(rows);
    }

    /** `loadDiscussions`: without a token or watched repositories only
        loading ends. Otherwise the first five watched repositories are
        queried in order (`fetch` answers a name with the parsed body of an
        ok response, or None for a failed or not-ok request, which is
        skipped), and the merged discussions are shown newest first, at
        most twenty. Loading ends false. */
    method LoadDiscussions(hasToken: bool, fetch: string -> Option<seq<Discussion>>)
      modifies this
      ensures !loading && watchedRepos == old(watchedRepos)
      ensures !hasToken || |old(watchedRepos)| == 0 ==> discussions == old(discussions)
      ensures hasToken && |old(watchedRepos)| > 0 ==>
        discussions == Shown(Gathered(Take(watchedRepos, MAX_REPOS), fetch))
    {
      if !hasToken || |watchedRepos| == 0 {
        loading := false;
        return;
      }
      loading := true;
      var targets := Take(watchedRepos, MAX_REPOS);
      var all: seq<Discussion> := [];
      var i := 0;
      while i < |targets|
        invariant 0 <= i <= |targets|
        invariant all == Gathered(targets[..i], fetch)
      {
        var name := targets[i];
        var response := fetch(name);
        if response.Some? {
          all := all + Tagged(response.value, name);
        }
        assert targets[..i + 1][..i] == targets[..i];
        i := i + 1;
      }
      assert targets[..i] == targets;
      discussions := Shown(all);
      loading := false;
    }

    /** The effect on `[watchedRepos, provider_token]` as written: it loads
        only when there is a watched repository and a token, so otherwise
        `loadDiscussions`' own guard never runs and loading stays as it
        was. */
    method WatchedReposChangedAsWritten(hasToken: bool, fetch: string -> Option<seq<Discussion>>)
      modifies this
      ensures hasToken && |old(watchedRepos)| > 0 ==>
        !loading && discussions == Shown(Gathered(Take(watchedRepos, MAX_REPOS), fetch))
      ensures !(hasToken && |old(watchedRepos)| > 0) ==> unchanged(this)
    {
      if |watchedRepos| > 0 && hasToken {
        LoadDiscussions(hasToken, fetch);
      }
    }

    /** The effect as its guard evidently intends: `loadDiscussions` is
        called every time, and its own guard ends loading when there is
        nothing to load. */
    method WatchedReposChanged(hasToken: bool, fetch: string -> Option<seq<Discussion>>)
      modifies this
      ensures !loading && watchedRepos == old(watchedRepos)
      ensures !hasToken || |old(watchedRepos)| == 0 ==> discussions == old(discussions)
      ensures hasToken && |old(watchedRepos)| > 0 ==>
        discussions == Shown(Gathered(Take(watchedRepos, MAX_REPOS), fetch))
    {
      LoadDiscussions(hasToken, fetch);
    }
  }

  /** A user who watches nothing: with the effect as written the component,
      freshly mounted, still shows its loading placeholder after the watched
      list has loaded; with the intended effect it does not. */
  method NoWatchesKeepsLoadingAsWritten(fetch: string -> Option<seq<Discussion>>)
    returns (loadingAsWritten: bool, loadingIntended: bool)
    ensures loadingAsWritten && !loadingIntended
  {
    var shown := new DiscussionsState();
    shown.LoadWatchedRepositories(Some("user"), Some([]));
    shown.WatchedReposChangedAsWritten(true, fetch);
    loadingAsWritten := shown.loading;
    var fixed := new DiscussionsState();
    fixed.LoadWatchedRepositories(Some("user"), Some([]));
    fixed.WatchedReposChanged(true, fetch);
    loadingIntended := fixed.loading;
  }
}
