/** `UserRepos`: the signed-in user's GitHub repositories, split into the
    user's own and those of organisations, each list narrowed by the search
    box. */
module UserRepos {
  import opened Base
  import opened Strings
  import opened Lists

  /** The fields of a fetched repository the split and the search read. */
  datatype UserRepo = UserRepo(id: int, name: string, fullName: string, description: Option<string>, ownerLogin: string)

  /** The user's GitHub login (`user_metadata.user_name`), which may be
      missing. */
  datatype Account = Account(userName: Option<string>)

  /** `repo.owner.login === user_name`; a missing user name equals no login. */
  predicate OwnedBy(r: UserRepo, userName: Option<string>) {
    userName.Some? && r.ownerLogin == userName.value
  }

  function Personal(repos: seq<UserRepo>, userName: Option<string>): seq<UserRepo> {
    Filter(repos, (r: UserRepo) => OwnedBy(r, userName))
  }

  function Organizations(repos: seq<UserRepo>, userName: Option<string>): seq<UserRepo> {
    Filter(repos, (r: UserRepo) => !OwnedBy(r, userName))
  }

  /** The two tabs split the fetched list: every repository lands in exactly
      one of them, nothing is added, and each keeps the fetched order. */
  lemma PartitionOfRepos(repos: seq<UserRepo>, userName: Option<string>)
    ensures |Personal(repos, userName)| + |Organizations(repos, userName)| == |repos|
    ensures forall x :: x in repos <==> x in Personal(repos, userName) || x in Organizations(repos, userName)
    ensures forall x :: !(x in Personal(repos, userName) && x in Organizations(repos, userName))
    ensures forall x :: x in Personal(repos, userName) ==> OwnedBy(x, userName)
    ensures IsSubsequence(Personal(repos, userName), repos)
    ensures IsSubsequence(Organizations(repos, userName), repos)
  {
    var own := (r: UserRepo) => OwnedBy(r, userName);
    var other := (r: UserRepo) => !OwnedBy(r, userName);
    FilterSplitsLength(repos, own, other);
    forall x ensures x in repos <==> x in Personal(repos, userName) || x in Organizations(repos, userName) {
      FilterMembership(repos, own, x);
      FilterMembership(repos, other, x);
    }
    forall x ensures !(x in Personal(repos, userName) && x in Organizations(repos, userName)) {
      FilterMembership(repos, own, x);
      FilterMembership(repos, other, x);
    }
    forall x ensures x in Personal(repos, userName) ==> OwnedBy(x, userName) {
      FilterMembership(repos, own, x);
    }
    FilterIsSubsequence(repos, own);
    FilterIsSubsequence(repos, other);
  }

  /** Without a user name every repository is listed under organisations. */
  lemma NoUserNameAllOrganizations(repos: seq<UserRepo>)
    ensures Personal(repos, None) == []
    ensures Organizations(repos, None) == repos
  {
    FilterNone(repos, (r: UserRepo) => OwnedBy(r, None));
    FilterAll(repos, (r: UserRepo) => !OwnedBy(r, None));
  }

  /** The lowercased name contains the lowercased query, or the description
      does; a null description can match only through the name. */
  predicate Matches(r: UserRepo, query: string) {
    Contains(Lower(r.name), Lower(query))
    || (r.description.Some? && Contains(Lower(r.description.value), Lower(query)))
  }

  /** `filterRepos`: an empty query shows the list as it is; otherwise only
      the repositories that match, in their order. */
  function FilterRepos(repos: seq<UserRepo>, query: string): (r: seq<UserRepo>)
    ensures query == "" ==> r == repos
    ensures query != "" ==> forall x :: x in r <==> x in repos && Matches(x, query)
    ensures IsSubsequence(r, repos)
  {
    if query == "" then
      SubsequenceRefl(repos);
      repos
    else
      var r := Filter(repos, (x: UserRepo) => Matches(x, query));
      forall x ensures x in r <==> x in repos && Matches(x, query) {
        FilterMembership(repos, (x: UserRepo) => Matches(x, query), x);
      }
      FilterIsSubsequence(repos, (x: UserRepo) => Matches(x, query));
      r
  }

  /** The early return for an empty query agrees with the filter: every
      repository matches the empty query, so filtering would keep all. */
  lemma EmptyQueryMatchesAll(repos: seq<UserRepo>)
    ensures Filter(repos, (x: UserRepo) => Matches(x, "")) == FilterRepos(repos, "")
  {
    forall i | 0 <= i < |repos| ensures Matches(repos[i], "") {
      ContainsEmpty(Lower(repos[i].name));
    }
    FilterAll(repos, (x: UserRepo) => Matches(x, ""));
  }

  /** Searching the searched list again with the same query changes
      nothing. */
  lemma FilterTwiceIsFilter(repos: seq<UserRepo>, query: string)
    ensures FilterRepos(FilterRepos(repos, query), query) == FilterRepos(repos, query)
  {
    if query != "" {
      var p := (x: UserRepo) => Matches(x, query);
      var once := Filter(repos, p);
      assert forall i :: 0 <= i < |once| ==> p(once[i]);
      FilterAll(once, p);
    }
  }

  /** What the component shows: the two lists and the loading flag. */
  datatype ReposView = ReposView(personal: seq<UserRepo>, organizations: seq<UserRepo>, loading: bool)

  const INITIAL_VIEW: ReposView := ReposView([], [], true)

  /** `loadUserRepos`. Without a provider token or a user nothing is fetched.
      `fetched` is the parsed body of a response that was ok, or None when
      the request failed or was not ok; a failure is only logged and the
      lists stay as they were. Loading ends false in every case. */
  function LoadUserRepos(view: ReposView, hasToken: bool, user: Option<Account>,
                         fetched: Option<seq<UserRepo>>): (r: ReposView)
    ensures !r.loading
    ensures !hasToken || user.None? || fetched.None? ==>
      r.personal == view.personal && r.organizations == view.organizations
    ensures hasToken && user.Some? && fetched.Some? ==>
      && r.personal == Personal(fetched.value, user.value.userName)
      && r.organizations == Organizations(fetched.value, user.value.userName)
  {
    if !hasToken || user.None? then view.(loading := false)
    else if fetched.None? then view.(loading := false)
    else ReposView(Personal(fetched.value, user.value.userName),
                   Organizations(fetched.value, user.value.userName), false)
  }

  /** After a successful load the two tabs together hold every fetched
      repository exactly once, before any search. */
  lemma LoadedTabsCoverFetch(view: ReposView, user: Account, fetched: seq<UserRepo>)
    ensures |LoadUserRepos(view, true, Some(user), Some(fetched)).personal|
          + |LoadUserRepos(view, true, Some(user), Some(fetched)).organizations| == |fetched|
  {
    PartitionOfRepos(fetched, user.userName);
  }
}
