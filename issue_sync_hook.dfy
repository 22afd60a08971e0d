/** `useIssueSync`: once the issue page has an issue, a repository and a
    signed-in user, it rebuilds the GitHub API form of the issue from the
    page's record and stores it with `syncIssueToDatabase`, keeping the id
    of the stored row. */
module IssueSyncHook {
  import opened Base
  import opened Strings
  import opened GitHubApi
  import opened GitHubIssueHook
  import IssueSync

  /** `value || ''`. */
  function OrEmpty(value: Option<string>): (r: string)
    ensures value.Some? && value.value != "" ==> r == value.value
    ensures Missing(value) ==> r == ""
  {
    if value.Some? then value.value else ""
  }

  /** A label rebuilt from its name alone: `{ name, color: '' }`. */
  function Uncoloured(names: seq<string>): (r: seq<Label>)
    ensures LabelNames(r) == names
    ensures forall i :: 0 <= i < |r| ==> r[i].color == ""
  {
    seq(|names|, i requires 0 <= i < |names| => Label(names[i], ""))
  }

  /** The issue in the GitHub API's shape, rebuilt from the page's record
      with `id` as its number. */
  function ToFullIssue(d: IssueData, id: int): (g: GitHubIssue)
    ensures g.id == id
    ensures LabelNames(g.labels) == d.labels
    ensures g.body.Some? && g.userAvatarUrl.Some? && g.comments.Some?
    ensures g.updatedAt == g.createdAt == d.githubCreatedAt
    ensures g.closedAt.Some? <==> d.state == "closed"
    ensures g.closedAt.Some? ==> g.closedAt.value == g.createdAt
  {
    GitHubIssue(id, d.number, d.title, Some(OrEmpty(d.body)), d.state, Uncoloured(d.labels),
                d.authorLogin, Some(OrEmpty(d.authorAvatarUrl)), d.htmlUrl,
                d.githubCreatedAt, d.githubCreatedAt,
                if d.state == "closed" then Some(d.githubCreatedAt) else None,
                Some(IssueSync.OrZero(d.commentsCount)))
  }

  /** PostgreSQL's refusal of the text "NaN" as a `bigint`, which is what
      the lookup by `github_id` receives when `parseInt` finds no digits. */
  const NAN_LOOKUP: DbError := DbError("22P02", "invalid input syntax for type bigint: \"NaN\"")

  /** `parseInt(githubIssue.id)`, with 0 standing in for NaN. */
  function IssueKey(d: IssueData): int {
    var id := ParseInt(d.id);
    if id.Some? then id.value else 0
  }

  /** The issue `syncIssueToDatabase` receives. */
  function FullIssue(d: IssueData): (g: GitHubIssue)
    ensures ParseInt(d.id).Some? ==> g.id == ParseInt(d.id).value
  {
    ToFullIssue(d, IssueKey(d))
  }

  /** The faults of the lookup: a NaN key makes it fail whatever else
      happens. */
  function LookupFaults(d: IssueData, f: IssueSync.IssueFaults): (r: IssueSync.IssueFaults)
    ensures ParseInt(d.id).None? ==> r.check == Some(NAN_LOOKUP)
    ensures ParseInt(d.id).Some? ==> r == f
  {
    if ParseInt(d.id).None? then f.(check := Some(NAN_LOOKUP)) else f
  }

  /** Rebuilding the API issue from a record that `Transform` made gives
      back the same columns, save that a missing body or avatar is stored
      as "", a missing comment count as 0, the update time is the creation
      time and a closed issue counts as closed when it was created. */
  lemma RecordOfRebuiltIssue(g: GitHubIssue, owner: string, repo: string, repositoryId: nat, u: string)
    ensures var d := Transform(g, owner, repo);
      && ParseInt(d.id) == Some(g.id)
      && IssueSync.IssueRecordOf(FullIssue(d), repositoryId, u)
         == IssueSync.IssueRecordOf(g, repositoryId, u).(
              body := Some(OrEmpty(g.body)), authorAvatarUrl := Some(OrEmpty(g.userAvatarUrl)),
              updatedAt := g.createdAt,
              closedAt := if g.state == "closed" then Some(g.createdAt) else None)
  {
    var d := Transform(g, owner, repo);
    assert IssueKey(d) == g.id;
    assert LabelNames(Uncoloured(d.labels)) == LabelNames(g.labels);
  }

  /** Converting is stable: sending the rebuilt issue back through
      `Transform` and rebuilding it again changes nothing. */
  lemma RebuildStable(d: IssueData, id: int, owner: string, repo: string)
    ensures ToFullIssue(Transform(ToFullIssue(d, id), owner, repo), id) == ToFullIssue(d, id)
  {
    var g := ToFullIssue(d, id);
    var e := Transform(g, owner, repo);
    assert e.labels == d.labels;
    assert OrEmpty(e.body) == OrEmpty(d.body);
    assert OrEmpty(e.authorAvatarUrl) == OrEmpty(d.authorAvatarUrl);
    assert IssueSync.OrZero(e.commentsCount) == IssueSync.OrZero(d.commentsCount);
  }

  /** A record whose id is not a number is never stored: the sync fails
      and the issues table is left as it was. */
  lemma UnparsedIdStoresNothing(s: IssueSync.IssueStore, owner: string, repo: string, d: IssueData, u: string,
                                fetched: IssueSync.RepoResponse, f: IssueSync.IssueFaults)
    requires IssueSync.Valid(s)
    requires ParseInt(d.id).None?
    ensures var (r, s') := IssueSync.SyncIssueEffect(s, owner, repo, FullIssue(d), u, fetched, LookupFaults(d, f));
      r.Err? && s'.issues == s.issues && IssueSync.Valid(s')
  {
    IssueSync.SyncIssueUpdatesOrInserts(s, owner, repo, FullIssue(d), u, fetched, LookupFaults(d, f));
  }

  class IssueSyncState {
    var databaseIssueId: Option<nat>
    var loading: bool
    var error: Option<string>

    constructor ()
      ensures databaseIssueId == None && !loading && error == None
    {
      databaseIssueId := None;
      loading := false;
      error := None;
    }

    /** The effect's `syncIssue`: without an issue, an owner, a repository
        or a user nothing happens. Otherwise the rebuilt issue is synced;
        the id of its row is kept on success, the thrown message is shown
        on failure, and loading ends false. */
    method SyncIssue(db: IssueSync.IssueDatabase, githubIssue: Option<IssueData>, owner: Option<string>,
                     repo: Option<string>, user: Option<string>, fetched: IssueSync.RepoResponse,
                     f: IssueSync.IssueFaults)
      modifies this, db
      ensures githubIssue.None? || Missing(owner) || Missing(repo) || user.None? ==>
        unchanged(this) && unchanged(db)
      ensures !(githubIssue.None? || Missing(owner) || Missing(repo) || user.None?) ==>
        var d := githubIssue.value;
        var (r, s') := IssueSync.SyncIssueEffect(old(db.State()), owner.value, repo.value, FullIssue(d),
                                                 user.value, fetched, LookupFaults(d, f));
        && db.State() == s' && !loading
        && (r.Ok? ==> databaseIssueId == Some(r.value) && error == None)
        && (r.Err? ==> databaseIssueId == old(databaseIssueId) && error == Some(r.error))
    {
      if githubIssue.None? || Missing(owner) || Missing(repo) || user.None? {
        return;
      }
      loading := true;
      error := None;
      var d := githubIssue.value;
      var r := db.SyncIssueToDatabase(owner.value, repo.value, FullIssue(d), user.value, fetched, LookupFaults(d, f));
      if r.Ok? {
        databaseIssueId := Some(r.value);
      } else {
        error := Some(r.error);
      }
      loading := false;
    }
  }
}
