/** `useGitHubIssue`: loads one issue straight from the GitHub API and
    reshapes it into the record the issue page shows. */
module GitHubIssueHook {
  import opened Base
  import opened Strings
  import opened GitHubApi

  /** The issue as the page reads it: the id as text, label names only,
      and the repository's "owner/repo" name. */
  datatype IssueData = IssueData(
    id: string, number: int, title: string, body: Option<string>, state: string, labels: seq<string>,
    htmlUrl: string, authorLogin: string, authorAvatarUrl: Option<string>, githubCreatedAt: string,
    commentsCount: Option<int>, repositoryFullName: string)

  const RATE_LIMIT_ERROR: string := "GitHub API rate limit exceeded. Please try again later."

  /** `!value`: absent or empty. */
  predicate Missing(value: Option<string>) {
    value.None? || value.value == ""
  }

  /** The transform of an API issue: the id is printed in decimal (and reads
      back as the same number), labels keep only their names, `comments`
      becomes the comment count and the repository is "owner/repo". */
  function Transform(g: GitHubIssue, owner: string, repo: string): (d: IssueData)
    ensures ParseInt(d.id) == Some(g.id)
    ensures d.labels == LabelNames(g.labels)
    ensures d.commentsCount == g.comments
    ensures d.repositoryFullName == owner + "/" + repo
    ensures (d.number, d.title, d.body, d.state, d.htmlUrl) == (g.number, g.title, g.body, g.state, g.htmlUrl)
    ensures (d.authorLogin, d.authorAvatarUrl, d.githubCreatedAt) == (g.userLogin, g.userAvatarUrl, g.createdAt)
  {
    ParseIntOfIntToString(g.id);
    IssueData(IntToString(g.id), g.number, g.title, g.body, g.state, LabelNames(g.labels), g.htmlUrl,
              g.userLogin, g.userAvatarUrl, g.createdAt, g.comments, owner + "/" + repo)
  }

  /** The message for a response that was not ok. */
  function StatusError(status: int, issueNumber: string, owner: string, repo: string): string {
    if status == 404 then "Issue #" + issueNumber + " not found in " + owner + "/" + repo
    else if status == 403 then RATE_LIMIT_ERROR
    else ApiErrorMessage(status)
  }

  /** The three kinds of message can be told apart: only the generic one
      starts with "GitHub API error: ", and it carries the status; the
      not-found one names the issue and the repository. */
  lemma StatusErrorKinds(status: int, issueNumber: string, owner: string, repo: string)
    ensures StartsWith(StatusError(status, issueNumber, owner, repo), API_ERROR_PREFIX) <==> status != 403 && status != 404
    ensures status != 403 && status != 404 ==>
      ParseInt(StatusError(status, issueNumber, owner, repo)[|API_ERROR_PREFIX|..]) == Some(status)
    ensures status == 404 ==>
      Contains(StatusError(status, issueNumber, owner, repo), issueNumber)
      && Contains(StatusError(status, issueNumber, owner, repo), owner + "/" + repo)
  {
    var m := StatusError(status, issueNumber, owner, repo);
    if status == 404 {
      assert m[0] == 'I';
      ContainsPart("Issue #", issueNumber, " not found in " + owner + "/" + repo);
      assert m == "Issue #" + issueNumber + (" not found in " + owner + "/" + repo);
      assert m == ("Issue #" + issueNumber + " not found in ") + (owner + "/" + repo) + "";
      ContainsPart("Issue #" + issueNumber + " not found in ", owner + "/" + repo, "");
    } else if status == 403 {
      assert m[11] == 'r';
    } else {
      ApiErrorMessageReadsBack(status);
    }
  }

  class GitHubIssueState {
    var issue: Option<IssueData>
    var loading: bool
    var error: Option<string>

    constructor ()
      ensures issue == None && loading && error == None
    {
      issue := None;
      loading := true;
      error := None;
    }

    /** `loadIssue`: without an owner, a repository or an issue number
        only loading ends. Otherwise the issue is requested; an ok response
        is transformed and shown, a response that was not ok or a request
        that threw leaves no issue and its message. Loading ends false. */
    method LoadIssue(issueNumber: string, owner: Option<string>, repo: Option<string>, response: Fetched<GitHubIssue>)
      returns (url: Option<string>)
      modifies this
      ensures !loading
      ensures Missing(owner) || Missing(repo) || issueNumber == "" ==>
        url == None && issue == old(issue) && error == old(error)
      ensures !(Missing(owner) || Missing(repo) || issueNumber == "") ==>
        && url == Some(IssueUrl(owner.value, repo.value, issueNumber))
        && (response.Response? && IsOk(response.status) ==>
              issue == Some(Transform(response.body, owner.value, repo.value)) && error == None)
        && (response.Response? && !IsOk(response.status) ==>
              issue == None && error == Some(StatusError(response.status, issueNumber, owner.value, repo.value)))
        && (response.Threw? ==> issue == None && error == Some(response.message))
    {
      if Missing(owner) || Missing(repo) || issueNumber == "" {
        loading := false;
        return None;
      }
      loading := true;
      error := None;
      url := Some(IssueUrl(owner.value, repo.value, issueNumber));
      match response {
        case Threw(m) =>
          error := Some(m);
          issue := None;
        case Response(status, body) =>
          if !IsOk(status) {
            error := Some(StatusError(status, issueNumber, owner.value, repo.value));
            issue := None;
          } else {
            issue := Some(Transform(body, owner.value, repo.value));
          }
      }
      loading := false;
    }
  }
}
