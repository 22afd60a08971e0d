/** `IssueVoting`: the up and down buttons of an issue. A click runs the
    vote mutation and reports a new score and vote to the parent, computed
    from the score and vote the parent passed in and from whether the
    mutation removed a vote. */
module IssueVoting {
  import opened Base
  import opened Tables
  import opened Counts
  import opened ServerToggle
  import VoteMutation
  import opened IssueVotesQuery

  /** The update reported after a successful mutation: a removed vote
      moves the score one step back and clears the vote; otherwise the
      score moves one step forward from no vote and two from the other
      vote, and the clicked vote is held. */
  function NewVoteState(count: int, held: Option<VoteType>, t: VoteType, removed: bool): (r: (int, Option<VoteType>))
  {
    var step := if t.Up? then 1 else -1;
    if removed then (count - step, None)
    else (count + (if held == None then step else 2 * step), Some(t))
  }

  /** The reported update is the local toggle of a record whose score and
      vote are the ones passed in, when the mutation removed exactly the
      vote the component believed held. */
  lemma NewVoteStateIsToggle(v: Votes, t: VoteType)
    requires v.NonNegative()
    requires v.userVote.Some? ==> v.Get(v.userVote.value) >= 1
    ensures NewVoteState(v.Score(), v.userVote, t, v.userVote == Some(t)) ==
      (ToggleVote(v, t).Score(), ToggleVote(v, t).userVote)
  {
    ToggleVoteScore(v, t);
  }

  /** When the parent passed the issue's current votes as read by the vote
      query, a click without faults reports exactly what the query reads
      from the table afterwards. */
  lemma ReportedUpdateIsRefetch(rows: seq<Row>, t: string, u: string, vt: VoteType)
    requires t != "" && UniqueKeys(rows) && KindsOn(rows, t, {"up", "down"})
    ensures var shown := VotesOfIssue(Some(rows), Some(t), Some(u));
      var (res, after) := UpsertToggle(rows, Some(u), t, vt.Name(), NO_FAULTS);
      var refetched := VotesOfIssue(Some(after), Some(t), Some(u));
      && res.Ok?
      && NewVoteState(shown.voteCount, shown.userVote, vt, res.value.removed) == (refetched.voteCount, refetched.userVote)
  {
    if Stored(rows, t, u) == Some(vt.Name()) {
      RefetchAfterDelete(rows, t, u, vt);
    } else {
      RefetchAfterUpsert(rows, t, u, vt);
    }
  }

  /** The click on the vote already held: the row is deleted. */
  lemma RefetchAfterDelete(rows: seq<Row>, t: string, u: string, vt: VoteType)
    requires t != "" && UniqueKeys(rows) && KindsOn(rows, t, {"up", "down"})
    requires Stored(rows, t, u) == Some(vt.Name())
    ensures var shown := VotesOfIssue(Some(rows), Some(t), Some(u));
      var (res, after) := UpsertToggle(rows, Some(u), t, vt.Name(), NO_FAULTS);
      var refetched := VotesOfIssue(Some(after), Some(t), Some(u));
      && res.Ok?
      && NewVoteState(shown.voteCount, shown.userVote, vt, res.value.removed) == (refetched.voteCount, refetched.userVote)
  {
    var k := vt.Name();
    var (res, after) := UpsertToggle(rows, Some(u), t, k, NO_FAULTS);
    UpsertToggleEffect(rows, u, t, k, t, u);
    StoredKindOn(rows, t, u, {"up", "down"});
    CurrentIsStored(rows, t, u);
    assert after == DeleteKey(rows, t, u);
    CountAfterDelete(rows, t, u, t, "up");
    CountAfterDelete(rows, t, u, t, "down");
  }

  /** Any other click: the row is upserted with the clicked kind. */
  lemma RefetchAfterUpsert(rows: seq<Row>, t: string, u: string, vt: VoteType)
    requires t != "" && UniqueKeys(rows) && KindsOn(rows, t, {"up", "down"})
    requires Stored(rows, t, u) != Some(vt.Name())
    ensures var shown := VotesOfIssue(Some(rows), Some(t), Some(u));
      var (res, after) := UpsertToggle(rows, Some(u), t, vt.Name(), NO_FAULTS);
      var refetched := VotesOfIssue(Some(after), Some(t), Some(u));
      && res.Ok?
      && NewVoteState(shown.voteCount, shown.userVote, vt, res.value.removed) == (refetched.voteCount, refetched.userVote)
  {
    UpsertToggleEffect(rows, u, t, vt.Name(), t, u);
    UpsertRefetchCount(rows, t, u, vt);
  }

  /** The score part of `RefetchAfterUpsert`: the clicked kind counts one
      more, and a vote held before one less. */
  lemma UpsertRefetchCount(rows: seq<Row>, t: string, u: string, vt: VoteType)
    requires t != "" && UniqueKeys(rows) && KindsOn(rows, t, {"up", "down"})
    requires Stored(rows, t, u) != Some(vt.Name())
    ensures var shown := VotesOfIssue(Some(rows), Some(t), Some(u));
      var after := UpsertToggle(rows, Some(u), t, vt.Name(), NO_FAULTS).1;
      NewVoteState(shown.voteCount, shown.userVote, vt, false).0 == VotesOfIssue(Some(after), Some(t), Some(u)).voteCount
  {
    var k := vt.Name();
    var after := UpsertToggle(rows, Some(u), t, k, NO_FAULTS).1;
    StoredKindOn(rows, t, u, {"up", "down"});
    CurrentIsStored(rows, t, u);
    assert after == UpsertKey(rows, t, u, k);
    CountAfterUpsert(rows, t, u, k, t, "up");
    CountAfterUpsert(rows, t, u, k, t, "down");
  }

  /** `handleVote(type)`: without a user or while a vote is pending nothing
      happens; otherwise the mutation runs and, when it succeeds, the new
      score and vote are reported. A failure is logged and swallowed.
      `update` is what `onVoteUpdate` receives, if it is called. */
  method HandleVote(votes: Table, user: Option<string>, pending: bool, issueId: string,
                    count: int, held: Option<VoteType>, vt: VoteType, f: Faults)
    returns (update: Option<(int, Option<VoteType>)>)
    requires votes.Valid()
    modifies votes
    ensures votes.Valid()
    ensures user.None? || pending ==> update == None && votes.rows == old(votes.rows)
    ensures user.Some? && !pending ==>
      var (res, after) := UpsertToggle(old(votes.rows), user, issueId, vt.Name(), f);
      && votes.rows == after
      && update == (if res.Ok? then Some(NewVoteState(count, held, vt, res.value.removed)) else None)
  {
    if user.None? || pending {
      return None;
    }
    var r := VoteMutation.MutationFn(votes, user, issueId, vt, f);
    if r.Ok? {
      update := Some(NewVoteState(count, held, vt, r.value.removed));
    } else {
      update := None;
    }
  }

  /** How a vote button is drawn. */
  datatype Button = Button(highlighted: bool, disabled: bool, spinning: bool)

  /** The button of vote t: highlighted when t is the vote passed in,
      disabled while the mutation is pending, with a spinner on the
      highlighted button while pending. */
  function VoteButton(held: Option<VoteType>, pending: bool, t: VoteType): (b: Button)
    ensures b.highlighted <==> held == Some(t)
    ensures b.disabled <==> pending
    ensures b.spinning <==> b.highlighted && b.disabled
  {
    Button(held == Some(t), pending, pending && held == Some(t))
  }

  /** At most one of the two buttons is highlighted, and both are disabled
      together. */
  lemma ButtonsAgree(held: Option<VoteType>, pending: bool)
    ensures !(VoteButton(held, pending, Up).highlighted && VoteButton(held, pending, Down).highlighted)
    ensures VoteButton(held, pending, Up).disabled == VoteButton(held, pending, Down).disabled
  {
  }
}
