/** `DashboardHome`: the signed-in user's activity counts, read from the
    user's votes, comments, comment reactions and watched repositories. */
module Dashboard {
  import opened Base

  datatype UserStats = UserStats(
    issuesCommented: nat, issuesUpvoted: nat, issuesDownvoted: nat, issuesReacted: nat,
    repositoriesWatched: nat, totalVotes: nat, totalComments: nat, totalReactions: nat)

  const ZERO_STATS: UserStats := UserStats(0, 0, 0, 0, 0, 0, 0, 0)

  /** `votes?.filter(v => v.vote_type === kind).length || 0`. */
  function CountType(types: seq<string>, kind: string): (n: nat)
    ensures n <= |types|
  {
    if types == [] then 0 else (if types[0] == kind then 1 else 0) + CountType(types[1..], kind)
  }

  /** `rows?.length || 0`: a read that returns no data counts 0. */
  function LengthOr0<T>(rows: Option<seq<T>>): (n: nat)
    ensures rows.None? ==> n == 0
    ensures rows.Some? ==> n == |rows.value|
  {
    if rows.Some? then |rows.value| else 0
  }

  /** The stats record: `votes` are the vote types of the user's votes, the
      other three the ids of the user's comments, reactions and watches;
      `None` is a read that returns no data. */
  function StatsOf(votes: Option<seq<string>>, comments: Option<seq<string>>,
                   reactions: Option<seq<string>>, watched: Option<seq<string>>): (s: UserStats)
    ensures s.issuesCommented == s.totalComments && s.issuesReacted == s.totalReactions
    ensures s.totalVotes == LengthOr0(votes)
    ensures s.totalComments == LengthOr0(comments) && s.totalReactions == LengthOr0(reactions)
    ensures s.repositoriesWatched == LengthOr0(watched)
    ensures votes.None? ==> s.issuesUpvoted == 0 && s.issuesDownvoted == 0
    ensures votes.Some? ==> s.issuesUpvoted == CountType(votes.value, "up") && s.issuesDownvoted == CountType(votes.value, "down")
  {
    var up := if votes.Some? then CountType(votes.value, "up") else 0;
    var down := if votes.Some? then CountType(votes.value, "down") else 0;
    UserStats(LengthOr0(comments), up, down, LengthOr0(reactions), LengthOr0(watched),
              LengthOr0(votes), LengthOr0(comments), LengthOr0(reactions))
  }

  /** "Total Engagement". */
  function Engagement(s: UserStats): nat {
    s.totalVotes + s.totalComments + s.totalReactions
  }

  /** Up and down votes together never exceed all the votes, and match
      them exactly when every vote is "up" or "down". */
  lemma {:induction false} UpDownWithinTotal(types: seq<string>)
    ensures CountType(types, "up") + CountType(types, "down") <= |types|
    ensures (forall i :: 0 <= i < |types| ==> types[i] in {"up", "down"}) ==>
      CountType(types, "up") + CountType(types, "down") == |types|
  {
    if types != [] {
      UpDownWithinTotal(types[1..]);
      assert forall i :: 0 <= i < |types[1..]| ==> types[1..][i] == types[i + 1];
    }
  }

  /** The stats as shown: up plus down within the vote total, and the
      engagement the sum of votes, comments and reactions, with every
      missing read counted as 0. */
  lemma StatsShape(votes: Option<seq<string>>, comments: Option<seq<string>>,
                   reactions: Option<seq<string>>, watched: Option<seq<string>>)
    ensures var s := StatsOf(votes, comments, reactions, watched);
      && s.issuesUpvoted + s.issuesDownvoted <= s.totalVotes
      && Engagement(s) == LengthOr0(votes) + LengthOr0(comments) + LengthOr0(reactions)
      && (votes.None? && comments.None? && reactions.None? && watched.None? ==> s == ZERO_STATS)
  {
    if votes.Some? {
      UpDownWithinTotal(votes.value);
    }
  }

  class DashboardState {
    var stats: UserStats
    var loading: bool

    constructor ()
      ensures stats == ZERO_STATS && loading
    {
      stats := ZERO_STATS;
      loading := true;
    }

    /** `loadUserStats`: nothing without a user (the page keeps showing
        its loading state); otherwise the stats are set from the four reads
        and loading ends. */
    method LoadUserStats(user: Option<string>, votes: Option<seq<string>>, comments: Option<seq<string>>,
                         reactions: Option<seq<string>>, watched: Option<seq<string>>)
      modifies this
      ensures user.None? ==> stats == old(stats) && loading == old(loading)
      ensures user.Some? ==> stats == StatsOf(votes, comments, reactions, watched) && !loading
    {
      if user.None? {
        return;
      }
      stats := StatsOf(votes, comments, reactions, watched);
      loading := false;
    }
  }
}
