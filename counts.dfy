/** The per-target count records the interface shows (`CommentVotes` and
    `CommentReactions`), the click toggles that update them locally, and the
    tallies that rebuild them from table rows. */
module Counts {
  import opened Base
  import opened Tables

  /** The reaction kinds the interface offers and the mutation accepts. */
  predicate IsReactionKind(k: string) {
    k == "heart" || k == "like" || k == "laugh" || k == "angry"
  }

  /** `CommentVotes`: the two counts and the signed-in user's vote. */
  datatype Votes = Votes(up: int, down: int, userVote: Option<VoteType>) {
    function Get(t: VoteType): int {
      if t.Up? then up else down
    }
    function With(t: VoteType, n: int): Votes {
      if t.Up? then this.(up := n) else this.(down := n)
    }
    function Score(): int {
      up - down
    }
    predicate NonNegative() {
      up >= 0 && down >= 0
    }
  }

  /** The record used for a comment that has no votes record yet. */
  const NO_VOTES: Votes := Votes(0, 0, None)

  /** `CommentReactions`: a count per reaction kind and the signed-in
      user's reaction. A kind without a key reads as 0, as `|| 0` does. */
  datatype Reactions = Reactions(counts: map<string, int>, userReaction: Option<string>) {
    function Get(k: string): int {
      if k in counts then counts[k] else 0
    }
    /** The four-way total over the offered kinds. */
    function Total(): int {
      Get("heart") + Get("like") + Get("laugh") + Get("angry")
    }
  }

  function ZeroCounts(): map<string, int> {
    map["heart" := 0, "like" := 0, "laugh" := 0, "angry" := 0]
  }

  /** The record used for a comment that has no reactions record yet. */
  const NO_REACTIONS: Reactions := Reactions(ZeroCounts(), None)

  // ------------------------------------------------------------------ votes

  /** A click on vote t: the held vote is withdrawn, any other vote is
      cast, replacing the one held before. Counts never drop below 0. */
  function ToggleVote(v: Votes, t: VoteType): (r: Votes)
    ensures r.userVote == if v.userVote == Some(t) then None else Some(t)
    ensures v.userVote == Some(t) ==>
      r.Get(t) == Max(0, v.Get(t) - 1) && r.Get(t.Opposite()) == v.Get(t.Opposite())
    ensures v.userVote == None ==>
      r.Get(t) == v.Get(t) + 1 && r.Get(t.Opposite()) == v.Get(t.Opposite())
    ensures v.userVote == Some(t.Opposite()) ==>
      r.Get(t) == v.Get(t) + 1 && r.Get(t.Opposite()) == Max(0, v.Get(t.Opposite()) - 1)
  {
    if v.userVote == Some(t) then
      v.With(t, Max(0, v.Get(t) - 1)).(userVote := None)
    else
      var w := if v.userVote.Some? then v.With(v.userVote.value, Max(0, v.Get(v.userVote.value) - 1)) else v;
      w.With(t, w.Get(t) + 1).(userVote := Some(t))
  }

  /** Clicking the same vote twice gives back the record, starting either
      from no vote or from that vote held with a count of at least one. */
  lemma ToggleVoteTwice(v: Votes, t: VoteType)
    requires v.NonNegative()
    requires v.userVote == None || (v.userVote == Some(t) && v.Get(t) >= 1)
    ensures ToggleVote(ToggleVote(v, t), t) == v
  {
    var once := ToggleVote(v, t);
    assert once.Get(t.Opposite()) == v.Get(t.Opposite());
  }

  /** The score (up minus down) a click produces, for a record whose counts
      include the held vote: withdrawing moves it one step back, a first
      vote one step forward, and a switch two steps forward. */
  lemma ToggleVoteScore(v: Votes, t: VoteType)
    requires v.NonNegative()
    requires v.userVote.Some? ==> v.Get(v.userVote.value) >= 1
    ensures var step := if t.Up? then 1 else -1;
      ToggleVote(v, t).Score() ==
        if v.userVote == Some(t) then v.Score() - step
        else if v.userVote == None then v.Score() + step
        else v.Score() + 2 * step
  {
  }

  // -------------------------------------------------------------- reactions

  /** A click on reaction k: the held reaction is withdrawn, any other is
      added, replacing the one held before. Counts never drop below 0; a
      kind without a key is created, as the object spread does. */
  function ToggleReaction(r: Reactions, k: string): (s: Reactions)
    ensures s.userReaction == if r.userReaction == Some(k) then None else Some(k)
    ensures r.userReaction == Some(k) ==> s.Get(k) == Max(0, r.Get(k) - 1)
    ensures r.userReaction != Some(k) ==> s.Get(k) == r.Get(k) + 1
    ensures r.userReaction != Some(k) && Truthy(r.userReaction) ==>
      s.Get(r.userReaction.value) == Max(0, r.Get(r.userReaction.value) - 1)
    ensures forall j :: j != k && Some(j) != r.userReaction ==> s.Get(j) == r.Get(j)
    ensures r.counts.Keys <= s.counts.Keys
    ensures forall j :: j in s.counts ==> j in r.counts || j == k || Some(j) == r.userReaction
  {
    if r.userReaction == Some(k) then
      Reactions(r.counts[k := Max(0, r.Get(k) - 1)], None)
    else
      var c := if Truthy(r.userReaction) then r.counts[r.userReaction.value := Max(0, r.Get(r.userReaction.value) - 1)] else r.counts;
      Reactions(c[k := (if k in c then c[k] else 0) + 1], Some(k))
  }

  /** Clicking the same reaction twice gives back the record, starting from
      no reaction or from that reaction held with a count of at least one,
      provided the record already has a count for that kind. */
  lemma ToggleReactionTwice(r: Reactions, k: string)
    requires k in r.counts && r.counts[k] >= 0
    requires r.userReaction == None || (r.userReaction == Some(k) && r.counts[k] >= 1)
    ensures ToggleReaction(ToggleReaction(r, k), k) == r
  {
    var once := ToggleReaction(r, k);
    var twice := ToggleReaction(once, k);
    assert twice.counts == r.counts;
  }

  /** The four-way total grows by one when there was no reaction, and stays
      the same when switching away from another offered kind with a count
      of at least one. */
  lemma ToggleReactionTotal(r: Reactions, k: string)
    requires IsReactionKind(k)
    ensures r.userReaction == None ==> ToggleReaction(r, k).Total() == r.Total() + 1
    ensures (r.userReaction.Some? && r.userReaction.value != k && IsReactionKind(r.userReaction.value)
             && r.Get(r.userReaction.value) >= 1) ==> ToggleReaction(r, k).Total() == r.Total()
  {
  }

  // ---------------------------------------------------------------- tallies

  /** The user's vote read back from the kind of their row. */
  function UserVoteOf(kind: Option<string>): Option<VoteType> {
    if kind.Some? then ParseVoteType(kind.value) else None
  }

  /** The votes record of target c rebuilt from the rows: "up" rows count
      as up, every other row as down, and the user's last row gives the
      user's vote. */
  function VoteTally(rows: seq<Row>, c: string, user: string): (v: Votes)
    ensures v.up + v.down == CountOn(rows, c)
    ensures v.NonNegative()
  {
    var up := CountKind(rows, c, "up");
    assert up <= CountOn(rows, c) by {
      CountKindAtMostOn(rows, c, "up");
    }
    Votes(up, CountOn(rows, c) - up, UserVoteOf(LastKind(rows, c, user)))
  }

  lemma {:induction false} CountKindAtMostOn(rows: seq<Row>, t: string, k: string)
    ensures CountKind(rows, t, k) <= CountOn(rows, t)
  {
    if rows != [] {
      CountKindAtMostOn(rows[1..], t, k);
    }
  }

  /** The reactions record of target c rebuilt from the rows: a count per
      offered kind and the kind of the user's last row. */
  function ReactionTally(rows: seq<Row>, c: string, user: string): (r: Reactions)
    ensures forall k :: IsReactionKind(k) ==> r.Get(k) == CountKind(rows, c, k)
    ensures r.counts.Keys == ZeroCounts().Keys
  {
    Reactions(
      map["heart" := CountKind(rows, c, "heart"), "like" := CountKind(rows, c, "like"),
          "laugh" := CountKind(rows, c, "laugh"), "angry" := CountKind(rows, c, "angry")],
      LastKind(rows, c, user))
  }

  // ------------------------------------------------- folding rows one by one

  /** One reaction row folded into its target's record, as the aggregation
      loops do: an offered kind counts one more, any other kind is skipped,
      and a row of the user records its kind. */
  function ReactionStep(rec: Reactions, r: Row, user: string): Reactions {
    var counted := if IsReactionKind(r.kind) then rec.(counts := rec.counts[r.kind := rec.Get(r.kind) + 1]) else rec;
    if r.user == user then counted.(userReaction := Some(r.kind)) else counted
  }

  /** One vote row folded into its target's record: "up" counts as up,
      every other kind as down, and a row of the user records its vote. */
  function VoteStep(rec: Votes, r: Row, user: string): Votes {
    var counted := if r.kind == "up" then rec.(up := rec.up + 1) else rec.(down := rec.down + 1);
    if r.user == user then counted.(userVote := ParseVoteType(r.kind)) else counted
  }

  /** The last row of a key after one more row. */
  lemma LastKindAppend(a: seq<Row>, r: Row, t: string, u: string)
    ensures LastKind(a + [r], t, u) == if HasKey(r, t, u) then Some(r.kind) else LastKind(a, t, u)
  {
    MatchesAppend(a, [r], t, u);
    assert Matches([r], t, u) == (if HasKey(r, t, u) then [r] else []) + Matches([], t, u);
  }

  /** A target without rows tallies to the empty records. */
  lemma {:induction false} TallyWithoutRows(rows: seq<Row>, c: string, user: string)
    requires CountOn(rows, c) == 0
    ensures ReactionTally(rows, c, user) == NO_REACTIONS
    ensures VoteTally(rows, c, user) == NO_VOTES
  {
    if rows != [] {
      TallyWithoutRows(rows[1..], c, user);
    }
  }

  /** A record whose counts have the four offered kinds as keys, each
      with its count of rows, and whose user reaction is the user's last
      row, is the tally. */
  lemma IsReactionTally(rec: Reactions, rows: seq<Row>, c: string, user: string)
    requires rec.counts.Keys == ZeroCounts().Keys
    requires forall k :: IsReactionKind(k) ==> rec.Get(k) == CountKind(rows, c, k)
    requires rec.userReaction == LastKind(rows, c, user)
    ensures rec == ReactionTally(rows, c, user)
  {
    var t := ReactionTally(rows, c, user);
    forall k | k in rec.counts ensures rec.counts[k] == t.counts[k] {
      assert IsReactionKind(k);
    }
    assert rec.counts == t.counts;
  }

  /** Tallying one more row: its own target takes one step, every other
      target keeps its record. */
  lemma ReactionTallyAppend(a: seq<Row>, r: Row, c: string, user: string)
    ensures ReactionTally(a + [r], c, user) ==
      if r.target == c then ReactionStep(ReactionTally(a, c, user), r, user) else ReactionTally(a, c, user)
  {
    if r.target == c {
      OwnRowSteps(a, r, c, user);
    } else {
      OtherRowKeeps(a, r, c, user);
    }
  }

  lemma OwnRowSteps(a: seq<Row>, r: Row, c: string, user: string)
    requires r.target == c
    ensures ReactionTally(a + [r], c, user) == ReactionStep(ReactionTally(a, c, user), r, user)
  {
    var rec := ReactionStep(ReactionTally(a, c, user), r, user);
    forall k | IsReactionKind(k) ensures rec.Get(k) == CountKind(a + [r], c, k) {
      CountKindAppend(a, [r], c, k);
    }
    LastKindAppend(a, r, c, user);
    IsReactionTally(rec, a + [r], c, user);
  }

  lemma OtherRowKeeps(a: seq<Row>, r: Row, c: string, user: string)
    requires r.target != c
    ensures ReactionTally(a + [r], c, user) == ReactionTally(a, c, user)
  {
    var rec := ReactionTally(a, c, user);
    forall k | IsReactionKind(k) ensures rec.Get(k) == CountKind(a + [r], c, k) {
      CountKindAppend(a, [r], c, k);
    }
    LastKindAppend(a, r, c, user);
    IsReactionTally(rec, a + [r], c, user);
  }

  lemma VoteTallyAppend(a: seq<Row>, r: Row, c: string, user: string)
    ensures VoteTally(a + [r], c, user) ==
      if r.target == c then VoteStep(VoteTally(a, c, user), r, user) else VoteTally(a, c, user)
  {
    CountKindAppend(a, [r], c, "up");
    CountOnAppend(a, [r], c);
    LastKindAppend(a, r, c, user);
  }

  /** A counting loop's state after the rows `done` of target t: the count
      of each offered kind and the kind of the user's last row. */
  ghost predicate CountedOffered(done: seq<Row>, t: string, user: Option<string>,
                                 counts: map<string, int>, mine: Option<string>)
  {
    && counts.Keys == ZeroCounts().Keys
    && (forall k :: IsReactionKind(k) ==> counts[k] == CountKind(done, t, k))
    && mine == (if user.Some? then LastKind(done, t, user.value) else None)
  }

  /** One more row of t takes the counting loop one step: an offered kind
      counts one more, and a row of the user becomes their kind. */
  lemma CountedOfferedStep(done: seq<Row>, r: Row, t: string, user: Option<string>,
                           counts: map<string, int>, mine: Option<string>)
    requires r.target == t
    requires CountedOffered(done, t, user, counts, mine)
    ensures CountedOffered(done + [r], t, user,
                           if IsReactionKind(r.kind) then counts[r.kind := counts[r.kind] + 1] else counts,
                           if user.Some? && r.user == user.value then Some(r.kind) else mine)
  {
    forall k ensures CountKind(done + [r], t, k) == CountKind(done, t, k) + (if r.kind == k then 1 else 0) {
      CountKindAppend(done, [r], t, k);
      assert CountKind([r], t, k) == (if r.kind == k then 1 else 0) + CountKind([], t, k);
    }
    if user.Some? {
      LastKindAppend(done, r, t, user.value);
    }
  }

  /** The kinds outside the four offered ones among the rows of c: where a
      fold without a kind check leaves a `NaN` entry. */
  function UnknownKinds(rows: seq<Row>, c: string): set<string> {
    set r | r in rows && r.target == c && !IsReactionKind(r.kind) :: r.kind
  }

  lemma UnknownKindsAppend(a: seq<Row>, r: Row, c: string)
    ensures UnknownKinds(a + [r], c) ==
      UnknownKinds(a, c) + (if r.target == c && !IsReactionKind(r.kind) then {r.kind} else {})
  {
    assert forall x :: x in a + [r] <==> x in a || x == r;
  }
}
