/** `CommentVoting`: the score of a comment and its two vote buttons. */
module CommentVoting {
  import opened Base
  import opened Strings
  import opened Counts

  /** The score shown: `up - down`, with a '+' in front of a positive
      score. */
  function ScoreLabel(v: Votes): (s: string)
    ensures s != []
    ensures s[0] == '+' <==> v.Score() > 0
    ensures s[0] == '-' <==> v.Score() < 0
  {
    var score := v.Score();
    if score > 0 then "+" + IntToString(score) else IntToString(score)
  }

  /** The label reads back as the score. */
  lemma ScoreLabelReadsBack(v: Votes)
    ensures ParseInt(ScoreLabel(v)) == Some(v.Score())
  {
    var score := v.Score();
    if score > 0 {
      ParseIntOfDigits(NatToString(score));
      DigitsValueOfNatToString(score);
    } else {
      ParseIntOfIntToString(score);
    }
  }

  /** A button is highlighted when its vote is the user's vote, and both
      are disabled while a vote is in flight. */
  function Highlighted(v: Votes, t: VoteType): (b: bool)
    ensures b <==> v.userVote == Some(t)
  {
    v.userVote == Some(t)
  }

  /** After a click, the highlighted button is the clicked one unless the
      click withdrew the vote, and the label follows the new score. */
  lemma ClickMovesHighlight(v: Votes, t: VoteType)
    ensures Highlighted(ToggleVote(v, t), t) <==> !Highlighted(v, t)
    ensures !Highlighted(ToggleVote(v, t), t.Opposite())
  {
  }
}
