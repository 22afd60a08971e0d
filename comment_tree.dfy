/** Platform comments as the cache and the comment list hold them: top-level
    comments with their replies one level below, each carrying optional
    reactions and votes records. The optimistic updates of both comment
    mutations are one walk over this tree that rewrites the comment with a
    given id. */
module CommentTree {
  import opened Base
  import opened Counts

  /** The author's profile joined onto a comment. */
  datatype Profile = Profile(name: Option<string>, githubUsername: Option<string>, avatarUrl: Option<string>)

  /** `PlatformComment`; an absent `replies` list is the empty list, and
      timestamps are integers. */
  datatype Comment = Comment(
    id: string,
    userId: string,
    parentId: Option<string>,
    content: string,
    createdAt: int,
    profile: Option<Profile>,
    replies: seq<Comment>,
    reactions: Option<Reactions>,
    votes: Option<Votes>)

  /** The walk both optimistic updates perform: a comment with the id is
      replaced by `f` of it (its replies are not visited), and every other
      comment has the walk applied to its replies. */
  function MapById(cs: seq<Comment>, id: string, f: Comment -> Comment): (r: seq<Comment>)
    ensures |r| == |cs|
    decreases cs
  {
    if cs == [] then []
    else
      var c := cs[0];
      var c' := if c.id == id then f(c) else c.(replies := MapById(c.replies, id, f));
      [c'] + MapById(cs[1..], id, f)
  }

  /** The id belongs to some comment of the list or of its replies. */
  predicate Occurs(cs: seq<Comment>, id: string)
    decreases cs
  {
    cs != [] && (cs[0].id == id || Occurs(cs[0].replies, id) || Occurs(cs[1..], id))
  }

  /** Every comment the walk replaces satisfies p. */
  predicate HitsSatisfy(cs: seq<Comment>, id: string, p: Comment -> bool)
    decreases cs
  {
    cs == [] ||
    ((if cs[0].id == id then p(cs[0]) else HitsSatisfy(cs[0].replies, id, p))
     && HitsSatisfy(cs[1..], id, p))
  }

  /** The comment's own fields, without its replies. */
  function Own(c: Comment): Comment {
    c.(replies := [])
  }

  /** Position by position: the comment with the id becomes `f` of it;
      every other comment keeps its own fields and its place, and only its
      replies are walked. */
  lemma {:induction false} MapByIdAt(cs: seq<Comment>, id: string, f: Comment -> Comment, i: nat)
    requires i < |cs|
    ensures cs[i].id == id ==> MapById(cs, id, f)[i] == f(cs[i])
    ensures cs[i].id != id ==>
      (Own(MapById(cs, id, f)[i]) == Own(cs[i]) && MapById(cs, id, f)[i].replies == MapById(cs[i].replies, id, f))
  {
    if i > 0 {
      MapByIdAt(cs[1..], id, f, i - 1);
    }
  }

  /** A walk that replaces ids by themselves keeps every id in its place. */
  lemma MapByIdKeepsIds(cs: seq<Comment>, id: string, f: Comment -> Comment)
    requires forall c :: f(c).id == c.id
    ensures forall i :: 0 <= i < |cs| ==> MapById(cs, id, f)[i].id == cs[i].id
  {
    forall i | 0 <= i < |cs| ensures MapById(cs, id, f)[i].id == cs[i].id {
      MapByIdAt(cs, id, f, i);
    }
  }

  /** When no comment has the id, the walk changes nothing. */
  lemma {:induction false} MapByIdAbsent(cs: seq<Comment>, id: string, f: Comment -> Comment)
    requires !Occurs(cs, id)
    ensures MapById(cs, id, f) == cs
    decreases cs
  {
    if cs != [] {
      MapByIdAbsent(cs[0].replies, id, f);
      MapByIdAbsent(cs[1..], id, f);
    }
  }

  /** Walking twice with an `f` that keeps ids and undoes itself on every
      replaced comment gives back the list. */
  lemma {:induction false} MapByIdTwice(cs: seq<Comment>, id: string, f: Comment -> Comment)
    requires forall c :: f(c).id == c.id
    requires HitsSatisfy(cs, id, c => f(f(c)) == c)
    ensures MapById(MapById(cs, id, f), id, f) == cs
    decreases cs
  {
    if cs != [] {
      var once := MapById(cs, id, f);
      assert once == [once[0]] + once[1..];
      if cs[0].id != id {
        MapByIdTwice(cs[0].replies, id, f);
      }
      MapByIdTwice(cs[1..], id, f);
      assert MapById(once, id, f) == [MapById(once, id, f)[0]] + MapById(once[1..], id, f);
    }
  }

  // ------------------------------------------------- the two optimistic edits

  function VotesOf(c: Comment): Votes {
    if c.votes.Some? then c.votes.value else NO_VOTES
  }

  function ReactionsOf(c: Comment): Reactions {
    if c.reactions.Some? then c.reactions.value else NO_REACTIONS
  }

  /** The edit one comment receives: its votes (zero when absent) take the
      click on vote t. */
  function VoteClick(t: VoteType): Comment -> Comment {
    (c: Comment) => c.(votes := Some(ToggleVote(VotesOf(c), t)))
  }

  /** The edit one comment receives: its reactions (zero when absent) take
      the click on reaction k. */
  function ReactionClick(k: string): Comment -> Comment {
    (c: Comment) => c.(reactions := Some(ToggleReaction(ReactionsOf(c), k)))
  }

  /** `updateCommentVotes`. */
  function UpdateCommentVotes(cs: seq<Comment>, id: string, t: VoteType): seq<Comment> {
    MapById(cs, id, VoteClick(t))
  }

  /** `updateCommentReactions`. */
  function UpdateCommentReactions(cs: seq<Comment>, id: string, k: string): seq<Comment> {
    MapById(cs, id, ReactionClick(k))
  }

  /** The vote edit changes only the votes of the comments with the id:
      every other field of every comment, the ids, the order and the length
      stay as they were. */
  lemma UpdateCommentVotesAt(cs: seq<Comment>, id: string, t: VoteType, i: nat)
    requires i < |cs|
    ensures var r := UpdateCommentVotes(cs, id, t);
      && |r| == |cs|
      && (cs[i].id == id ==> r[i] == cs[i].(votes := Some(ToggleVote(VotesOf(cs[i]), t))))
      && (cs[i].id != id ==> Own(r[i]) == Own(cs[i]) && r[i].replies == UpdateCommentVotes(cs[i].replies, id, t))
  {
    MapByIdAt(cs, id, VoteClick(t), i);
  }

  lemma UpdateCommentReactionsAt(cs: seq<Comment>, id: string, k: string, i: nat)
    requires i < |cs|
    ensures var r := UpdateCommentReactions(cs, id, k);
      && |r| == |cs|
      && (cs[i].id == id ==> r[i] == cs[i].(reactions := Some(ToggleReaction(ReactionsOf(cs[i]), k))))
      && (cs[i].id != id ==> Own(r[i]) == Own(cs[i]) && r[i].replies == UpdateCommentReactions(cs[i].replies, id, k))
  {
    MapByIdAt(cs, id, ReactionClick(k), i);
  }

  /** Every comment with the id holds a votes record from which a second
      click restores it: no vote, or vote t with a count of at least one. */
  predicate VotesUndoable(c: Comment, t: VoteType) {
    c.votes.Some? && c.votes.value.NonNegative()
    && (c.votes.value.userVote == None || (c.votes.value.userVote == Some(t) && c.votes.value.Get(t) >= 1))
  }

  /** Clicking the same vote twice on a comment gives back the list, when
      the comment carries an undoable votes record. */
  lemma UpdateCommentVotesTwice(cs: seq<Comment>, id: string, t: VoteType)
    requires HitsSatisfy(cs, id, c => VotesUndoable(c, t))
    ensures UpdateCommentVotes(UpdateCommentVotes(cs, id, t), id, t) == cs
  {
    var f := VoteClick(t);
    forall c | VotesUndoable(c, t) ensures f(f(c)) == c {
      ToggleVoteTwice(c.votes.value, t);
    }
    HitsImply(cs, id, c => VotesUndoable(c, t), c => f(f(c)) == c);
    MapByIdTwice(cs, id, f);
  }

  predicate ReactionsUndoable(c: Comment, k: string) {
    c.reactions.Some? && k in c.reactions.value.counts && c.reactions.value.counts[k] >= 0
    && (c.reactions.value.userReaction == None
        || (c.reactions.value.userReaction == Some(k) && c.reactions.value.counts[k] >= 1))
  }

  /** Clicking the same reaction twice on a comment gives back the list,
      when the comment carries an undoable reactions record. */
  lemma UpdateCommentReactionsTwice(cs: seq<Comment>, id: string, k: string)
    requires HitsSatisfy(cs, id, c => ReactionsUndoable(c, k))
    ensures UpdateCommentReactions(UpdateCommentReactions(cs, id, k), id, k) == cs
  {
    var f := ReactionClick(k);
    forall c | ReactionsUndoable(c, k) ensures f(f(c)) == c {
      ToggleReactionTwice(c.reactions.value, k);
    }
    HitsImply(cs, id, c => ReactionsUndoable(c, k), c => f(f(c)) == c);
    MapByIdTwice(cs, id, f);
  }

  lemma {:induction false} HitsImply(cs: seq<Comment>, id: string, p: Comment -> bool, q: Comment -> bool)
    requires forall c :: p(c) ==> q(c)
    requires HitsSatisfy(cs, id, p)
    ensures HitsSatisfy(cs, id, q)
    decreases cs
  {
    if cs != [] {
      if cs[0].id != id {
        HitsImply(cs[0].replies, id, p, q);
      }
      HitsImply(cs[1..], id, p, q);
    }
  }

  /** The `onError` rollback both comment mutations share: the snapshot, when there is one, replaces the
      cached value. */
  function Rollback(current: Option<seq<Comment>>, snapshot: Option<seq<Comment>>): (r: Option<seq<Comment>>)
    ensures snapshot.Some? ==> r == snapshot
    ensures snapshot.None? ==> r == current
  {
    if snapshot.Some? then snapshot else current
  }

  // ------------------------------------------------------------ the cache

  /** The cached comment list of one issue (`['platform-comments', issueId]`):
      absent until a query fills it, and marked stale by an invalidation. */
  class CommentsCache {
    var comments: Option<seq<Comment>>
    var stale: bool

    constructor (initial: Option<seq<Comment>>)
      ensures comments == initial && !stale
    {
      comments := initial;
      stale := false;
    }

    /** `setQueryData`. */
    method Set(value: Option<seq<Comment>>)
      modifies this
      ensures comments == value && stale == old(stale)
    {
      comments := value;
    }

    /** `invalidateQueries`: the value stays until the refetch replaces it. */
    method Invalidate()
      modifies this
      ensures stale && comments == old(comments)
    {
      stale := true;
    }
  }
}
