/**
  * The up/down vote control shown next to each tag of a book (`TagVote`). Pressing a
  * button updates the displayed score and value at once, tells the parent, sends the
  * request, and restores the previous score and value if the request fails. The
  * request is modelled in two steps: `Vote` up to the moment the request is sent, and
  * `Settle` when its outcome is known.
  */
module TagVoteControl {
  import opened Wrappers
  import opened BookTags
  import VoteRoute

  /** The value after pressing `pressed`: pressing the active button withdraws the vote. */
  function NewValue(value: int, pressed: int): (r: int)
    requires value in {-1, 0, 1} && pressed in {-1, 1}
    ensures r in {-1, 0, 1}
    ensures r == 0 <==> value == pressed
    ensures r != 0 ==> r == pressed
  {
    if value == pressed then 0 else pressed
  }

  /** The score shown before the server answers: the score moved by the change of value. */
  function OptimisticScore(score: int, value: int, newValue: int): (r: int)
    ensures r - newValue == score - value
  {
    score + (newValue - value)
  }

  /** The parent's `onChangeVote(tagId, score, value)` callback. */
  datatype Notification = Notification(tagId: TagId, score: int, value: int)

  class TagVote {
    const bookId: BookId
    const tagId: TagId
    var score: int
    var value: int
    var loading: bool
    /** The state saved for rollback when the request was sent. */
    var previousScore: int
    var previousValue: int
    /** The other users' part of the score, which no press of this control changes. */
    ghost var others: int

    ghost predicate Valid()
      reads this
    {
      && value in {-1, 0, 1}
      && score - value == others
      && (loading ==> previousValue in {-1, 0, 1} && previousScore - previousValue == others)
    }

    constructor (bookId: BookId, tagId: TagId, initialScore: int, initialValue: int)
      requires initialValue in {-1, 0, 1}
      ensures Valid() && !loading
      ensures this.bookId == bookId && this.tagId == tagId
      ensures score == initialScore && value == initialValue
      ensures others == initialScore - initialValue
    {
      this.bookId, this.tagId := bookId, tagId;
      score, value, loading := initialScore, initialValue, false;
      previousScore, previousValue := initialScore, initialValue;
      others := initialScore - initialValue;
    }

    /**
      * A press of the button for `pressed`. While a request is outstanding it does
      * nothing; otherwise it applies the new value, notifies the parent with the
      * optimistic score and returns the request to send.
      */
    method Vote(pressed: int) returns (notified: Option<Notification>, request: Option<VoteRoute.VoteRequest>)
      requires Valid() && pressed in {-1, 1}
      modifies this
      ensures Valid() && others == old(others)
      ensures old(loading) ==>
        && notified.None? && request.None?
        && loading && score == old(score) && value == old(value)
        && previousScore == old(previousScore) && previousValue == old(previousValue)
      ensures !old(loading) ==>
        && loading
        && value == NewValue(old(value), pressed)
        && score == OptimisticScore(old(score), old(value), value)
        && previousScore == old(score) && previousValue == old(value)
        && notified == Some(Notification(tagId, score, value))
        && request == Some(VoteRoute.VoteRequest(Some(bookId), Some(tagId), Some(value)))
    {
      if loading {
        return None, None;
      }
      var newValue := NewValue(value, pressed);
      previousScore, previousValue := score, value;
      var optimistic := OptimisticScore(score, value, newValue);
      score, value := optimistic, newValue;
      notified := Some(Notification(tagId, optimistic, newValue));
      loading := true;
      request := Some(VoteRoute.VoteRequest(Some(bookId), Some(tagId), Some(newValue)));
    }

    /** The request's outcome: on failure the saved state comes back and the parent is told. */
    method Settle(ok: bool) returns (notified: Option<Notification>)
      requires Valid() && loading
      modifies this
      ensures Valid() && others == old(others) && !loading
      ensures ok ==> notified.None? && score == old(score) && value == old(value)
      ensures !ok ==>
        && score == old(previousScore) && value == old(previousValue)
        && notified == Some(Notification(tagId, score, value))
    {
      notified := None;
      if !ok {
        score, value := previousScore, previousValue;
        notified := Some(Notification(tagId, score, value));
      }
      loading := false;
    }
  }

  /** Pressing the same button twice undoes the first press, from no vote or that vote. */
  lemma TwicePressedRestores(score: int, value: int, pressed: int)
    requires pressed in {-1, 1} && value in {0, pressed}
    ensures var v1 := NewValue(value, pressed);
            var s1 := OptimisticScore(score, value, v1);
            var v2 := NewValue(v1, pressed);
            v2 == value && OptimisticScore(s1, v1, v2) == score
  {
  }

  /** From the opposite vote two presses do not come back: they end with no vote. */
  lemma TwicePressedFromOpposite(score: int, pressed: int)
    requires pressed in {-1, 1}
    ensures var v1 := NewValue(-pressed, pressed);
            var v2 := NewValue(v1, pressed);
            v2 == 0 && OptimisticScore(OptimisticScore(score, -pressed, v1), v1, v2) == score + pressed
  {
  }

  /**
    * The optimistic score is what the server's table then holds: when the control shows
    * the table's score and the caller's own vote, applying the request it sends moves the
    * (book, tag) score to exactly the optimistic score and the caller's vote to the new value.
    */
  lemma OptimisticMatchesServer(votes: map<VoteKey, int>, book: BookId, tag: TagId, user: UserId,
                                score: int, value: int, pressed: int)
    requires pressed in {-1, 1}
    requires score == Score(votes, book, tag) && value == OwnValue(votes, book, tag, user)
    requires value in {-1, 0, 1}
    ensures var v := NewValue(value, pressed);
            var after := Apply(votes, VoteKey(book, tag, user), v);
            Score(after, book, tag) == OptimisticScore(score, value, v) && OwnValue(after, book, tag, user) == v
  {
    ScoreOfApply(votes, VoteKey(book, tag, user), NewValue(value, pressed), book, tag);
  }
}
