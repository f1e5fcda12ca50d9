/**
  * The `book_tags` table: one vote row per (book, tag, user), written by the vote and
  * add routes with upserts keyed on that triple. A (book, tag) score is the sum of
  * its rows' values.
  */
module BookTags {
  import MapSums

  type BookId = string
  type TagId = string
  type UserId = string

  datatype VoteKey = VoteKey(book: BookId, tag: TagId, user: UserId)

  /** The table, as a map from the conflict key of the upserts to the stored value. */
  class Table {
    var votes: map<VoteKey, int>

    /** The values the two routes store: 0 is never stored, it deletes the row. */
    ghost predicate Valid()
      reads this
    {
      forall k :: k in votes ==> votes[k] == 1 || votes[k] == -1
    }

    constructor (initial: map<VoteKey, int>)
      ensures votes == initial
    {
      votes := initial;
    }
  }

  /** The rows of one (book, tag) pair. */
  function Slice(votes: map<VoteKey, int>, book: BookId, tag: TagId): (r: map<VoteKey, int>)
    ensures forall k :: k in r <==> k in votes && k.book == book && k.tag == tag
    ensures forall k :: k in r ==> r[k] == votes[k]
  {
    map k | k in votes.Keys && k.book == book && k.tag == tag :: votes[k]
  }

  /** The score of a tag on a book: the sum of all users' votes. */
  ghost function Score(votes: map<VoteKey, int>, book: BookId, tag: TagId): int {
    MapSums.Sum(Slice(votes, book, tag))
  }

  /** The caller's own vote, 0 when the caller has no row. */
  function OwnValue(votes: map<VoteKey, int>, book: BookId, tag: TagId, user: UserId): int {
    var k := VoteKey(book, tag, user);
    if k in votes then votes[k] else 0
  }

  /** The table after a vote: value 0 removes the caller's row, any other value upserts it. */
  function Apply(votes: map<VoteKey, int>, k: VoteKey, value: int): (r: map<VoteKey, int>)
    ensures forall k' :: k' != k ==> (k' in r <==> k' in votes)
    ensures forall k' :: k' != k && k' in r ==> r[k'] == votes[k']
    ensures OwnValue(r, k.book, k.tag, k.user) == value
  {
    if value == 0 then votes - {k} else votes[k := value]
  }

  /** Voting again with the same value changes nothing: the upsert is keyed. */
  lemma ApplyIdempotent(votes: map<VoteKey, int>, k: VoteKey, value: int)
    ensures Apply(Apply(votes, k, value), k, value) == Apply(votes, k, value)
  {
  }

  lemma SliceOfApply(votes: map<VoteKey, int>, k: VoteKey, value: int, book: BookId, tag: TagId)
    ensures Slice(Apply(votes, k, value), book, tag)
         == if k.book == book && k.tag == tag then Apply(Slice(votes, book, tag), k, value)
            else Slice(votes, book, tag)
  {
  }

  /**
    * A vote moves the score of its own (book, tag) by the change in the caller's value,
    * and leaves every other score as it was.
    */
  lemma ScoreOfApply(votes: map<VoteKey, int>, k: VoteKey, value: int, book: BookId, tag: TagId)
    ensures Score(Apply(votes, k, value), book, tag)
         == if k.book == book && k.tag == tag
            then Score(votes, book, tag) - OwnValue(votes, book, tag, k.user) + value
            else Score(votes, book, tag)
  {
    SliceOfApply(votes, k, value, book, tag);
    if k.book == book && k.tag == tag {
      var s := Slice(votes, book, tag);
      if value == 0 {
        MapSums.SumDelete(s, k);
      } else {
        MapSums.SumUpdate(s, k, value);
      }
    }
  }

  /** The score stays between minus and plus the number of voters. */
  lemma {:induction false} ScoreBounded(votes: map<VoteKey, int>, book: BookId, tag: TagId)
    requires forall k :: k in votes ==> -1 <= votes[k] <= 1
    ensures -|Slice(votes, book, tag)| <= Score(votes, book, tag) <= |Slice(votes, book, tag)|
  {
    SumBounded(Slice(votes, book, tag));
  }

  lemma {:induction false} SumBounded(m: map<VoteKey, int>)
    requires forall k :: k in m ==> -1 <= m[k] <= 1
    ensures -|m| <= MapSums.Sum(m) <= |m|
    decreases |m|
  {
    if m != map[] {
      var k := MapSums.Pick(m.Keys);
      assert (m - {k}).Keys == m.Keys - {k};
      SumBounded(m - {k});
    }
  }
}
