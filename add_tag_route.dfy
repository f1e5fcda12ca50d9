/**
  * `POST /api/tags/add`: put the caller's +1 on a tag of a book, then answer with the
  * tag as the book page shows it (category, score and the caller's own value).
  */
module AddTagRoute {
  import opened Wrappers
  import opened Http
  import opened BookTags
  import MapSums

  datatype TagCategory = TagCategory(name: string, displayOrder: int)

  /** A row of the `tags` table joined with its category, which may be missing. */
  datatype TagRow = TagRow(
    id: TagId, name: string, description: Option<string>,
    categoryId: Option<string>, category: Option<TagCategory>)

  /** A tag of one book as the book page lists it. */
  datatype BookTagWithVotes = BookTagWithVotes(
    id: TagId, name: string, description: Option<string>, categoryId: Option<string>,
    categoryName: string, categoryDisplayOrder: int, score: int, userValue: int)

  /**
    * The record built from the tag row and the (book, tag) votes: an absent category
    * gives the name "" and the display order 0.
    */
  function TagWithVotes(row: TagRow, score: int, userValue: int): (r: BookTagWithVotes)
    ensures r.id == row.id && r.name == row.name && r.description == row.description
    ensures r.categoryId == row.categoryId && r.score == score && r.userValue == userValue
    ensures row.category.None? ==> r.categoryName == "" && r.categoryDisplayOrder == 0
    ensures row.category.Some? ==>
      r.categoryName == row.category.value.name && r.categoryDisplayOrder == row.category.value.displayOrder
  {
    BookTagWithVotes(row.id, row.name, row.description, row.categoryId,
      if row.category.Some? then row.category.value.name else "",
      if row.category.Some? then row.category.value.displayOrder else 0,
      score, userValue)
  }

  /**
    * The handler. `tags` is the `tags` table; `upsertOk` is whether the upsert succeeded;
    * `votesFetched` is whether the read of the (book, tag) votes returned rows (when it
    * does not, the route reports score 0 and value 0).
    */
  method Post(table: Table, tags: map<TagId, TagRow>, user: Option<UserId>,
              bookId: Option<string>, tagId: Option<string>, upsertOk: bool, votesFetched: bool)
    returns (resp: Response<BookTagWithVotes>)
    requires table.Valid()
    modifies table
    ensures table.Valid()
    ensures !Truthy(bookId) || !Truthy(tagId) ==>
      resp == Fail(400, "Missing data") && table.votes == old(table.votes)
    ensures Truthy(bookId) && Truthy(tagId) && user.None? ==>
      resp == Fail(401, "Not authenticated") && table.votes == old(table.votes)
    ensures Truthy(bookId) && Truthy(tagId) && user.Some? && !upsertOk ==>
      resp == Fail(500, "Failed to tag book") && table.votes == old(table.votes)
    ensures Truthy(bookId) && Truthy(tagId) && user.Some? && upsertOk ==>
      && table.votes == Apply(old(table.votes), VoteKey(bookId.value, tagId.value, user.value), 1)
      && (tagId.value !in tags ==> resp == Fail(500, "Tag added but failed to fetch tag"))
      && (tagId.value in tags ==>
            resp.Ok? && resp.body == TagWithVotes(tags[tagId.value],
              if votesFetched then Score(table.votes, bookId.value, tagId.value) else 0,
              if votesFetched then 1 else 0))
  {
    if !Truthy(bookId) || !Truthy(tagId) {
      return Fail(400, "Missing data");
    }
    if user.None? {
      return Fail(401, "Not authenticated");
    }
    if !upsertOk {
      return Fail(500, "Failed to tag book");
    }
    var k := VoteKey(bookId.value, tagId.value, user.value);
    table.votes := table.votes[k := 1];
    if tagId.value !in tags {
      return Fail(500, "Tag added but failed to fetch tag");
    }
    var score, userVote := 0, 0;
    if votesFetched {
      var rows := Slice(table.votes, bookId.value, tagId.value);
      score := MapSums.Total(rows);
      userVote := OwnValue(table.votes, bookId.value, tagId.value, user.value);
    }
    resp := Ok(TagWithVotes(tags[tagId.value], score, userVote));
  }

  /**
    * The score the route reports is the previous score moved by the change of the
    * caller's vote to 1: one more than before for a new voter, two more after a
    * downvote, the same after an upvote.
    */
  lemma ReportedScore(votes: map<VoteKey, int>, book: BookId, tag: TagId, user: UserId)
    ensures Score(Apply(votes, VoteKey(book, tag, user), 1), book, tag)
         == Score(votes, book, tag) - OwnValue(votes, book, tag, user) + 1
  {
    ScoreOfApply(votes, VoteKey(book, tag, user), 1, book, tag);
  }
}
