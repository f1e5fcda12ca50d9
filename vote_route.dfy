/** `POST /api/tags/vote`: set, change or withdraw the caller's vote on a book's tag. */
module VoteRoute {
  import opened Wrappers
  import opened Http
  import opened BookTags

  /** The JSON body; a field the client left out is `None`. */
  datatype VoteRequest = VoteRequest(bookId: Option<string>, tagId: Option<string>, value: Option<int>)

  /** The route's input check: both ids present and the value one of 1, -1 and 0. */
  predicate ValidInput(req: VoteRequest) {
    Truthy(req.bookId) && Truthy(req.tagId) && req.value.Some? && req.value.value in {1, -1, 0}
  }

  /**
    * The handler. `user` is the signed-in user from the session, `storeError` the error
    * the database reports for the delete or upsert, if any.
    */
  method Post(table: Table, user: Option<UserId>, req: VoteRequest, storeError: Option<string>)
    returns (resp: Response<()>)
    requires table.Valid()
    modifies table
    ensures table.Valid()
    ensures !ValidInput(req) ==> resp == Fail(400, "Invalid data") && table.votes == old(table.votes)
    ensures ValidInput(req) && user.None? ==>
      resp == Fail(401, "Not authenticated") && table.votes == old(table.votes)
    ensures ValidInput(req) && user.Some? && storeError.Some? ==>
      resp == Fail(500, storeError.value) && table.votes == old(table.votes)
    ensures ValidInput(req) && user.Some? && storeError.None? ==>
      && resp == Ok(())
      && table.votes == Apply(old(table.votes),
                              VoteKey(req.bookId.value, req.tagId.value, user.value), req.value.value)
  {
    if !ValidInput(req) {
      return Fail(400, "Invalid data");
    }
    if user.None? {
      return Fail(401, "Not authenticated");
    }
    if storeError.Some? {
      return Fail(500, storeError.value);
    }
    var k := VoteKey(req.bookId.value, req.tagId.value, user.value);
    if req.value.value == 0 {
      table.votes := table.votes - {k};
    } else {
      table.votes := table.votes[k := req.value.value];
    }
    resp := Ok(());
  }

  /** A rejected value is one outside 1, -1 and 0, or no value at all. */
  lemma RejectsOutOfRange(req: VoteRequest)
    requires Truthy(req.bookId) && Truthy(req.tagId)
    ensures !ValidInput(req) <==> req.value.None? || req.value.value !in {1, -1, 0}
  {
  }
}
