/** `GET /api/bookshelves` and `POST /api/bookshelves`: list the caller's shelves, create one. */
module BookshelvesRoute {
  import opened Wrappers
  import opened Http
  import opened Text
  import opened Sorting
  import opened ShelfTable

  datatype ShelfWithStatus = ShelfWithStatus(shelf: Shelf, hasBook: bool)

  datatype Listing = Plain(shelves: seq<Shelf>) | WithStatus(withStatus: seq<ShelfWithStatus>)

  function ByPosition(): (Shelf, Shelf) -> bool {
    ByKeyAsc((s: Shelf) => s.position)
  }

  /** The same shelves in the same order, each marked with whether the book is on it. */
  function WithBookStatus(shelves: seq<Shelf>, entries: set<(ShelfId, BookId)>, bookId: BookId):
    (r: seq<ShelfWithStatus>)
    ensures |r| == |shelves|
    ensures forall i :: 0 <= i < |r| ==> r[i].shelf == shelves[i] && (r[i].hasBook <==> (shelves[i].id, bookId) in entries)
  {
    seq(|shelves|, i requires 0 <= i < |shelves| =>
      ShelfWithStatus(shelves[i], (shelves[i].id, bookId) in entries))
  }

  /**
    * GET. `readError` is the outcome of the shelf query; `entriesRead` is false when the
    * `bookshelf_books` query returns nothing, which the route treats as no entries.
    */
  method Get(table: Table, user: Option<UserId>, bookId: Option<string>, readError: Option<string>,
             entriesRead: bool) returns (resp: Response<Listing>)
    requires table.Valid()
    ensures user.None? ==> resp == Fail(401, "Not authenticated")
    ensures user.Some? && readError.Some? ==> resp == Fail(500, readError.value)
    ensures user.Some? && readError.None? ==>
      var shelves := SortBy(UserRows(table.rows, table.nextId, user.value), ByPosition());
      resp == Ok(if !Truthy(bookId) then Plain(shelves)
                 else WithStatus(WithBookStatus(shelves, if entriesRead then table.entries else {}, bookId.value)))
  {
    if user.None? {
      return Fail(401, "Not authenticated");
    }
    var rows := UserRows(table.rows, table.nextId, user.value);
    var ordered := new Shelf[|rows|](i requires 0 <= i < |rows| => rows[i]);
    assert ordered[..] == rows;
    SortInPlace(ordered, ByPosition());
    var shelves := ordered[..];
    if readError.Some? {
      return Fail(500, readError.value);
    }
    if !Truthy(bookId) {
      return Ok(Plain(shelves));
    }
    var bookShelfIds := if entriesRead then table.entries else {};
    resp := Ok(WithStatus(WithBookStatus(shelves, bookShelfIds, bookId.value)));
  }

  /** The caller's rows, each once. */
  lemma UserRowsMembers(rows: map<ShelfId, Shelf>, nextId: nat, userId: UserId)
    requires WellKeyed(rows, nextId)
    ensures var u := UserRows(rows, nextId, userId);
            && (forall i :: 0 <= i < |u| ==> u[i].userId == userId && u[i].id in rows && rows[u[i].id] == u[i])
            && (forall id :: id in rows && rows[id].userId == userId ==> rows[id] in u)
  {
    var all := RowsBelow(rows, nextId);
    var u := UserRows(rows, nextId, userId);
    RowsBelowMembers(rows, nextId, nextId);
    forall i | 0 <= i < |u| ensures u[i].userId == userId && u[i].id in rows && rows[u[i].id] == u[i] {
      assert u[i] in all && OwnedBy(userId)(u[i]);
    }
    forall id | id in rows && rows[id].userId == userId ensures rows[id] in u {
      var k :| 0 <= k < |all| && all[k] == rows[id];
      assert OwnedBy(userId)(all[k]);
    }
  }

  /** The listed shelves are exactly the caller's, each once, in ascending position. */
  lemma ListedByPosition(rows: map<ShelfId, Shelf>, nextId: nat, userId: UserId)
    requires WellKeyed(rows, nextId)
    ensures var r := SortBy(UserRows(rows, nextId, userId), ByPosition());
            && (forall i, j :: 0 <= i < j < |r| ==> r[i].position <= r[j].position)
            && (forall i :: 0 <= i < |r| ==> r[i].userId == userId && r[i].id in rows && rows[r[i].id] == r[i])
            && (forall id :: id in rows && rows[id].userId == userId ==> rows[id] in r)
  {
    var u := UserRows(rows, nextId, userId);
    var r := SortBy(u, ByPosition());
    ByKeyAscWeakOrder((s: Shelf) => s.position);
    SortBySorted(u, ByPosition());
    SortByPermutes(u, ByPosition());
    UserRowsMembers(rows, nextId, userId);
    forall i | 0 <= i < |r| ensures r[i] in u {
      assert r[i] in multiset(u);
    }
    forall id | id in rows && rows[id].userId == userId ensures rows[id] in r {
      assert rows[id] in multiset(r);
    }
  }

  /** `existing[0].position + 1` for the highest position, or 0 without shelves. */
  function NextPosition(shelves: seq<Shelf>): (p: int)
    ensures forall i :: 0 <= i < |shelves| ==> shelves[i].position < p
    ensures shelves == [] ==> p == 0
    ensures shelves != [] ==> exists i :: 0 <= i < |shelves| && p == shelves[i].position + 1
    decreases |shelves|
  {
    if shelves == [] then 0
    else if |shelves| == 1 then shelves[0].position + 1
    else
      var rest := NextPosition(shelves[1..]);
      if shelves[0].position + 1 >= rest then shelves[0].position + 1 else rest
  }

  /**
    * POST. `positionsRead` is false when the query for the highest position returns
    * nothing; `insertError` is the outcome of the insert.
    */
  method Post(table: Table, user: Option<UserId>, name: Option<string>, positionsRead: bool,
              insertError: Option<string>) returns (resp: Response<Shelf>)
    requires table.Valid()
    modifies table
    ensures table.Valid() && table.entries == old(table.entries)
    ensures user.None? ==> resp == Fail(401, "Not authenticated") && unchanged(table)
    ensures user.Some? && (name.None? || Trim(name.value) == "") ==>
      resp == Fail(400, "Name is required") && unchanged(table)
    ensures user.Some? && name.Some? && Trim(name.value) != "" && insertError.Some? ==>
      resp == Fail(500, insertError.value) && unchanged(table)
    ensures user.Some? && name.Some? && Trim(name.value) != "" && insertError.None? ==>
      var existing := if positionsRead then old(UserRows(table.rows, table.nextId, user.value)) else [];
      var shelf := Shelf(old(table.nextId), user.value, Trim(name.value), 0, NextPosition(existing));
      && resp == Ok(shelf)
      && table.rows == old(table.rows)[shelf.id := shelf]
      && table.nextId == old(table.nextId) + 1
  {
    if user.None? {
      return Fail(401, "Not authenticated");
    }
    if name.None? || Trim(name.value) == "" {
      return Fail(400, "Name is required");
    }
    var existing := if positionsRead then UserRows(table.rows, table.nextId, user.value) else [];
    var nextPosition := NextPosition(existing);
    if insertError.Some? {
      return Fail(500, insertError.value);
    }
    var shelf := table.Insert(user.value, Trim(name.value), 0, nextPosition);
    resp := Ok(shelf);
  }

  /** A new shelf goes after every shelf the caller already has. */
  lemma NewShelfGoesLast(rows: map<ShelfId, Shelf>, nextId: nat, userId: UserId, s: Shelf)
    requires s in UserRows(rows, nextId, userId)
    ensures s.position < NextPosition(UserRows(rows, nextId, userId))
  {
  }
}
