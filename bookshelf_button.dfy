/**
  * The "add to shelf" button of a book page (`BookshelfButton`). It lists the caller's
  * shelves with whether each holds the book. Ticking a shelf flips its mark at once
  * and sends the request (a DELETE when the shelf had the book, a POST otherwise).
  * When the request fails, the mark goes back to what it was. As in the vote control,
  * a toggle is modelled in two steps: `ToggleShelf` runs up to the moment the request
  * is sent, and `Settle` runs when its outcome is known.
  */
module BookshelfButton {
  import opened Wrappers
  import opened ShelfTable
  import opened BookshelvesRoute

  datatype Method = Post | Delete

  /** The request to `/api/bookshelves/{shelfId}/books` with body `{bookId}`. */
  datatype Request = Request(verb: Method, shelfId: ShelfId, bookId: BookId)

  /** The optimistic step: every listed shelf with that id has its mark flipped. */
  function FlipHasBook(shelves: seq<ShelfWithStatus>, id: ShelfId): (r: seq<ShelfWithStatus>)
    ensures |r| == |shelves|
    ensures forall i :: 0 <= i < |r| ==>
      r[i].shelf == shelves[i].shelf && (r[i].hasBook <==> (if shelves[i].shelf.id == id then !shelves[i].hasBook else shelves[i].hasBook))
  {
    seq(|shelves|, i requires 0 <= i < |shelves| =>
      if shelves[i].shelf.id == id then shelves[i].(hasBook := !shelves[i].hasBook) else shelves[i])
  }

  /** The rollback: every listed shelf with that id gets the mark `hasBook`. */
  function SetHasBook(shelves: seq<ShelfWithStatus>, id: ShelfId, hasBook: bool): (r: seq<ShelfWithStatus>)
    ensures |r| == |shelves|
    ensures forall i :: 0 <= i < |r| ==>
      r[i].shelf == shelves[i].shelf && r[i].hasBook == (if shelves[i].shelf.id == id then hasBook else shelves[i].hasBook)
  {
    seq(|shelves|, i requires 0 <= i < |shelves| =>
      if shelves[i].shelf.id == id then shelves[i].(hasBook := hasBook) else shelves[i])
  }

  /** The shelf with that id is listed with mark `hasBook`. */
  predicate MarkedAs(shelves: seq<ShelfWithStatus>, id: ShelfId, hasBook: bool) {
    forall i :: 0 <= i < |shelves| && shelves[i].shelf.id == id ==> shelves[i].hasBook == hasBook
  }

  /** Rolling back a toggle started from the shelf's own mark restores the list exactly. */
  lemma RollbackRestores(shelves: seq<ShelfWithStatus>, id: ShelfId, hadBook: bool)
    requires MarkedAs(shelves, id, hadBook)
    ensures SetHasBook(FlipHasBook(shelves, id), id, hadBook) == shelves
  {
    var r := SetHasBook(FlipHasBook(shelves, id), id, hadBook);
    forall i | 0 <= i < |shelves| ensures r[i] == shelves[i] {
    }
  }

  /** Two toggles of the same shelf that both succeed leave the list as it was. */
  lemma FlipTwiceRestores(shelves: seq<ShelfWithStatus>, id: ShelfId)
    ensures FlipHasBook(FlipHasBook(shelves, id), id) == shelves
  {
    var r := FlipHasBook(FlipHasBook(shelves, id), id);
    forall i | 0 <= i < |shelves| ensures r[i] == shelves[i] {
    }
  }

  /** `shelves.some((s) => s.hasBook)`. */
  function OnAnyShelves(shelves: seq<ShelfWithStatus>): (r: bool)
    ensures r <==> exists i :: 0 <= i < |shelves| && shelves[i].hasBook
  {
    if shelves == [] then false
    else
      var rest := OnAnyShelves(shelves[1..]);
      assert forall i :: 1 <= i < |shelves| ==> shelves[i] == shelves[1..][i - 1];
      shelves[0].hasBook || rest
  }

  /** The names of the shelves that hold the book, in list order. */
  function ActiveShelfNames(shelves: seq<ShelfWithStatus>): (r: seq<string>)
    ensures |r| <= |shelves|
    ensures r == [] <==> !OnAnyShelves(shelves)
    ensures forall n :: n in r <==> exists i :: 0 <= i < |shelves| && shelves[i].hasBook && shelves[i].shelf.name == n
  {
    if shelves == [] then []
    else
      var rest := ActiveShelfNames(shelves[1..]);
      assert forall i :: 1 <= i < |shelves| ==> shelves[i] == shelves[1..][i - 1];
      assert forall i :: 0 <= i < |shelves| - 1 ==> shelves[1..][i] == shelves[i + 1];
      if shelves[0].hasBook then [shelves[0].shelf.name] + rest else rest
  }

  /** Adding to the default shelf marks the first shelf and makes the book show as shelved. */
  lemma DefaultShelfGetsBook(shelves: seq<ShelfWithStatus>)
    requires |shelves| > 0 && !OnAnyShelves(shelves)
    ensures var r := FlipHasBook(shelves, shelves[0].shelf.id);
            r[0].hasBook && OnAnyShelves(r) && ActiveShelfNames(r) != []
  {
    var r := FlipHasBook(shelves, shelves[0].shelf.id);
    assert r[0].hasBook;
  }

  class ShelfButton {
    const bookId: BookId
    var shelves: seq<ShelfWithStatus>
    var loading: bool
    /** The shelf whose request is outstanding. */
    var togglingId: Option<ShelfId>
    /** The mark that shelf had when the toggle started, kept for the rollback. */
    var hadBook: bool

    constructor (bookId: BookId)
      ensures this.bookId == bookId && shelves == [] && loading && togglingId.None?
    {
      this.bookId := bookId;
      shelves := [];
      loading := true;
      togglingId := None;
      hadBook := false;
    }

    /**
      * The fetch of the caller's shelves with their marks. Signed out, nothing happens.
      * `fetched` is `None` when the request fails, which keeps the list unchanged.
      */
    method FetchShelves(signedIn: bool, fetched: Option<seq<ShelfWithStatus>>)
      modifies this
      ensures !signedIn ==> shelves == old(shelves) && loading == old(loading)
      ensures signedIn ==> !loading && shelves == (if fetched.Some? then fetched.value else old(shelves))
      ensures togglingId == old(togglingId) && hadBook == old(hadBook)
    {
      if !signedIn {
        return;
      }
      if fetched.Some? {
        shelves := fetched.value;
      }
      loading := false;
    }

    /** Ticking a shelf: its mark flips at once and the request is sent. */
    method ToggleShelf(shelfId: ShelfId, currentlyHasBook: bool) returns (request: Request)
      modifies this
      ensures togglingId == Some(shelfId) && hadBook == currentlyHasBook
      ensures shelves == FlipHasBook(old(shelves), shelfId)
      ensures request == Request(if currentlyHasBook then Delete else Post, shelfId, bookId)
      ensures loading == old(loading)
    {
      togglingId := Some(shelfId);
      hadBook := currentlyHasBook;
      shelves := FlipHasBook(shelves, shelfId);
      request := Request(if currentlyHasBook then Delete else Post, shelfId, bookId);
    }

    /** The request's outcome: on failure the shelf gets back the mark it had. */
    method Settle(ok: bool)
      requires togglingId.Some?
      modifies this
      ensures togglingId.None?
      ensures ok ==> shelves == old(shelves)
      ensures !ok ==> shelves == SetHasBook(old(shelves), old(togglingId).value, old(hadBook))
      ensures loading == old(loading) && hadBook == old(hadBook)
    {
      if !ok {
        shelves := SetHasBook(shelves, togglingId.value, hadBook);
      }
      togglingId := None;
    }

    /** The main button with the book on no shelf: a toggle of the first shelf, if there is one. */
    method AddToDefaultShelf() returns (request: Option<Request>)
      modifies this
      ensures old(shelves) == [] ==>
        request.None? && shelves == old(shelves) && togglingId == old(togglingId) && hadBook == old(hadBook)
      ensures old(shelves) != [] ==>
        && var id := old(shelves)[0].shelf.id;
        && togglingId == Some(id) && !hadBook
        && shelves == FlipHasBook(old(shelves), id)
        && request == Some(Request(Post, id, bookId))
      ensures loading == old(loading)
    {
      if |shelves| == 0 {
        return None;
      }
      var r := ToggleShelf(shelves[0].shelf.id, false);
      return Some(r);
    }
  }
}
