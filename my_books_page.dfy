/**
  * The my-books page (`/my-books`): the caller's shelves, one of them selected, and the
  * books on it listed through `GET /api/bookshelves/{id}/books/list` with a title
  * search, include and exclude tag filters, a year range and a sortable column. As on
  * the explore page, a listing is modelled in two steps, `FetchBooks` up to the request
  * and `Settle` for its outcome.
  */
module MyBooksPage {
  import opened Wrappers
  import opened Text
  import opened UrlParams
  import opened TagFilters
  import opened ShelfTable

  datatype SortColumn = AddedAt | Title | PublicationYear
  datatype Direction = Asc | Desc

  function ColumnName(c: SortColumn): string {
    match c
    case AddedAt => "added_at"
    case Title => "title"
    case PublicationYear => "publication_year"
  }

  function DirectionName(d: Direction): string {
    if d == Asc then "asc" else "desc"
  }

  function Flip(d: Direction): Direction {
    if d == Asc then Desc else Asc
  }

  /** A book on the shelf as the list route returns it. */
  datatype ShelfBook = ShelfBook(id: string, title: string, addedAt: Option<string>)

  datatype ListBody = ListBody(books: seq<ShelfBook>, total: int)

  /** The first shelf with display order 0, if any. */
  function FirstOrderZero(shelves: seq<Shelf>): (r: Option<nat>)
    ensures r.Some? ==> r.value < |shelves| && shelves[r.value].displayOrder == 0
    ensures r.Some? ==> forall j :: 0 <= j < r.value ==> shelves[j].displayOrder != 0
    ensures r.None? <==> forall j :: 0 <= j < |shelves| ==> shelves[j].displayOrder != 0
  {
    if shelves == [] then None
    else if shelves[0].displayOrder == 0 then Some(0)
    else
      var rest := FirstOrderZero(shelves[1..]);
      assert forall j :: 1 <= j < |shelves| ==> shelves[j] == shelves[1..][j - 1];
      if rest.Some? then Some(rest.value + 1) else None
  }

  /** `shelves.find((s) => s.display_order === 0) || shelves[0]`. */
  function DefaultShelf(shelves: seq<Shelf>): Shelf
    requires |shelves| > 0
  {
    var zero := FirstOrderZero(shelves);
    if zero.Some? then shelves[zero.value] else shelves[0]
  }

  /**
    * The default shelf is a listed shelf: the first with display order 0 when there is
    * one, and the first shelf otherwise.
    */
  lemma DefaultShelfChoice(shelves: seq<Shelf>)
    requires |shelves| > 0
    ensures DefaultShelf(shelves) in shelves
    ensures (exists i :: 0 <= i < |shelves| && shelves[i].displayOrder == 0) ==>
      && DefaultShelf(shelves).displayOrder == 0
      && exists i :: 0 <= i < |shelves| && shelves[i] == DefaultShelf(shelves)
           && forall j :: 0 <= j < i ==> shelves[j].displayOrder != 0
    ensures (forall i :: 0 <= i < |shelves| ==> shelves[i].displayOrder != 0) ==> DefaultShelf(shelves) == shelves[0]
  {
    var zero := FirstOrderZero(shelves);
    if zero.Some? {
      assert shelves[zero.value] == DefaultShelf(shelves);
    }
  }

  predicate Lists(shelves: seq<Shelf>, id: ShelfId) {
    exists i :: 0 <= i < |shelves| && shelves[i].id == id
  }

  /**
    * `handleSortToggle`: the current column flips its direction; another column becomes
    * current, ascending for the title and descending otherwise.
    */
  function NextSort(sortBy: SortColumn, sortDir: Direction, column: SortColumn): (SortColumn, Direction) {
    if sortBy == column then (sortBy, Flip(sortDir))
    else (column, if column == Title then Asc else Desc)
  }

  /**
    * Toggling a column always makes it current; toggling the current column twice
    * gives back the direction it had, and a new column starts in its own direction.
    */
  lemma NextSortProperties(sortBy: SortColumn, sortDir: Direction, column: SortColumn)
    ensures NextSort(sortBy, sortDir, column).0 == column
    ensures var (b, d) := NextSort(sortBy, sortDir, column); NextSort(b, d, column) == (column, if sortBy == column then sortDir else Flip(d))
    ensures sortBy != column ==> NextSort(sortBy, sortDir, column).1 == (if column == Title then Asc else Desc)
    ensures sortBy == column ==> NextSort(sortBy, sortDir, column).1 != sortDir
  {
  }

  /**
    * The list request's query: `q` only for a non-blank title query (trimmed), each tag
    * list only when non-empty, each year only when filled in, and always `sort` and
    * `dir`.
    */
  method ListQuery(titleQuery: string, includeTags: seq<SelectedTag>, excludeTags: seq<SelectedTag>,
                   yearFrom: string, yearTo: string, sortBy: SortColumn, sortDir: Direction)
    returns (params: Params)
    ensures Get(params, "q") == (if Trim(titleQuery) != "" then Some(Trim(titleQuery)) else None)
    ensures Get(params, "include") == IdParam(includeTags)
    ensures Get(params, "exclude") == IdParam(excludeTags)
    ensures Get(params, "yearFrom") == IfSet(yearFrom)
    ensures Get(params, "yearTo") == IfSet(yearTo)
    ensures Get(params, "sort") == Some(ColumnName(sortBy))
    ensures Get(params, "dir") == Some(DirectionName(sortDir))
    ensures params.Keys <= {"q", "include", "exclude", "yearFrom", "yearTo", "sort", "dir"}
  {
    var p := new SearchParams();
    var q := Trim(titleQuery);
    if q != "" {
      p.Set("q", q);
    }
    SetFilters(p, includeTags, excludeTags, yearFrom, yearTo);
    p.Set("sort", ColumnName(sortBy));
    p.Set("dir", DirectionName(sortDir));
    params := p.values;
  }

  class Page {
    var shelves: seq<Shelf>
    var selectedShelfId: Option<ShelfId>
    var books: seq<ShelfBook>
    var total: int
    var isLoading: bool
    var isFetchingBooks: bool
    var titleQuery: string
    var includeTags: seq<SelectedTag>
    var excludeTags: seq<SelectedTag>
    var yearFrom: string
    var yearTo: string
    var sortBy: SortColumn
    var sortDir: Direction

    constructor ()
      ensures shelves == [] && selectedShelfId.None? && books == [] && total == 0 && isLoading && !isFetchingBooks
      ensures titleQuery == "" && includeTags == [] && excludeTags == [] && yearFrom == "" && yearTo == ""
      ensures sortBy == AddedAt && sortDir == Desc
    {
      shelves := [];
      selectedShelfId := None;
      books := [];
      total := 0;
      isLoading := true;
      isFetchingBooks := false;
      titleQuery := "";
      includeTags := [];
      excludeTags := [];
      yearFrom := "";
      yearTo := "";
      sortBy := AddedAt;
      sortDir := Desc;
    }

    /**
      * The shelf fetch; signed out it does nothing. `fetched` is `None` when the request
      * fails, which keeps the list. With no shelf selected, the default shelf of a
      * non-empty list becomes the selection.
      */
    method FetchShelves(signedIn: bool, fetched: Option<seq<Shelf>>)
      modifies this
      ensures !signedIn ==> shelves == old(shelves) && selectedShelfId == old(selectedShelfId) && isLoading == old(isLoading)
      ensures signedIn ==> !isLoading
      ensures signedIn && fetched.None? ==> shelves == old(shelves) && selectedShelfId == old(selectedShelfId)
      ensures signedIn && fetched.Some? ==>
        && shelves == fetched.value
        && selectedShelfId == (if |shelves| > 0 && old(selectedShelfId).None? then Some(DefaultShelf(shelves).id)
                               else old(selectedShelfId))
      ensures isFetchingBooks == old(isFetchingBooks) && books == old(books) && total == old(total) && titleQuery == old(titleQuery)
      ensures includeTags == old(includeTags) && excludeTags == old(excludeTags)
      ensures yearFrom == old(yearFrom) && yearTo == old(yearTo) && sortBy == old(sortBy) && sortDir == old(sortDir)
    {
      if !signedIn {
        return;
      }
      if fetched.Some? {
        shelves := fetched.value;
        if |shelves| > 0 && selectedShelfId.None? {
          selectedShelfId := Some(DefaultShelf(shelves).id);
        }
      }
      isLoading := false;
    }

    /** Starting a listing: nothing without a selected shelf, else the shelf and the query. */
    method FetchBooks() returns (request: Option<(ShelfId, Params)>)
      modifies this
      ensures selectedShelfId.None? <==> request.None?
      ensures isFetchingBooks == (request.Some? || old(isFetchingBooks))
      ensures request.Some? ==>
        && request.value.0 == selectedShelfId.value
        && var p := request.value.1;
        && Get(p, "q") == (if Trim(titleQuery) != "" then Some(Trim(titleQuery)) else None)
        && Get(p, "include") == IdParam(includeTags) && Get(p, "exclude") == IdParam(excludeTags)
        && Get(p, "yearFrom") == IfSet(yearFrom) && Get(p, "yearTo") == IfSet(yearTo)
        && Get(p, "sort") == Some(ColumnName(sortBy)) && Get(p, "dir") == Some(DirectionName(sortDir))
      ensures shelves == old(shelves) && selectedShelfId == old(selectedShelfId) && isLoading == old(isLoading)
      ensures books == old(books) && total == old(total) && titleQuery == old(titleQuery)
      ensures includeTags == old(includeTags) && excludeTags == old(excludeTags)
      ensures yearFrom == old(yearFrom) && yearTo == old(yearTo) && sortBy == old(sortBy) && sortDir == old(sortDir)
    {
      if selectedShelfId.None? {
        return None;
      }
      isFetchingBooks := true;
      var params := ListQuery(titleQuery, includeTags, excludeTags, yearFrom, yearTo, sortBy, sortDir);
      return Some((selectedShelfId.value, params));
    }

    /** The listing's outcome: the route's books and total, or nothing and 0 when it failed. */
    method Settle(result: Option<ListBody>)
      modifies this
      ensures result.Some? ==> books == result.value.books && total == result.value.total
      ensures result.None? ==> books == [] && total == 0
      ensures !isFetchingBooks
      ensures shelves == old(shelves) && selectedShelfId == old(selectedShelfId) && isLoading == old(isLoading)
      ensures titleQuery == old(titleQuery) && includeTags == old(includeTags) && excludeTags == old(excludeTags)
      ensures yearFrom == old(yearFrom) && yearTo == old(yearTo) && sortBy == old(sortBy) && sortDir == old(sortDir)
    {
      if result.Some? {
        books := result.value.books;
        total := result.value.total;
      } else {
        books := [];
        total := 0;
      }
      isFetchingBooks := false;
    }

    method HandleSortToggle(column: SortColumn)
      modifies this
      ensures (sortBy, sortDir) == NextSort(old(sortBy), old(sortDir), column)
      ensures shelves == old(shelves) && selectedShelfId == old(selectedShelfId) && isLoading == old(isLoading) && isFetchingBooks == old(isFetchingBooks)
      ensures books == old(books) && total == old(total) && titleQuery == old(titleQuery)
      ensures includeTags == old(includeTags) && excludeTags == old(excludeTags)
      ensures yearFrom == old(yearFrom) && yearTo == old(yearTo)
    {
      if sortBy == column {
        sortDir := Flip(sortDir);
      } else {
        sortBy := column;
        sortDir := if column == Title then Asc else Desc;
      }
    }

    /**
      * The shelf editor's result: the list is replaced; a selection the new list still
      * has is kept, otherwise the default shelf of a non-empty list is selected. With a
      * non-empty list the selection is then always a listed shelf.
      */
    method HandleShelvesEdited(updated: seq<Shelf>)
      modifies this
      ensures shelves == updated
      ensures old(selectedShelfId).Some? && Lists(updated, old(selectedShelfId).value) ==>
        selectedShelfId == old(selectedShelfId)
      ensures !(old(selectedShelfId).Some? && Lists(updated, old(selectedShelfId).value)) ==>
        selectedShelfId == (if |updated| > 0 then Some(DefaultShelf(updated).id) else old(selectedShelfId))
      ensures |updated| > 0 ==> selectedShelfId.Some? && Lists(updated, selectedShelfId.value)
      ensures isLoading == old(isLoading) && isFetchingBooks == old(isFetchingBooks) && books == old(books) && total == old(total) && titleQuery == old(titleQuery)
      ensures includeTags == old(includeTags) && excludeTags == old(excludeTags)
      ensures yearFrom == old(yearFrom) && yearTo == old(yearTo) && sortBy == old(sortBy) && sortDir == old(sortDir)
    {
      shelves := updated;
      if !(selectedShelfId.Some? && Lists(updated, selectedShelfId.value)) && |updated| > 0 {
        DefaultShelfChoice(updated);
        var k :| 0 <= k < |updated| && updated[k] == DefaultShelf(updated);
        selectedShelfId := Some(DefaultShelf(updated).id);
      }
    }

    /** Adding an include tag drops it from the exclude list first; disjoint lists stay disjoint. */
    method HandleAddIncludeTag(tag: SelectedTag)
      modifies this
      ensures includeTags == old(includeTags) + [tag] && excludeTags == WithoutId(old(excludeTags), tag.id)
      ensures old(Disjoint(includeTags, excludeTags)) ==> Disjoint(includeTags, excludeTags)
      ensures shelves == old(shelves) && selectedShelfId == old(selectedShelfId) && isLoading == old(isLoading) && isFetchingBooks == old(isFetchingBooks)
      ensures books == old(books) && total == old(total) && titleQuery == old(titleQuery)
      ensures yearFrom == old(yearFrom) && yearTo == old(yearTo) && sortBy == old(sortBy) && sortDir == old(sortDir)
    {
      if Disjoint(includeTags, excludeTags) {
        AddKeepsDisjoint(includeTags, excludeTags, tag);
      }
      excludeTags := WithoutId(excludeTags, tag.id);
      includeTags := includeTags + [tag];
    }

    /** Adding an exclude tag drops it from the include list first; disjoint lists stay disjoint. */
    method HandleAddExcludeTag(tag: SelectedTag)
      modifies this
      ensures excludeTags == old(excludeTags) + [tag] && includeTags == WithoutId(old(includeTags), tag.id)
      ensures old(Disjoint(includeTags, excludeTags)) ==> Disjoint(includeTags, excludeTags)
      ensures shelves == old(shelves) && selectedShelfId == old(selectedShelfId) && isLoading == old(isLoading) && isFetchingBooks == old(isFetchingBooks)
      ensures books == old(books) && total == old(total) && titleQuery == old(titleQuery)
      ensures yearFrom == old(yearFrom) && yearTo == old(yearTo) && sortBy == old(sortBy) && sortDir == old(sortDir)
    {
      if Disjoint(includeTags, excludeTags) {
        DisjointSymmetric(includeTags, excludeTags);
        AddKeepsDisjoint(excludeTags, includeTags, tag);
      }
      includeTags := WithoutId(includeTags, tag.id);
      excludeTags := excludeTags + [tag];
    }

    /** The remove buttons of the two lists. */
    method HandleRemove(fromInclude: bool, id: TagId)
      modifies this
      ensures fromInclude ==> includeTags == WithoutId(old(includeTags), id) && excludeTags == old(excludeTags)
      ensures !fromInclude ==> excludeTags == WithoutId(old(excludeTags), id) && includeTags == old(includeTags)
      ensures old(Disjoint(includeTags, excludeTags)) ==> Disjoint(includeTags, excludeTags)
      ensures shelves == old(shelves) && selectedShelfId == old(selectedShelfId) && isLoading == old(isLoading) && isFetchingBooks == old(isFetchingBooks)
      ensures books == old(books) && total == old(total) && titleQuery == old(titleQuery)
      ensures yearFrom == old(yearFrom) && yearTo == old(yearTo) && sortBy == old(sortBy) && sortDir == old(sortDir)
    {
      if Disjoint(includeTags, excludeTags) {
        RemoveKeepsDisjoint(includeTags, excludeTags, id);
      }
      if fromInclude {
        includeTags := WithoutId(includeTags, id);
      } else {
        excludeTags := WithoutId(excludeTags, id);
      }
    }
  }
}
