/**
  * The explore page (`/books/explore`): include and exclude tag filters, a year range
  * and a sort choice, sent to `GET /api/books/explore`. A search is modelled in two
  * steps: `FetchBooks` runs up to the moment the request is sent and returns its query
  * parameters, and `Settle` runs when the response (or the failure) is known.
  */
module ExplorePage {
  import opened Wrappers
  import opened Text
  import opened UrlParams
  import opened TagFilters
  import ExploreRoute

  datatype SortChoice = BestMatch | Popularity

  function SortName(sort: SortChoice): string {
    match sort
    case BestMatch => "best_match"
    case Popularity => "popularity"
  }

  /**
    * The query parameters of a search: each tag list only when non-empty, each year
    * only when filled in, and always the sort.
    */
  method QueryFor(includeTags: seq<SelectedTag>, excludeTags: seq<SelectedTag>, yearFrom: string,
                      yearTo: string, sort: SortChoice)
    returns (params: Params)
    ensures Get(params, "include") == IdParam(includeTags)
    ensures Get(params, "exclude") == IdParam(excludeTags)
    ensures Get(params, "yearFrom") == IfSet(yearFrom)
    ensures Get(params, "yearTo") == IfSet(yearTo)
    ensures Get(params, "sort") == Some(SortName(sort))
    ensures params.Keys <= {"include", "exclude", "yearFrom", "yearTo", "sort"}
  {
    var p := new SearchParams();
    SetFilters(p, includeTags, excludeTags, yearFrom, yearTo);
    p.Set("sort", SortName(sort));
    params := p.values;
  }

  /** Ids as the route splits them: non-empty and without commas. */
  predicate PlainIds(tags: seq<SelectedTag>) {
    forall i :: 0 <= i < |tags| ==> tags[i].id != "" && ',' !in tags[i].id
  }

  /**
    * The round trip with the route: the `include` or `exclude` value the page sends
    * parses back to the ids of the page's list, and the route reads back the sort.
    */
  lemma RouteReadsParams(tags: seq<SelectedTag>, sort: SortChoice)
    requires PlainIds(tags)
    ensures ExploreRoute.ParseIdList(IdParam(tags)) == Ids(tags)
    ensures ExploreRoute.SortParam(Some(SortName(sort))) == SortName(sort)
  {
    var ids := Ids(tags);
    ExploreRoute.ParseJoinedIds(ids);
    assert IdParam(tags) == if ids == [] then None else Some(Join(ids, ","));
  }

  class Page {
    var includeTags: seq<SelectedTag>
    var excludeTags: seq<SelectedTag>
    var yearFrom: string
    var yearTo: string
    var sortBy: SortChoice
    var books: seq<ExploreRoute.BookResult>
    var total: int
    var isLoading: bool
    var hasSearched: bool

    constructor ()
      ensures includeTags == [] && excludeTags == [] && yearFrom == "" && yearTo == ""
      ensures sortBy == BestMatch && books == [] && total == 0 && !isLoading && !hasSearched
    {
      includeTags := [];
      excludeTags := [];
      yearFrom := "";
      yearTo := "";
      sortBy := BestMatch;
      books := [];
      total := 0;
      isLoading := false;
      hasSearched := false;
    }

    /** Starting a search with sort `sort`: marks the page as searched and gives the request's parameters. */
    method FetchBooks(sort: SortChoice) returns (params: Params)
      modifies this
      ensures isLoading && hasSearched
      ensures Get(params, "include") == IdParam(includeTags) && Get(params, "exclude") == IdParam(excludeTags)
      ensures Get(params, "yearFrom") == IfSet(yearFrom) && Get(params, "yearTo") == IfSet(yearTo)
      ensures Get(params, "sort") == Some(SortName(sort))
      ensures includeTags == old(includeTags) && excludeTags == old(excludeTags)
      ensures yearFrom == old(yearFrom) && yearTo == old(yearTo) && sortBy == old(sortBy)
      ensures books == old(books) && total == old(total)
    {
      isLoading := true;
      hasSearched := true;
      params := QueryFor(includeTags, excludeTags, yearFrom, yearTo, sort);
    }

    /** The search's outcome: the route's books and total, or nothing and 0 when it failed. */
    method Settle(result: Option<ExploreRoute.ExploreBody>)
      modifies this
      ensures result.Some? ==> books == result.value.books && total == result.value.total
      ensures result.None? ==> books == [] && total == 0
      ensures !isLoading && hasSearched == old(hasSearched)
      ensures includeTags == old(includeTags) && excludeTags == old(excludeTags)
      ensures yearFrom == old(yearFrom) && yearTo == old(yearTo) && sortBy == old(sortBy)
    {
      if result.Some? {
        books := result.value.books;
        total := result.value.total;
      } else {
        books := [];
        total := 0;
      }
      isLoading := false;
    }

    /** A new sort choice: remembered, and it refetches only once the page has searched. */
    method HandleSortChange(newSort: SortChoice) returns (request: Option<Params>)
      modifies this
      ensures sortBy == newSort
      ensures request.Some? <==> old(hasSearched)
      ensures request.Some? ==> Get(request.value, "sort") == Some(SortName(newSort)) && isLoading
      ensures request.None? ==> isLoading == old(isLoading) && !hasSearched
      ensures hasSearched == old(hasSearched)
      ensures includeTags == old(includeTags) && excludeTags == old(excludeTags)
      ensures yearFrom == old(yearFrom) && yearTo == old(yearTo)
      ensures books == old(books) && total == old(total)
    {
      sortBy := newSort;
      if hasSearched {
        var params := FetchBooks(newSort);
        return Some(params);
      }
      return None;
    }

    /** Adding an include tag drops it from the exclude list first; disjoint lists stay disjoint. */
    method HandleAddIncludeTag(tag: SelectedTag)
      modifies this
      ensures includeTags == old(includeTags) + [tag] && excludeTags == WithoutId(old(excludeTags), tag.id)
      ensures old(Disjoint(includeTags, excludeTags)) ==> Disjoint(includeTags, excludeTags)
      ensures yearFrom == old(yearFrom) && yearTo == old(yearTo) && sortBy == old(sortBy)
      ensures books == old(books) && total == old(total)
      ensures isLoading == old(isLoading) && hasSearched == old(hasSearched)
    {
      if Disjoint(includeTags, excludeTags) {
        AddKeepsDisjoint(includeTags, excludeTags, tag);
      }
      excludeTags := WithoutId(excludeTags, tag.id);
      includeTags := includeTags + [tag];
    }

    /** Adding an exclude tag drops it from the include list first; disjoint lists stay disjoint. */
    method HandleAddExcludeTag(tag: SelectedTag)
      modifies this
      ensures excludeTags == old(excludeTags) + [tag] && includeTags == WithoutId(old(includeTags), tag.id)
      ensures old(Disjoint(includeTags, excludeTags)) ==> Disjoint(includeTags, excludeTags)
      ensures yearFrom == old(yearFrom) && yearTo == old(yearTo) && sortBy == old(sortBy)
      ensures books == old(books) && total == old(total)
      ensures isLoading == old(isLoading) && hasSearched == old(hasSearched)
    {
      if Disjoint(includeTags, excludeTags) {
        DisjointSymmetric(includeTags, excludeTags);
        AddKeepsDisjoint(excludeTags, includeTags, tag);
      }
      includeTags := WithoutId(includeTags, tag.id);
      excludeTags := excludeTags + [tag];
    }

    /** The remove buttons of the two lists. */
    method HandleRemove(fromInclude: bool, id: TagId)
      modifies this
      ensures fromInclude ==> includeTags == WithoutId(old(includeTags), id) && excludeTags == old(excludeTags)
      ensures !fromInclude ==> excludeTags == WithoutId(old(excludeTags), id) && includeTags == old(includeTags)
      ensures old(Disjoint(includeTags, excludeTags)) ==> Disjoint(includeTags, excludeTags)
      ensures yearFrom == old(yearFrom) && yearTo == old(yearTo) && sortBy == old(sortBy)
      ensures books == old(books) && total == old(total)
      ensures isLoading == old(isLoading) && hasSearched == old(hasSearched)
    {
      if Disjoint(includeTags, excludeTags) {
        RemoveKeepsDisjoint(includeTags, excludeTags, id);
      }
      if fromInclude {
        includeTags := WithoutId(includeTags, id);
      } else {
        excludeTags := WithoutId(excludeTags, id);
      }
    }
  }
}
