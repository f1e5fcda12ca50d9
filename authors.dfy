/**
  * The author helpers of `src/lib/authors.ts`: the display string of a book's authors,
  * and the flattening of the `book_authors(authors(id, name))` join into the book's
  * authors in display order.
  */
module Authors {
  import opened Wrappers
  import opened Text
  import opened Sorting

  datatype Author = Author(id: string, name: string)

  /** One row of the join: its display order and the author it links, which may be missing. */
  datatype RawBookAuthor = RawBookAuthor(displayOrder: int, authors: Option<Author>)

  function Names(authors: seq<Author>): (r: seq<string>)
    ensures |r| == |authors|
    ensures forall i :: 0 <= i < |r| ==> r[i] == authors[i].name
  {
    seq(|authors|, i requires 0 <= i < |authors| => authors[i].name)
  }

  /**
    * "Unknown" for a missing or empty list, the bare name for one author, "A and B" for
    * two, and for more the names joined by ", " with ", and " before the last.
    */
  function FormatAuthors(authors: Option<seq<Author>>): (r: string)
    ensures authors.None? || authors.value == [] ==> r == "Unknown"
    ensures authors.Some? && |authors.value| == 1 ==> r == authors.value[0].name
    ensures authors.Some? && |authors.value| == 2 ==> r == authors.value[0].name + " and " + authors.value[1].name
  {
    if authors.None? || |authors.value| == 0 then "Unknown"
    else
      var a := authors.value;
      if |a| == 1 then a[0].name
      else if |a| == 2 then a[0].name + " and " + a[1].name
      else Join(Names(a[..|a| - 1]), ", ") + ", and " + a[|a| - 1].name
  }

  /** Each string with a space in front. */
  function Spaced(xs: seq<string>): (r: seq<string>)
    ensures |r| == |xs|
    ensures forall i :: 0 <= i < |r| ==> r[i] == " " + xs[i]
  {
    seq(|xs|, i requires 0 <= i < |xs| => " " + xs[i])
  }

  /** A prefix on the first part is a prefix on the joined string. */
  lemma JoinFirstPrefix(p: string, y: string, ys: seq<string>, sep: string)
    ensures Join([p + y] + ys, sep) == p + Join([y] + ys, sep)
  {
    if |ys| > 0 {
      assert ([p + y] + ys)[1..] == ys == ([y] + ys)[1..];
    }
  }

  /** Joining with ", " is joining with "," after putting a space in front of every part but the first. */
  lemma {:induction false} JoinCommaSpace(xs: seq<string>)
    requires |xs| >= 1
    ensures Join(xs, ", ") == Join([xs[0]] + Spaced(xs[1..]), ",")
    decreases |xs|
  {
    if |xs| == 1 {
      assert [xs[0]] + Spaced(xs[1..]) == [xs[0]];
    } else {
      var rest := xs[1..];
      JoinCommaSpace(rest);
      var tail := Spaced(rest[1..]);
      assert Spaced(xs[1..]) == [" " + rest[0]] + tail;
      JoinFirstPrefix(" ", rest[0], tail, ",");
      var whole := [xs[0]] + Spaced(xs[1..]);
      assert whole[1..] == [" " + rest[0]] + tail;
      assert Join(whole, ",") == xs[0] + "," + Join([" " + rest[0]] + tail, ",");
    }
  }

  /** A part appended after the separator is one more joined part. */
  lemma {:induction false} JoinSnoc(xs: seq<string>, sep: string, y: string)
    requires |xs| >= 1
    ensures Join(xs, sep) + sep + y == Join(xs + [y], sep)
    decreases |xs|
  {
    if |xs| == 1 {
      assert (xs + [y])[1..] == [y];
    } else {
      JoinSnoc(xs[1..], sep, y);
      assert (xs + [y])[1..] == xs[1..] + [y];
    }
  }

  /**
    * For three or more authors whose names contain no comma, the pieces between the
    * commas of the display string are the first name, each middle name after a space,
    * and the last name after " and ": the names can be read back in order.
    */
  lemma FormatAuthorsPieces(authors: seq<Author>)
    requires |authors| >= 3
    requires forall i :: 0 <= i < |authors| ==> ',' !in authors[i].name
    ensures var n := |authors|;
      Split(FormatAuthors(Some(authors)), ',') ==
        [authors[0].name] + Spaced(Names(authors[1..n - 1])) + [" and " + authors[n - 1].name]
  {
    var n := |authors|;
    var all := [authors[0].name] + Spaced(Names(authors[1..n - 1])) + [" and " + authors[n - 1].name];
    FormatAuthorsJoined(authors);
    PiecesHaveNoComma(authors);
    SplitJoin(all, ',');
  }

  /** For three or more authors the display string is its pieces joined by commas. */
  lemma FormatAuthorsJoined(authors: seq<Author>)
    requires |authors| >= 3
    ensures var n := |authors|;
      FormatAuthors(Some(authors)) ==
        Join([authors[0].name] + Spaced(Names(authors[1..n - 1])) + [" and " + authors[n - 1].name], ",")
  {
    var n := |authors|;
    var init := Names(authors[..n - 1]);
    var last := authors[n - 1].name;
    JoinCommaSpace(init);
    var parts := [init[0]] + Spaced(init[1..]);
    assert init[1..] == Names(authors[1..n - 1]);
    JoinSnoc(parts, ",", " and " + last);
    assert FormatAuthors(Some(authors)) == Join(parts, ",") + "," + " and " + last;
    assert Join(parts, ",") + "," + " and " + last == Join(parts, ",") + "," + (" and " + last);
  }

  /** None of the pieces holds a comma when no name does. */
  lemma PiecesHaveNoComma(authors: seq<Author>)
    requires |authors| >= 3
    requires forall i :: 0 <= i < |authors| ==> ',' !in authors[i].name
    ensures var n := |authors|;
      var all := [authors[0].name] + Spaced(Names(authors[1..n - 1])) + [" and " + authors[n - 1].name];
      forall i :: 0 <= i < |all| ==> ',' !in all[i]
  {
    var n := |authors|;
    var all := [authors[0].name] + Spaced(Names(authors[1..n - 1])) + [" and " + authors[n - 1].name];
    forall i | 0 <= i < |all| ensures ',' !in all[i] {
      if i == 0 {
      } else if i < n - 1 {
        assert all[i] == " " + authors[i].name;
      } else {
        assert all[i] == " and " + authors[n - 1].name;
      }
    }
  }

  function ByDisplayOrder(): (RawBookAuthor, RawBookAuthor) -> bool {
    ByKeyAsc((r: RawBookAuthor) => r.displayOrder)
  }

  function HasAuthor(): RawBookAuthor -> bool {
    (r: RawBookAuthor) => r.authors.Some?
  }

  /** The linked authors of rows that all have one. */
  function AuthorsOf(rows: seq<RawBookAuthor>): (r: seq<Author>)
    requires forall i :: 0 <= i < |rows| ==> rows[i].authors.Some?
    ensures |r| == |rows|
    ensures forall i :: 0 <= i < |r| ==> rows[i].authors == Some(r[i])
  {
    seq(|rows|, i requires 0 <= i < |rows| => rows[i].authors.value)
  }

  /**
    * `parseAuthorsJoin`: `null` gives no authors; otherwise the rows are sorted in place
    * (the caller's array is reordered) by ascending display order, ties keeping their
    * order, and the authors of the rows that have one are returned in that order.
    */
  method ParseAuthorsJoin(raw: array?<RawBookAuthor>) returns (r: seq<Author>)
    modifies raw
    ensures raw == null ==> r == []
    ensures raw != null ==> raw[..] == SortBy(old(raw[..]), ByDisplayOrder())
    ensures raw != null ==> r == AuthorsOf(Filter(raw[..], HasAuthor()))
  {
    if raw == null {
      return [];
    }
    SortInPlace(raw, ByDisplayOrder());
    r := AuthorsOf(Filter(raw[..], HasAuthor()));
  }

  /**
    * What `parseAuthorsJoin` returns for a non-null input: one author per input row
    * that has one, so no more authors than rows; the rows they come from are exactly the
    * input's rows with an author, rearranged, and their display orders never decrease.
    */
  lemma ParsedRows(raw: seq<RawBookAuthor>)
    ensures var kept := Filter(SortBy(raw, ByDisplayOrder()), HasAuthor());
      && |AuthorsOf(kept)| <= |raw|
      && multiset(kept) == multiset(Filter(raw, HasAuthor()))
      && forall i, j :: 0 <= i < j < |kept| ==> kept[i].displayOrder <= kept[j].displayOrder
  {
    var sorted := SortBy(raw, ByDisplayOrder());
    SortByPermutes(raw, ByDisplayOrder());
    ByKeyAscWeakOrder((r: RawBookAuthor) => r.displayOrder);
    SortBySorted(raw, ByDisplayOrder());
    FilterPermutes(sorted, raw, HasAuthor());
    FilterSorted(sorted, HasAuthor(), ByDisplayOrder());
  }
}
