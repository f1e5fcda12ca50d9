/**
  * `GET /api/books/explore`: the books whose tag scores pass an include/exclude
  * filter, ranked by how well they match the included tags or by popularity.
  */
module ExploreRoute {
  import opened Wrappers
  import opened Http
  import opened Text
  import opened Sorting
  import MapSums

  type BookId = string
  type TagId = string

  datatype Book = Book(id: BookId, title: string, author: string,
                       description: Option<string>, publicationYear: Option<int>)

  /** A `book_tags` row as the route reads it: the voter is not selected. */
  datatype VoteRow = VoteRow(bookId: BookId, tagId: TagId, value: int)

  datatype BookResult = BookResult(book: Book, matchScore: int, popularity: int)

  datatype ExploreBody = ExploreBody(books: seq<BookResult>, total: int)

  /** `segments.filter(Boolean)`: the non-empty strings, in order. */
  function NonEmpty(xs: seq<string>): (r: seq<string>)
    ensures forall i :: 0 <= i < |r| ==> r[i] != "" && r[i] in xs
    ensures forall x :: x in r <==> x in xs && x != ""
    decreases |xs|
  {
    if xs == [] then []
    else (if xs[0] == "" then [] else [xs[0]]) + NonEmpty(xs[1..])
  }

  /**
    * The `include`/`exclude` query values: split on commas with empty segments
    * dropped; a missing parameter gives the empty list.
    */
  function ParseIdList(param: Option<string>): (r: seq<TagId>)
    ensures param.None? ==> r == []
    ensures forall i :: 0 <= i < |r| ==> r[i] != "" && ',' !in r[i]
  {
    if param.None? then [] else
      NonEmpty(Split(param.value, ','))
  }

  lemma {:induction false} NonEmptyOfNonEmpty(xs: seq<string>)
    requires forall i :: 0 <= i < |xs| ==> xs[i] != ""
    ensures NonEmpty(xs) == xs
    decreases |xs|
  {
    if xs != [] {
      NonEmptyOfNonEmpty(xs[1..]);
    }
  }

  /**
    * The round trip with the explore page: a list of ids joined with commas (the page
    * sends none when the list is empty) parses back to the same list.
    */
  lemma ParseJoinedIds(ids: seq<TagId>)
    requires forall i :: 0 <= i < |ids| ==> ids[i] != "" && ',' !in ids[i]
    ensures ParseIdList(if ids == [] then None else Some(Join(ids, ","))) == ids
  {
    if ids != [] {
      SplitJoin(ids, ',');
      NonEmptyOfNonEmpty(ids);
    }
  }

  // ---------------------------------------------------------------- scores

  /** The score of `tag` on `book`: the sum of the values of the rows for that pair. */
  function RowSum(rows: seq<VoteRow>, book: BookId, tag: TagId): int
    decreases |rows|
  {
    if rows == [] then 0
    else
      var last := rows[|rows| - 1];
      RowSum(rows[..|rows| - 1], book, tag) + (if last.bookId == book && last.tagId == tag then last.value else 0)
  }

  /** The tags with at least one row on `book`. */
  function TagsOf(rows: seq<VoteRow>, book: BookId): set<TagId> {
    set i | 0 <= i < |rows| && rows[i].bookId == book :: rows[i].tagId
  }

  /** The scores of one book, keyed by tag: every tag it has rows for, and only those. */
  function TagScores(rows: seq<VoteRow>, book: BookId): (m: map<TagId, int>)
    ensures m.Keys == TagsOf(rows, book)
  {
    map t | t in TagsOf(rows, book) :: RowSum(rows, book, t)
  }

  /** `bookTagScores[book.id] || {}`. */
  function ScoresFor(scores: map<BookId, map<TagId, int>>, book: BookId): map<TagId, int> {
    if book in scores then scores[book] else map[]
  }

  /** `scores` holds exactly the per-book scores of `rows`. */
  ghost predicate ScoresOf(scores: map<BookId, map<TagId, int>>, rows: seq<VoteRow>) {
    && (forall b :: b in scores ==> scores[b] == TagScores(rows, b))
    && (forall b :: b !in scores ==> TagsOf(rows, b) == {})
  }

  /**
    * The accumulation loop: a nested dictionary from book to tag to the running sum,
    * an entry being (re)set to 0 when it is missing or 0, then the row's value added.
    */
  method AccumulateScores(rows: seq<VoteRow>) returns (scores: map<BookId, map<TagId, int>>)
    ensures forall b :: ScoresFor(scores, b) == TagScores(rows, b)
  {
    scores := map[];
    var i := 0;
    while i < |rows|
      invariant 0 <= i <= |rows|
      invariant ScoresOf(scores, rows[..i])
    {
      ghost var before := scores;
      scores := AddRow(scores, rows[i]);
      AccumulateStep(rows, i, before, scores);
      i := i + 1;
    }
    assert rows[..|rows|] == rows;
    forall b ensures ScoresFor(scores, b) == TagScores(rows, b) {
      if b !in scores {
        assert TagScores(rows, b).Keys == {};
      }
    }
  }

  /**
    * The loop body for one row: the book's dictionary is created when missing, the
    * tag's entry is set to 0 when missing or 0, and the row's value is added to it.
    */
  method AddRow(scores: map<BookId, map<TagId, int>>, bt: VoteRow) returns (scores': map<BookId, map<TagId, int>>)
    ensures var inner := ScoresFor(scores, bt.bookId);
            scores' == scores[bt.bookId := inner[bt.tagId := (if bt.tagId in inner then inner[bt.tagId] else 0) + bt.value]]
  {
    var inner := if bt.bookId in scores then scores[bt.bookId] else map[];
    ghost var inner0 := inner;
    if bt.tagId !in inner || inner[bt.tagId] == 0 {
      inner := inner[bt.tagId := 0];
    }
    inner := inner[bt.tagId := inner[bt.tagId] + bt.value];
    assert inner == inner0[bt.tagId := (if bt.tagId in inner0 then inner0[bt.tagId] else 0) + bt.value];
    scores' := scores[bt.bookId := inner];
  }

  /** One more row adds its value to the score of its (book, tag) pair and to nothing else. */
  lemma AccumulateStep(rows: seq<VoteRow>, i: nat, scores: map<BookId, map<TagId, int>>,
                       scores': map<BookId, map<TagId, int>>)
    requires i < |rows| && ScoresOf(scores, rows[..i])
    requires var r := rows[i]; var inner := ScoresFor(scores, r.bookId);
             scores' == scores[r.bookId := inner[r.tagId := (if r.tagId in inner then inner[r.tagId] else 0) + r.value]]
    ensures ScoresOf(scores', rows[..i + 1])
  {
    var r := rows[i];
    forall b | b in scores' ensures scores'[b] == TagScores(rows[..i + 1], b) {
      if b != r.bookId {
        StepOtherBook(rows, i, b);
      } else {
        StepOwnScores(rows, i, ScoresFor(scores, r.bookId), scores'[b]);
      }
    }
    forall b | b !in scores' ensures TagsOf(rows[..i + 1], b) == {} {
      StepOtherBook(rows, i, b);
    }
  }

  /** The dictionary of the row's own book after the step holds that book's new scores. */
  lemma StepOwnScores(rows: seq<VoteRow>, i: nat, inner: map<TagId, int>, inner': map<TagId, int>)
    requires i < |rows|
    requires inner == TagScores(rows[..i], rows[i].bookId)
    requires inner' == inner[rows[i].tagId := (if rows[i].tagId in inner then inner[rows[i].tagId] else 0) + rows[i].value]
    ensures inner' == TagScores(rows[..i + 1], rows[i].bookId)
  {
    StepOwnBook(rows, i);
    var m := TagScores(rows[..i + 1], rows[i].bookId);
    assert inner'.Keys == m.Keys;
    forall t | t in m ensures inner'[t] == m[t] {
    }
  }

  /** A row of another book changes nothing in this book's scores. */
  lemma StepOtherBook(rows: seq<VoteRow>, i: nat, b: BookId)
    requires i < |rows| && rows[i].bookId != b
    ensures TagsOf(rows[..i + 1], b) == TagsOf(rows[..i], b)
    ensures TagScores(rows[..i + 1], b) == TagScores(rows[..i], b)
  {
    var post := rows[..i + 1];
    assert post[..i] == rows[..i] && post[i] == rows[i];
    assert TagsOf(post, b) == TagsOf(rows[..i], b);
    RowSumOtherBook(post, b);
  }

  /** A row of this book adds its tag and its value to that tag's score, and no other. */
  lemma StepOwnBook(rows: seq<VoteRow>, i: nat)
    requires i < |rows|
    ensures var r := rows[i];
            && TagsOf(rows[..i + 1], r.bookId) == TagsOf(rows[..i], r.bookId) + {r.tagId}
            && RowSum(rows[..i + 1], r.bookId, r.tagId)
               == (if r.tagId in TagsOf(rows[..i], r.bookId) then RowSum(rows[..i], r.bookId, r.tagId) else 0) + r.value
            && forall t :: t != r.tagId ==> RowSum(rows[..i + 1], r.bookId, t) == RowSum(rows[..i], r.bookId, t)
  {
    var r := rows[i];
    var pre := rows[..i];
    var post := rows[..i + 1];
    assert post[..i] == pre && post[i] == r;
    assert TagsOf(post, r.bookId) == TagsOf(pre, r.bookId) + {r.tagId};
    if r.tagId !in TagsOf(pre, r.bookId) {
      RowSumAbsent(pre, r.bookId, r.tagId);
    }
    forall t | t != r.tagId ensures RowSum(post, r.bookId, t) == RowSum(pre, r.bookId, t) {
      RowSumOtherTag(post, r.bookId, t);
    }
  }

  lemma RowSumOtherTag(rows: seq<VoteRow>, b: BookId, t: TagId)
    requires rows != [] && rows[|rows| - 1].tagId != t
    ensures RowSum(rows, b, t) == RowSum(rows[..|rows| - 1], b, t)
  {
  }

  lemma RowSumOtherBook(rows: seq<VoteRow>, b: BookId)
    requires rows != [] && rows[|rows| - 1].bookId != b
    ensures forall t :: RowSum(rows, b, t) == RowSum(rows[..|rows| - 1], b, t)
  {
  }

  /** A pair without rows has score 0. */
  lemma {:induction false} RowSumAbsent(rows: seq<VoteRow>, book: BookId, tag: TagId)
    requires tag !in TagsOf(rows, book)
    ensures RowSum(rows, book, tag) == 0
    decreases |rows|
  {
    if rows != [] {
      var pre := rows[..|rows| - 1];
      assert TagsOf(pre, book) <= TagsOf(rows, book) by {
        forall t | t in TagsOf(pre, book) ensures t in TagsOf(rows, book) {
          var j :| 0 <= j < |pre| && pre[j].bookId == book && pre[j].tagId == t;
          assert rows[j] == pre[j];
        }
      }
      RowSumAbsent(pre, book, tag);
    }
  }

  lemma {:induction false} RowSumAppend(a: seq<VoteRow>, b: seq<VoteRow>, book: BookId, tag: TagId)
    ensures RowSum(a + b, book, tag) == RowSum(a, book, tag) + RowSum(b, book, tag)
    decreases |b|
  {
    if b == [] {
      assert a + b == a;
    } else {
      assert (a + b)[..|a + b| - 1] == a + b[..|b| - 1];
      RowSumAppend(a, b[..|b| - 1], book, tag);
    }
  }

  /** A score does not depend on the order the rows come in. */
  lemma {:induction false} RowSumPermutation(a: seq<VoteRow>, b: seq<VoteRow>, book: BookId, tag: TagId)
    requires multiset(a) == multiset(b)
    ensures RowSum(a, book, tag) == RowSum(b, book, tag)
    decreases |a|
  {
    if a != [] {
      var x := a[|a| - 1];
      assert x in multiset(b);
      var i :| 0 <= i < |b| && b[i] == x;
      var rest := b[..i] + b[i + 1..];
      assert b == b[..i] + [x] + b[i + 1..];
      assert a == a[..|a| - 1] + [x];
      assert multiset(b) == multiset(b[..i]) + multiset{x} + multiset(b[i + 1..]);
      assert multiset(rest) == multiset(b[..i]) + multiset(b[i + 1..]);
      assert multiset(a) == multiset(a[..|a| - 1]) + multiset{x};
      assert multiset(a[..|a| - 1]) == multiset(a) - multiset{x};
      assert multiset(rest) == multiset(b) - multiset{x};
      RowSumPermutation(a[..|a| - 1], rest, book, tag);
      RowSumAppend(b[..i] + [x], b[i + 1..], book, tag);
      RowSumAppend(b[..i], [x], book, tag);
      RowSumAppend(b[..i], b[i + 1..], book, tag);
      assert [x][..0] == [];
    }
  }

  /** Corollary: the whole score table is the same for any order of the same rows. */
  lemma ScoresIgnoreRowOrder(a: seq<VoteRow>, b: seq<VoteRow>, book: BookId)
    requires multiset(a) == multiset(b)
    ensures TagScores(a, book) == TagScores(b, book)
  {
    forall t ensures t in TagsOf(a, book) <==> t in TagsOf(b, book) {
      if t in TagsOf(a, book) {
        var j :| 0 <= j < |a| && a[j].bookId == book && a[j].tagId == t;
        assert a[j] in multiset(b);
      }
      if t in TagsOf(b, book) {
        var j :| 0 <= j < |b| && b[j].bookId == book && b[j].tagId == t;
        assert b[j] in multiset(a);
      }
    }
    forall t | t in TagsOf(a, book) ensures RowSum(a, book, t) == RowSum(b, book, t) {
      RowSumPermutation(a, b, book, t);
    }
  }

  // ---------------------------------------------------------------- filter

  /** `tagScores[tagId] !== undefined && tagScores[tagId] > 0`. */
  predicate Positive(tagScores: map<TagId, int>, tag: TagId) {
    tag in tagScores && tagScores[tag] > 0
  }

  /** `includeTags.every(positive)`. */
  function HasAllIncluded(tagScores: map<TagId, int>, includeTags: seq<TagId>): (r: bool)
    ensures r <==> forall i :: 0 <= i < |includeTags| ==> Positive(tagScores, includeTags[i])
    decreases |includeTags|
  {
    if includeTags == [] then true
    else Positive(tagScores, includeTags[0]) && HasAllIncluded(tagScores, includeTags[1..])
  }

  /** `excludeTags.some(positive)`. */
  function HasAnyExcluded(tagScores: map<TagId, int>, excludeTags: seq<TagId>): (r: bool)
    ensures r <==> exists i :: 0 <= i < |excludeTags| && Positive(tagScores, excludeTags[i])
    decreases |excludeTags|
  {
    if excludeTags == [] then false
    else Positive(tagScores, excludeTags[0]) || HasAnyExcluded(tagScores, excludeTags[1..])
  }

  /** The filter predicate, with its two length guards. */
  function Passes(tagScores: map<TagId, int>, includeTags: seq<TagId>, excludeTags: seq<TagId>): bool {
    && (|includeTags| > 0 ==> HasAllIncluded(tagScores, includeTags))
    && (|excludeTags| > 0 ==> !HasAnyExcluded(tagScores, excludeTags))
  }

  /**
    * A book passes iff every included tag has a positive score on it and no excluded
    * tag has; an empty list imposes nothing.
    */
  lemma PassesIff(tagScores: map<TagId, int>, includeTags: seq<TagId>, excludeTags: seq<TagId>)
    ensures Passes(tagScores, includeTags, excludeTags) <==>
              ((forall t :: t in includeTags ==> Positive(tagScores, t))
               && (forall t :: t in excludeTags ==> !Positive(tagScores, t)))
  {
    if Passes(tagScores, includeTags, excludeTags) {
      forall t | t in includeTags ensures Positive(tagScores, t) {
        var i :| 0 <= i < |includeTags| && includeTags[i] == t;
      }
      forall t | t in excludeTags ensures !Positive(tagScores, t) {
        var i :| 0 <= i < |excludeTags| && excludeTags[i] == t;
      }
    }
  }

  /** A tag both included and excluded lets no book through. */
  lemma OverlapExcludesAll(tagScores: map<TagId, int>, includeTags: seq<TagId>, excludeTags: seq<TagId>, t: TagId)
    requires t in includeTags && t in excludeTags
    ensures !Passes(tagScores, includeTags, excludeTags)
  {
    PassesIff(tagScores, includeTags, excludeTags);
  }

  // ---------------------------------------------------------------- ranking

  /** `includeTags.reduce((sum, id) => sum + (tagScores[id] || 0), 0)`. */
  function MatchScore(tagScores: map<TagId, int>, includeTags: seq<TagId>): (r: int)
    ensures (forall i :: 0 <= i < |includeTags| ==> Positive(tagScores, includeTags[i])) ==> r >= |includeTags|
    ensures (forall i :: 0 <= i < |includeTags| ==> includeTags[i] !in tagScores) ==> r == 0
    decreases |includeTags|
  {
    if includeTags == [] then 0
    else
      var t := includeTags[|includeTags| - 1];
      MatchScore(tagScores, includeTags[..|includeTags| - 1]) + (if t in tagScores then tagScores[t] else 0)
  }

  /** Each score with negative ones counted as 0. */
  function Clamped(tagScores: map<TagId, int>): (m: map<TagId, int>)
    ensures m.Keys == tagScores.Keys
    ensures forall t :: t in m ==> m[t] >= 0 && m[t] >= tagScores[t]
  {
    map t | t in tagScores :: if tagScores[t] > 0 then tagScores[t] else 0
  }

  /** `Object.values(tagScores).reduce((sum, s) => sum + Math.max(0, s), 0)`. */
  ghost function Popularity(tagScores: map<TagId, int>): int {
    MapSums.Sum(Clamped(tagScores))
  }

  /**
    * Popularity is never negative and is at least the score of each tag: a tag
    * with a negative score takes nothing away.
    */
  method PopularityOf(tagScores: map<TagId, int>) returns (p: int)
    ensures p == Popularity(tagScores)
    ensures p >= 0
    ensures forall t :: t in tagScores ==> p >= tagScores[t]
  {
    p := MapSums.Total(Clamped(tagScores));
    forall t | t in tagScores ensures p >= tagScores[t] {
      MapSums.SumNonNegative(Clamped(tagScores), t);
    }
    MapSums.SumNonNegative(Clamped(tagScores), "");
  }

  /** Best match applies only with `sort` = best_match and a non-empty include list. */
  predicate ByMatch(sort: string, includeTags: seq<TagId>) {
    sort == "best_match" && |includeTags| > 0
  }

  function RankOrder(sort: string, includeTags: seq<TagId>): (BookResult, BookResult) -> bool {
    if ByMatch(sort, includeTags) then ByKeyDesc((r: BookResult) => r.matchScore)
    else ByKeyDesc((r: BookResult) => r.popularity)
  }

  /** `searchParams.get("sort") || "best_match"`. */
  function SortParam(param: Option<string>): string {
    if param.Some? && param.value != "" then param.value else "best_match"
  }

  /** The books that pass the filter, in the order they were fetched. */
  function Filtered(books: seq<Book>, rows: seq<VoteRow>, includeTags: seq<TagId>, excludeTags: seq<TagId>): seq<Book> {
    Filter(books, (b: Book) => Passes(TagScores(rows, b.id), includeTags, excludeTags))
  }

  ghost function Scored(books: seq<Book>, rows: seq<VoteRow>, includeTags: seq<TagId>): (r: seq<BookResult>)
    ensures |r| == |books|
    ensures forall i :: 0 <= i < |books| ==>
      r[i] == BookResult(books[i], MatchScore(TagScores(rows, books[i].id), includeTags),
                         Popularity(TagScores(rows, books[i].id)))
  {
    seq(|books|, i requires 0 <= i < |books| =>
      BookResult(books[i], MatchScore(TagScores(rows, books[i].id), includeTags),
                 Popularity(TagScores(rows, books[i].id))))
  }

  /** What the route answers for a successful fetch of at least one book. */
  ghost function Ranked(books: seq<Book>, rows: seq<VoteRow>, includeTags: seq<TagId>, excludeTags: seq<TagId>,
                        sort: string): seq<BookResult> {
    SortBy(Scored(Filtered(books, rows, includeTags, excludeTags), rows, includeTags), RankOrder(sort, includeTags))
  }

  /**
    * The handler over the fetched tables. `books` are the rows of `books` (the year
    * bounds are a database filter and are not modelled), `booksError` whether that read
    * failed, `rows` the `book_tags` rows of those books (`None` when the read returned
    * nothing, which the route treats as no rows).
    */
  method Get(includeParam: Option<string>, excludeParam: Option<string>, sortParam: Option<string>,
             books: seq<Book>, booksError: bool, rows: Option<seq<VoteRow>>)
    returns (resp: Response<ExploreBody>)
    ensures booksError ==> resp == Fail(500, "Failed to fetch books")
    ensures !booksError && books == [] ==> resp == Ok(ExploreBody([], 0))
    ensures !booksError && books != [] ==>
      && resp.Ok?
      && resp.body.total == |resp.body.books|
      && resp.body.books == Ranked(books, rows.GetOr([]), ParseIdList(includeParam),
                                   ParseIdList(excludeParam), SortParam(sortParam))
  {
    var includeTags := ParseIdList(includeParam);
    var excludeTags := ParseIdList(excludeParam);
    var sort := SortParam(sortParam);
    if booksError {
      return Fail(500, "Failed to fetch books");
    }
    if books == [] {
      return Ok(ExploreBody([], 0));
    }
    var bookTags := rows.GetOr([]);
    var scores := AccumulateScores(bookTags);
    var filtered := Filter(books, (b: Book) => Passes(ScoresFor(scores, b.id), includeTags, excludeTags));
    assert filtered == Filtered(books, bookTags, includeTags, excludeTags) by {
      FilterSamePredicate(books, (b: Book) => Passes(ScoresFor(scores, b.id), includeTags, excludeTags),
                          (b: Book) => Passes(TagScores(bookTags, b.id), includeTags, excludeTags));
    }
    var results := ScoreEach(filtered, scores, bookTags, includeTags);
    SortInPlace(results, RankOrder(sort, includeTags));
    resp := Ok(ExploreBody(results[..], results.Length));
  }

  /** `filteredBooks.map(...)`: each book with its match score and popularity, in a new array. */
  method ScoreEach(filtered: seq<Book>, scores: map<BookId, map<TagId, int>>, rows: seq<VoteRow>,
                   includeTags: seq<TagId>) returns (results: array<BookResult>)
    requires forall b :: ScoresFor(scores, b) == TagScores(rows, b)
    ensures fresh(results)
    ensures results[..] == Scored(filtered, rows, includeTags)
  {
    results := new BookResult[|filtered|];
    var i := 0;
    while i < |filtered|
      invariant 0 <= i <= |filtered|
      invariant forall k :: 0 <= k < i ==> results[k] == Scored(filtered, rows, includeTags)[k]
    {
      var tagScores := ScoresFor(scores, filtered[i].id);
      var popularity := PopularityOf(tagScores);
      results[i] := BookResult(filtered[i], MatchScore(tagScores, includeTags), popularity);
      i := i + 1;
    }
  }

  lemma {:induction false} FilterSamePredicate<T>(s: seq<T>, p: T -> bool, q: T -> bool)
    requires forall x :: p(x) == q(x)
    ensures Filter(s, p) == Filter(s, q)
    decreases |s|
  {
    if s != [] {
      FilterSamePredicate(s[..|s| - 1], p, q);
    }
  }

  // ------------------------------------------------- properties of the answer

  /** Every returned book is a fetched book that passes the filter. */
  lemma RankedPass(books: seq<Book>, rows: seq<VoteRow>, includeTags: seq<TagId>,
                   excludeTags: seq<TagId>, sort: string)
    ensures var r := Ranked(books, rows, includeTags, excludeTags, sort);
            forall i :: 0 <= i < |r| ==> r[i].book in books && Passes(TagScores(rows, r[i].book.id), includeTags, excludeTags)
  {
    var f := Filtered(books, rows, includeTags, excludeTags);
    var s := Scored(f, rows, includeTags);
    var r := Ranked(books, rows, includeTags, excludeTags, sort);
    SortByPermutes(s, RankOrder(sort, includeTags));
    forall i | 0 <= i < |r|
      ensures r[i].book in books && Passes(TagScores(rows, r[i].book.id), includeTags, excludeTags)
    {
      assert r[i] in multiset(s);
      ScoredFrom(f, rows, includeTags, r[i]);
      FilteredPass(books, rows, includeTags, excludeTags, r[i].book);
    }
  }

  /** A scored entry is one of the scored books. */
  lemma ScoredFrom(f: seq<Book>, rows: seq<VoteRow>, includeTags: seq<TagId>, x: BookResult)
    requires x in Scored(f, rows, includeTags)
    ensures x.book in f
  {
    var s := Scored(f, rows, includeTags);
    var j :| 0 <= j < |s| && s[j] == x;
    assert s[j].book == f[j];
  }

  /** A book kept by the filter was fetched and passes. */
  lemma FilteredPass(books: seq<Book>, rows: seq<VoteRow>, includeTags: seq<TagId>, excludeTags: seq<TagId>, b: Book)
    requires b in Filtered(books, rows, includeTags, excludeTags)
    ensures b in books && Passes(TagScores(rows, b.id), includeTags, excludeTags)
  {
    var f := Filtered(books, rows, includeTags, excludeTags);
    var j :| 0 <= j < |f| && f[j] == b;
  }

  /** Every fetched book that passes the filter is returned, and the count is the number passing. */
  lemma PassingRanked(books: seq<Book>, rows: seq<VoteRow>, includeTags: seq<TagId>,
                      excludeTags: seq<TagId>, sort: string, k: nat)
    requires k < |books| && Passes(TagScores(rows, books[k].id), includeTags, excludeTags)
    ensures var r := Ranked(books, rows, includeTags, excludeTags, sort);
            && |r| == |Filtered(books, rows, includeTags, excludeTags)|
            && exists i :: 0 <= i < |r| && r[i].book == books[k]
  {
    var f := Filtered(books, rows, includeTags, excludeTags);
    var s := Scored(f, rows, includeTags);
    var r := Ranked(books, rows, includeTags, excludeTags, sort);
    SortByPermutes(s, RankOrder(sort, includeTags));
    assert books[k] in f;
    var j :| 0 <= j < |f| && f[j] == books[k];
    assert s[j] in multiset(r);
    var i :| 0 <= i < |r| && r[i] == s[j];
  }

  /**
    * The answer is ordered by match score, highest first, when ranking by best match,
    * and by popularity otherwise; books with equal keys keep the fetched order.
    */
  lemma RankedOrder(books: seq<Book>, rows: seq<VoteRow>, includeTags: seq<TagId>,
                    excludeTags: seq<TagId>, sort: string, v: BookResult)
    ensures var r := Ranked(books, rows, includeTags, excludeTags, sort);
            && (ByMatch(sort, includeTags) ==> forall i, j :: 0 <= i < j < |r| ==> r[i].matchScore >= r[j].matchScore)
            && (!ByMatch(sort, includeTags) ==> forall i, j :: 0 <= i < j < |r| ==> r[i].popularity >= r[j].popularity)
            && Filter(r, y => Tied(RankOrder(sort, includeTags), y, v))
               == Filter(Scored(Filtered(books, rows, includeTags, excludeTags), rows, includeTags),
                         y => Tied(RankOrder(sort, includeTags), y, v))
  {
    var s := Scored(Filtered(books, rows, includeTags, excludeTags), rows, includeTags);
    if ByMatch(sort, includeTags) {
      ByKeyDescWeakOrder((r: BookResult) => r.matchScore);
    } else {
      ByKeyDescWeakOrder((r: BookResult) => r.popularity);
    }
    SortBySorted(s, RankOrder(sort, includeTags));
    SortByStable(s, RankOrder(sort, includeTags), v);
  }

  /** With an include list, every returned book has match score at least its length. */
  lemma MatchScoreOfPassing(tagScores: map<TagId, int>, includeTags: seq<TagId>, excludeTags: seq<TagId>)
    requires |includeTags| > 0 && Passes(tagScores, includeTags, excludeTags)
    ensures MatchScore(tagScores, includeTags) >= |includeTags| > 0
  {
  }
}
