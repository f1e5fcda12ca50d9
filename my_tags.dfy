/**
  * `GET /api/tags/my-tags?tab=…`: the tags the caller voted up or down (with how many
  * books each vote covers, most first), or the tags the caller saved, follows or hides
  * (with when each was added, latest first).
  */
module MyTags {
  import opened Wrappers
  import opened Http
  import opened Text
  import opened Sorting
  import MapSums

  type UserId = string
  type TagId = string

  /** A `book_tags` row. */
  datatype VoteRow = VoteRow(userId: UserId, bookId: string, tagId: TagId, value: int)

  /** A `user_tag_preferences` row. */
  datatype PrefRow = PrefRow(userId: UserId, tagId: TagId, preference: string, createdAt: string)

  /** A `tags` row with its category's name, when it has a category. */
  datatype TagRow = TagRow(id: TagId, name: string, description: Option<string>, categoryName: Option<string>)

  datatype VotedTag = VotedTag(id: TagId, name: string, description: Option<string>,
                               categoryName: string, bookCount: int)

  datatype PreferredTag = PreferredTag(id: TagId, name: string, description: Option<string>,
                                       categoryName: string, addedAt: string)

  datatype Body = VotedTags(voted: seq<VotedTag>) | PreferredTags(preferred: seq<PreferredTag>)

  // ------------------------------------------------------------------ the queries

  function VoteOf(userId: UserId, value: int): VoteRow -> bool {
    (r: VoteRow) => r.userId == userId && r.value == value
  }

  function PrefOf(userId: UserId, preference: string): PrefRow -> bool {
    (r: PrefRow) => r.userId == userId && r.preference == preference
  }

  function TagIn(ids: set<TagId>): TagRow -> bool {
    (t: TagRow) => t.id in ids
  }

  /** The tab: the `tab` parameter, or "upvoted" when it is missing or empty. */
  function Tab(tabParam: Option<string>): (r: string)
    ensures Truthy(tabParam) ==> r == tabParam.value
    ensures !Truthy(tabParam) ==> r == "upvoted"
  {
    if Truthy(tabParam) then tabParam.value else "upvoted"
  }

  predicate IsVoteTab(tab: string) {
    tab == "upvoted" || tab == "downvoted"
  }

  predicate IsPreferenceTab(tab: string) {
    tab in ["saved", "followed", "hidden"]
  }

  /** The vote value a vote tab selects. */
  function VoteValue(tab: string): (r: int)
    requires IsVoteTab(tab)
    ensures tab == "upvoted" ==> r == 1
    ensures tab == "downvoted" ==> r == -1
  {
    if tab == "upvoted" then 1 else -1
  }

  // ------------------------------------------------------------------ counting

  /** How many of the rows carry tag `t`. */
  function CountOf(votes: seq<VoteRow>, t: TagId): (r: nat)
    ensures r <= |votes|
  {
    if votes == [] then 0
    else CountOf(votes[..|votes| - 1], t) + (if votes[|votes| - 1].tagId == t then 1 else 0)
  }

  function TagIds(votes: seq<VoteRow>): set<TagId> {
    set i | 0 <= i < |votes| :: votes[i].tagId
  }

  /** `tagCounts` as the loop leaves it: one entry per voted tag, holding its number of rows. */
  ghost function Counts(votes: seq<VoteRow>): map<TagId, int> {
    map t | t in TagIds(votes) :: CountOf(votes, t)
  }

  lemma {:induction false} CountAbsent(votes: seq<VoteRow>, t: TagId)
    requires t !in TagIds(votes)
    ensures CountOf(votes, t) == 0
  {
    if votes != [] {
      var init := votes[..|votes| - 1];
      assert TagIds(init) <= TagIds(votes) by {
        forall x | x in TagIds(init) ensures x in TagIds(votes) {
          var i :| 0 <= i < |init| && init[i].tagId == x;
          assert votes[i] == init[i];
        }
      }
      CountAbsent(init, t);
    }
  }

  /** One more row adds its tag to the voted tags. */
  lemma TagIdsSnoc(votes: seq<VoteRow>, v: VoteRow)
    ensures TagIds(votes + [v]) == TagIds(votes) + {v.tagId}
  {
    var s := votes + [v];
    forall x | x in TagIds(s) ensures x in TagIds(votes) + {v.tagId} {
      var i :| 0 <= i < |s| && s[i].tagId == x;
      if i < |votes| {
        assert s[i] == votes[i];
      }
    }
    forall x | x in TagIds(votes) ensures x in TagIds(s) {
      var i :| 0 <= i < |votes| && votes[i].tagId == x;
      assert s[i] == votes[i];
    }
    assert s[|votes|] == v;
  }

  /** One more row raises the count of its own tag by one and leaves the other counts alone. */
  lemma CountsStep(votes: seq<VoteRow>, v: VoteRow)
    ensures Counts(votes + [v]) == Counts(votes)[v.tagId := CountOf(votes, v.tagId) + 1]
  {
    var s := votes + [v];
    assert s[..|s| - 1] == votes;
    TagIdsSnoc(votes, v);
    var after, expected := Counts(s), Counts(votes)[v.tagId := CountOf(votes, v.tagId) + 1];
    assert after.Keys == expected.Keys;
    forall t | t in after ensures after[t] == expected[t] {
      assert after[t] == CountOf(s, t) == CountOf(votes, t) + (if v.tagId == t then 1 else 0);
    }
  }

  /** The counts add up to the number of rows: every row is counted once, for its own tag. */
  lemma {:induction false} CountsTotal(votes: seq<VoteRow>)
    ensures MapSums.Sum(Counts(votes)) == |votes|
    decreases |votes|
  {
    if votes == [] {
      assert Counts(votes) == map[];
    } else {
      var init, v := votes[..|votes| - 1], votes[|votes| - 1];
      var before := Counts(init);
      var prior := if v.tagId in before then before[v.tagId] else 0;
      assert votes == init + [v];
      CountsTotal(init);
      CountsStep(init, v);
      assert prior == CountOf(init, v.tagId) by {
        if v.tagId !in before {
          CountAbsent(init, v.tagId);
        }
      }
      MapSums.SumUpdate(before, v.tagId, CountOf(init, v.tagId) + 1);
    }
  }

  /** The `tagCounts` loop. */
  method CountTags(votes: seq<VoteRow>) returns (counts: map<TagId, int>)
    ensures counts == Counts(votes)
  {
    counts := map[];
    var i := 0;
    while i < |votes|
      invariant 0 <= i <= |votes|
      invariant counts == Counts(votes[..i])
    {
      var t := votes[i].tagId;
      assert votes[..i + 1] == votes[..i] + [votes[i]];
      CountsStep(votes[..i], votes[i]);
      if t !in counts {
        CountAbsent(votes[..i], t);
      }
      counts := counts[t := (if t in counts then counts[t] else 0) + 1];
      i := i + 1;
    }
    assert votes[..i] == votes;
  }

  // ------------------------------------------------------------------ added dates

  /** Row `i` is the last one for its tag. */
  predicate LastFor(prefs: seq<PrefRow>, i: int)
    requires 0 <= i < |prefs|
  {
    forall j :: i < j < |prefs| ==> prefs[j].tagId != prefs[i].tagId
  }

  /** `addedMap` after the rows: each later row for a tag overwrites the earlier date. */
  function LastAdded(prefs: seq<PrefRow>): map<TagId, string> {
    if prefs == [] then map[]
    else LastAdded(prefs[..|prefs| - 1])[prefs[|prefs| - 1].tagId := prefs[|prefs| - 1].createdAt]
  }

  /** The map holds each tag the rows mention, with the date of its last row. */
  lemma {:induction false} LastAddedDates(prefs: seq<PrefRow>)
    ensures var r := LastAdded(prefs);
            && (forall t :: t in r <==> exists i :: 0 <= i < |prefs| && prefs[i].tagId == t)
            && (forall i :: 0 <= i < |prefs| && LastFor(prefs, i) ==> r[prefs[i].tagId] == prefs[i].createdAt)
    decreases |prefs|
  {
    if prefs != [] {
      var init, p := prefs[..|prefs| - 1], prefs[|prefs| - 1];
      LastAddedDates(init);
      var m := LastAdded(init);
      var r := LastAdded(prefs);
      assert r == m[p.tagId := p.createdAt];
      forall t ensures t in r <==> exists i :: 0 <= i < |prefs| && prefs[i].tagId == t {
        if t in m {
          var i :| 0 <= i < |init| && init[i].tagId == t;
          assert prefs[i] == init[i];
        }
        if exists i :: 0 <= i < |prefs| && prefs[i].tagId == t {
          var i :| 0 <= i < |prefs| && prefs[i].tagId == t;
          if i < |init| {
            assert init[i] == prefs[i];
          }
        }
      }
      forall i | 0 <= i < |prefs| && LastFor(prefs, i) ensures r[prefs[i].tagId] == prefs[i].createdAt {
        if i < |init| {
          assert init[i] == prefs[i];
          assert prefs[i].tagId != p.tagId;
          assert LastFor(init, i) by {
            forall j | i < j < |init| ensures init[j].tagId != init[i].tagId {
              assert init[j] == prefs[j];
            }
          }
        }
      }
    }
  }

  /** The `addedMap` loop: later rows overwrite earlier ones. */
  method AddedDates(prefs: seq<PrefRow>) returns (added: map<TagId, string>)
    ensures added == LastAdded(prefs)
  {
    added := map[];
    for i := 0 to |prefs|
      invariant added == LastAdded(prefs[..i])
    {
      assert prefs[..i + 1][..i] == prefs[..i];
      added := added[prefs[i].tagId := prefs[i].createdAt];
    }
    assert prefs[..|prefs|] == prefs;
  }

  // ------------------------------------------------------------------ the answers

  function VotedOf(t: TagRow, counts: map<TagId, int>): VotedTag {
    VotedTag(t.id, t.name, t.description, t.categoryName.GetOr(""), if t.id in counts then counts[t.id] else 0)
  }

  function PreferredOf(t: TagRow, added: map<TagId, string>): PreferredTag {
    PreferredTag(t.id, t.name, t.description, t.categoryName.GetOr(""), if t.id in added then added[t.id] else "")
  }

  function Voted(tags: seq<TagRow>, counts: map<TagId, int>): (r: seq<VotedTag>)
    ensures |r| == |tags| && forall i :: 0 <= i < |r| ==> r[i] == VotedOf(tags[i], counts)
  {
    seq(|tags|, i requires 0 <= i < |tags| => VotedOf(tags[i], counts))
  }

  function Preferred(tags: seq<TagRow>, added: map<TagId, string>): (r: seq<PreferredTag>)
    ensures |r| == |tags| && forall i :: 0 <= i < |r| ==> r[i] == PreferredOf(tags[i], added)
  {
    seq(|tags|, i requires 0 <= i < |tags| => PreferredOf(tags[i], added))
  }

  /** `(a, b) => b.book_count - a.book_count`. */
  function ByCount(): (VotedTag, VotedTag) -> bool {
    ByKeyDesc((t: VotedTag) => t.bookCount)
  }

  /** `(a, b) => b.added_at.localeCompare(a.added_at)`: the latest date first. */
  function ByAddedDesc(): (PreferredTag, PreferredTag) -> bool {
    (a: PreferredTag, b: PreferredTag) => StrLess(b.addedAt, a.addedAt)
  }

  lemma ByAddedDescWeak()
    ensures WeakOrder(ByAddedDesc())
  {
    forall a: PreferredTag, b: PreferredTag ensures !(StrLess(b.addedAt, a.addedAt) && StrLess(a.addedAt, b.addedAt)) {
      StrLessTrichotomy(a.addedAt, b.addedAt);
    }
    forall a: PreferredTag, b: PreferredTag, c: PreferredTag | StrLess(c.addedAt, a.addedAt)
      ensures StrLess(b.addedAt, a.addedAt) || StrLess(c.addedAt, b.addedAt)
    {
      StrLessNegativeTransitive(c.addedAt, b.addedAt, a.addedAt);
    }
  }

  /** The enriched vote-tab tags, sorted in place by count. */
  method VotedList(tags: seq<TagRow>, counts: map<TagId, int>) returns (r: seq<VotedTag>)
    ensures r == SortBy(Voted(tags, counts), ByCount())
  {
    var enriched := new VotedTag[|tags|](i requires 0 <= i < |tags| => VotedOf(tags[i], counts));
    assert enriched[..] == Voted(tags, counts);
    SortInPlace(enriched, ByCount());
    r := enriched[..];
  }

  /** The enriched preference-tab tags, sorted in place by date. */
  method PreferredList(tags: seq<TagRow>, added: map<TagId, string>) returns (r: seq<PreferredTag>)
    ensures r == SortBy(Preferred(tags, added), ByAddedDesc())
  {
    var enriched := new PreferredTag[|tags|](i requires 0 <= i < |tags| => PreferredOf(tags[i], added));
    assert enriched[..] == Preferred(tags, added);
    SortInPlace(enriched, ByAddedDesc());
    r := enriched[..];
  }

  function PrefTagIds(prefs: seq<PrefRow>): set<TagId> {
    set i | 0 <= i < |prefs| :: prefs[i].tagId
  }

  /** A vote tab: the caller's rows with that value, counted per tag. */
  method VoteTab(votes: seq<VoteRow>, tags: seq<TagRow>, tagsRead: bool) returns (r: seq<VotedTag>)
    ensures votes == [] || !tagsRead ==> r == []
    ensures votes != [] && tagsRead ==> r == SortBy(Voted(Filter(tags, TagIn(TagIds(votes))), Counts(votes)), ByCount())
  {
    if |votes| == 0 {
      return [];
    }
    var counts := CountTags(votes);
    assert counts.Keys == TagIds(votes);
    if !tagsRead {
      return [];
    }
    r := VotedList(Filter(tags, TagIn(counts.Keys)), counts);
  }

  /** A preference tab: the caller's rows for that preference, dated by their last row. */
  method PreferenceTab(prefs: seq<PrefRow>, tags: seq<TagRow>, tagsRead: bool) returns (r: seq<PreferredTag>)
    ensures prefs == [] || !tagsRead ==> r == []
    ensures prefs != [] && tagsRead ==>
      r == SortBy(Preferred(Filter(tags, TagIn(PrefTagIds(prefs))), LastAdded(prefs)), ByAddedDesc())
  {
    if |prefs| == 0 {
      return [];
    }
    var added := AddedDates(prefs);
    if !tagsRead {
      return [];
    }
    r := PreferredList(Filter(tags, TagIn(PrefTagIds(prefs))), added);
  }

  /**
    * The handler. The tables are parameters; `votesRead`, `prefsRead` and `tagsRead` are
    * false when the matching query returns no data, which the route treats as no rows.
    */
  method Get(user: Option<UserId>, tabParam: Option<string>,
             bookTags: seq<VoteRow>, votesRead: bool,
             preferences: seq<PrefRow>, prefsRead: bool,
             tags: seq<TagRow>, tagsRead: bool)
    returns (resp: Response<Body>)
    ensures user.None? ==> resp == Fail(401, "Not authenticated")
    ensures user.Some? && !IsVoteTab(Tab(tabParam)) && !IsPreferenceTab(Tab(tabParam)) ==>
      resp == Fail(400, "Invalid tab")
    ensures user.Some? && IsVoteTab(Tab(tabParam)) ==>
      var votes := if votesRead then Filter(bookTags, VoteOf(user.value, VoteValue(Tab(tabParam)))) else [];
      && resp.Ok? && resp.body.VotedTags?
      && (votes == [] || !tagsRead ==> resp.body.voted == [])
      && (votes != [] && tagsRead ==>
            resp.body.voted == SortBy(Voted(Filter(tags, TagIn(TagIds(votes))), Counts(votes)), ByCount()))
    ensures user.Some? && IsPreferenceTab(Tab(tabParam)) ==>
      var prefs := if prefsRead then Filter(preferences, PrefOf(user.value, Tab(tabParam))) else [];
      && resp.Ok? && resp.body.PreferredTags?
      && (prefs == [] || !tagsRead ==> resp.body.preferred == [])
      && (prefs != [] && tagsRead ==>
            resp.body.preferred
            == SortBy(Preferred(Filter(tags, TagIn(PrefTagIds(prefs))), LastAdded(prefs)), ByAddedDesc()))
  {
    if user.None? {
      return Fail(401, "Not authenticated");
    }
    var tab := Tab(tabParam);
    if IsVoteTab(tab) {
      var votes := if votesRead then Filter(bookTags, VoteOf(user.value, VoteValue(tab))) else [];
      var list := VoteTab(votes, tags, tagsRead);
      return Ok(VotedTags(list));
    }
    if IsPreferenceTab(tab) {
      var prefs := if prefsRead then Filter(preferences, PrefOf(user.value, tab)) else [];
      var list := PreferenceTab(prefs, tags, tagsRead);
      return Ok(PreferredTags(list));
    }
    return Fail(400, "Invalid tab");
  }

  // ------------------------------------------------------------------ properties

  /** A vote-tab answer: most books first, each tag with its count of the caller's rows. */
  lemma VotedOrder(tags: seq<TagRow>, votes: seq<VoteRow>)
    ensures var selected := Filter(tags, TagIn(TagIds(votes)));
            var r := SortBy(Voted(selected, Counts(votes)), ByCount());
            && multiset(r) == multiset(Voted(selected, Counts(votes)))
            && (forall i, j :: 0 <= i < j < |r| ==> r[i].bookCount >= r[j].bookCount)
            && (forall i :: 0 <= i < |r| ==> r[i].bookCount == CountOf(votes, r[i].id) > 0)
  {
    var selected := Filter(tags, TagIn(TagIds(votes)));
    var s := Voted(selected, Counts(votes));
    var r := SortBy(s, ByCount());
    ByKeyDescWeakOrder((t: VotedTag) => t.bookCount);
    SortByPermutes(s, ByCount());
    SortBySorted(s, ByCount());
    forall i | 0 <= i < |r| ensures r[i].bookCount == CountOf(votes, r[i].id) > 0 {
      assert r[i] in multiset(s);
      var k :| 0 <= k < |s| && s[k] == r[i];
      assert TagIn(TagIds(votes))(selected[k]);
      var j :| 0 <= j < |votes| && votes[j].tagId == selected[k].id;
      CountPositive(votes, j);
    }
  }

  lemma {:induction false} CountPositive(votes: seq<VoteRow>, j: nat)
    requires j < |votes|
    ensures CountOf(votes, votes[j].tagId) > 0
    decreases |votes|
  {
    if j < |votes| - 1 {
      var init := votes[..|votes| - 1];
      assert init[j] == votes[j];
      CountPositive(init, j);
    }
  }

  /** A preference-tab answer: latest added first. */
  lemma PreferredOrder(tags: seq<PreferredTag>)
    ensures var r := SortBy(tags, ByAddedDesc());
            && multiset(r) == multiset(tags)
            && forall i, j :: 0 <= i < j < |r| ==> !StrLess(r[i].addedAt, r[j].addedAt)
  {
    ByAddedDescWeak();
    SortByPermutes(tags, ByAddedDesc());
    SortBySorted(tags, ByAddedDesc());
  }
}
