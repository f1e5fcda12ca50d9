/**
  * The tag list of one book page: the tags sorted by score or name, grouped by
  * category with the groups in display order, and the two updates the page applies
  * when a vote settles or a tag is added.
  */
module TagSection {
  import opened Wrappers
  import opened Text
  import opened Sorting
  import AddTagRoute

  type Tag = AddTagRoute.BookTagWithVotes
  type CategoryKey = Option<string>

  datatype SortKey = ByScore | ByName

  /** Groups are listed with a name and order taken from their first tag. */
  datatype Group = Group(name: string, order: int, tags: seq<Tag>)

  // ------------------------------------------------------------- sorting

  /** `b.score - a.score` (highest first) or `a.name.localeCompare(b.name)`. */
  function TagOrder(sortBy: SortKey): (Tag, Tag) -> bool {
    match sortBy
    case ByScore => ByKeyDesc((t: Tag) => t.score)
    case ByName => (a: Tag, b: Tag) => StrLess(a.name, b.name)
  }

  lemma TagOrderWeak(sortBy: SortKey)
    ensures WeakOrder(TagOrder(sortBy))
  {
    if sortBy == ByScore {
      ByKeyDescWeakOrder((t: Tag) => t.score);
    } else {
      forall a: Tag, b: Tag ensures !(StrLess(a.name, b.name) && StrLess(b.name, a.name)) {
        StrLessTrichotomy(a.name, b.name);
      }
      forall a: Tag, b: Tag, c: Tag | StrLess(a.name, c.name)
        ensures StrLess(a.name, b.name) || StrLess(b.name, c.name)
      {
        StrLessNegativeTransitive(a.name, b.name, c.name);
      }
    }
  }

  /** `sortedTags`: a copy of the tags, sorted in place. */
  method SortedTags(tags: seq<Tag>, sortBy: SortKey) returns (r: seq<Tag>)
    ensures r == SortBy(tags, TagOrder(sortBy))
  {
    var copy := new Tag[|tags|](i requires 0 <= i < |tags| => tags[i]);
    assert copy[..] == tags;
    SortInPlace(copy, TagOrder(sortBy));
    r := copy[..];
  }

  /**
    * The sorted list holds the same tags, highest score first or names in ascending
    * order, and tags that compare equal keep their order.
    */
  lemma SortedTagsOrder(tags: seq<Tag>, sortBy: SortKey, v: Tag)
    ensures var r := SortBy(tags, TagOrder(sortBy));
            && multiset(r) == multiset(tags)
            && (sortBy == ByScore ==> forall i, j :: 0 <= i < j < |r| ==> r[i].score >= r[j].score)
            && (sortBy == ByName ==> forall i, j :: 0 <= i < j < |r| ==> !StrLess(r[j].name, r[i].name))
            && Filter(r, y => Tied(TagOrder(sortBy), y, v)) == Filter(tags, y => Tied(TagOrder(sortBy), y, v))
  {
    TagOrderWeak(sortBy);
    SortByPermutes(tags, TagOrder(sortBy));
    SortBySorted(tags, TagOrder(sortBy));
    SortByStable(tags, TagOrder(sortBy), v);
  }

  // ------------------------------------------------------------ grouping

  function InCategory(c: CategoryKey): Tag -> bool {
    (t: Tag) => t.categoryId == c
  }

  /** Some tag of `s` has category `c`. */
  predicate Occurs(s: seq<Tag>, c: CategoryKey) {
    exists k :: 0 <= k < |s| && s[k].categoryId == c
  }

  /** The category keys in the order the tags first use them, each once. */
  function CategoryKeys(s: seq<Tag>): (r: seq<CategoryKey>)
    ensures forall i, j :: 0 <= i < j < |r| ==> r[i] != r[j]
    ensures forall c :: c in r <==> Occurs(s, c)
    decreases |s|
  {
    if s == [] then []
    else
      var keys := CategoryKeys(s[..|s| - 1]);
      var c := s[|s| - 1].categoryId;
      assert forall d :: Occurs(s, d) <==> Occurs(s[..|s| - 1], d) || d == c by {
        forall d ensures Occurs(s, d) <==> Occurs(s[..|s| - 1], d) || d == c {
          if Occurs(s[..|s| - 1], d) {
            var k :| 0 <= k < |s| - 1 && s[..|s| - 1][k].categoryId == d;
            assert s[k] == s[..|s| - 1][k];
          }
          if Occurs(s, d) && d != c {
            var k :| 0 <= k < |s| && s[k].categoryId == d;
            assert s[..|s| - 1][k] == s[k];
          }
        }
      }
      if c in keys then keys else keys + [c]
  }

  /** The first tag of category `c`. */
  function FirstIn(s: seq<Tag>, c: CategoryKey): (t: Tag)
    requires Occurs(s, c)
    ensures t in s && t.categoryId == c
    decreases |s|
  {
    if s[0].categoryId == c then s[0]
    else
      assert Occurs(s[1..], c) by {
        var k :| 0 <= k < |s| && s[k].categoryId == c;
        assert s[1..][k - 1] == s[k];
      }
      FirstIn(s[1..], c)
  }

  /** The group of category `c`: named and ordered by its first tag, holding its tags in order. */
  function GroupFor(s: seq<Tag>, c: CategoryKey): (g: Group)
    requires Occurs(s, c)
  {
    var first := FirstIn(s, c);
    Group(first.categoryName, first.categoryDisplayOrder, Filter(s, InCategory(c)))
  }

  /** `Object.values(map)`: the groups in the order their keys were first inserted. */
  function GroupsInKeyOrder(s: seq<Tag>): (r: seq<Group>)
    ensures |r| == |CategoryKeys(s)|
  {
    var keys := CategoryKeys(s);
    seq(|keys|, i requires 0 <= i < |keys| => GroupFor(s, keys[i]))
  }

  function ByOrder(): (Group, Group) -> bool {
    ByKeyAsc((g: Group) => g.order)
  }

  /** The loop's state after `s`: one entry per key, holding the group of that key. */
  ghost predicate GroupsSoFar(m: map<CategoryKey, Group>, keys: seq<CategoryKey>, s: seq<Tag>) {
    && keys == CategoryKeys(s)
    && (forall c :: c in m <==> c in keys)
    && (forall c :: c in m ==> m[c] == GroupFor(s, c))
  }

  /** `grouped`: the map filled by the loop, read out in key order and sorted by display order. */
  method Grouped(sorted: seq<Tag>) returns (groups: seq<Group>)
    ensures groups == SortBy(GroupsInKeyOrder(sorted), ByOrder())
  {
    var m, keys := Collect(sorted);
    var values := ReadOut(sorted, m, keys);
    SortInPlace(values, ByOrder());
    groups := values[..];
  }

  /** The loop over the tags, each joining the group of its category. */
  method Collect(sorted: seq<Tag>) returns (m: map<CategoryKey, Group>, keys: seq<CategoryKey>)
    ensures GroupsSoFar(m, keys, sorted)
  {
    m, keys := map[], [];
    var i := 0;
    while i < |sorted|
      invariant 0 <= i <= |sorted|
      invariant GroupsSoFar(m, keys, sorted[..i])
    {
      ghost var m0, keys0 := m, keys;
      m, keys := AddTag(m, keys, sorted[i]);
      GroupedStep(sorted, i, m0, keys0, m, keys);
      i := i + 1;
    }
    assert sorted[..|sorted|] == sorted;
  }

  /** One pass of the loop: a group is opened for an unseen category, and the tag joins it. */
  method AddTag(m: map<CategoryKey, Group>, keys: seq<CategoryKey>, tag: Tag)
    returns (m': map<CategoryKey, Group>, keys': seq<CategoryKey>)
    ensures var g := if tag.categoryId in m then m[tag.categoryId] else Group(tag.categoryName, tag.categoryDisplayOrder, []);
            && m' == m[tag.categoryId := g.(tags := g.tags + [tag])]
            && keys' == (if tag.categoryId in m then keys else keys + [tag.categoryId])
  {
    m', keys' := m, keys;
    if tag.categoryId !in m' {
      m' := m'[tag.categoryId := Group(tag.categoryName, tag.categoryDisplayOrder, [])];
      keys' := keys' + [tag.categoryId];
    }
    var g := m'[tag.categoryId];
    m' := m'[tag.categoryId := g.(tags := g.tags + [tag])];
  }

  /** `Object.values(map)` into a new array. */
  method ReadOut(s: seq<Tag>, m: map<CategoryKey, Group>, keys: seq<CategoryKey>) returns (values: array<Group>)
    requires GroupsSoFar(m, keys, s)
    ensures fresh(values) && values[..] == GroupsInKeyOrder(s)
  {
    values := new Group[|keys|];
    forall k | 0 <= k < |keys| {
      values[k] := m[keys[k]];
    }
  }

  lemma GroupedStep(s: seq<Tag>, i: nat, m: map<CategoryKey, Group>, keys: seq<CategoryKey>,
                    m': map<CategoryKey, Group>, keys': seq<CategoryKey>)
    requires i < |s| && GroupsSoFar(m, keys, s[..i])
    requires var t := s[i];
             var g := if t.categoryId in m then m[t.categoryId] else Group(t.categoryName, t.categoryDisplayOrder, []);
             && m' == m[t.categoryId := g.(tags := g.tags + [t])]
             && keys' == (if t.categoryId in m then keys else keys + [t.categoryId])
    ensures GroupsSoFar(m', keys', s[..i + 1])
  {
    GroupedStepKeys(s, i, m, keys, m', keys');
    GroupedStepValues(s, i, m, keys, m');
  }

  /** After one more tag the keys are those of the longer prefix, and so is the map's domain. */
  lemma GroupedStepKeys(s: seq<Tag>, i: nat, m: map<CategoryKey, Group>, keys: seq<CategoryKey>,
                        m': map<CategoryKey, Group>, keys': seq<CategoryKey>)
    requires i < |s| && keys == CategoryKeys(s[..i]) && (forall c :: c in m <==> c in keys)
    requires m'.Keys == m.Keys + {s[i].categoryId}
    requires keys' == (if s[i].categoryId in m then keys else keys + [s[i].categoryId])
    ensures keys' == CategoryKeys(s[..i + 1])
    ensures forall c :: c in m' <==> c in keys'
  {
    var post := s[..i + 1];
    assert post[..|post| - 1] == s[..i] && post[|post| - 1] == s[i];
  }

  /** After one more tag every entry of the map holds the group of the longer prefix. */
  lemma GroupedStepValues(s: seq<Tag>, i: nat, m: map<CategoryKey, Group>, keys: seq<CategoryKey>,
                          m': map<CategoryKey, Group>)
    requires i < |s| && GroupsSoFar(m, keys, s[..i])
    requires var t := s[i];
             var g := if t.categoryId in m then m[t.categoryId] else Group(t.categoryName, t.categoryDisplayOrder, []);
             m' == m[t.categoryId := g.(tags := g.tags + [t])]
    ensures forall c :: c in m' ==> Occurs(s[..i + 1], c) && m'[c] == GroupFor(s[..i + 1], c)
  {
    var pre, t := s[..i], s[i];
    assert s[..i + 1] == pre + [t];
    forall d | d in m' ensures Occurs(pre + [t], d) && m'[d] == GroupFor(pre + [t], d) {
      if d == t.categoryId {
        if d in m {
          GroupJoin(pre, t);
        } else {
          GroupNew(pre, t);
        }
      } else {
        assert m'[d] == m[d];
        GroupOther(pre, t, d);
      }
    }
  }

  /** A tag of an unseen category opens a group named after it, holding just that tag. */
  lemma GroupNew(pre: seq<Tag>, t: Tag)
    requires t.categoryId !in CategoryKeys(pre)
    ensures Occurs(pre + [t], t.categoryId)
    ensures GroupFor(pre + [t], t.categoryId) == Group(t.categoryName, t.categoryDisplayOrder, [t])
  {
    assert forall k :: 0 <= k < |pre| ==> pre[k].categoryId != t.categoryId;
    FirstInAfter(pre, t);
    FilterNone(pre, InCategory(t.categoryId));
    assert (pre + [t])[..|pre|] == pre;
  }

  /** A tag of a category already seen joins the end of that category's group. */
  lemma GroupJoin(pre: seq<Tag>, t: Tag)
    requires t.categoryId in CategoryKeys(pre)
    ensures Occurs(pre, t.categoryId) && Occurs(pre + [t], t.categoryId)
    ensures GroupFor(pre + [t], t.categoryId)
         == GroupFor(pre, t.categoryId).(tags := GroupFor(pre, t.categoryId).tags + [t])
  {
    FirstInPrefix(pre, [t], t.categoryId);
    assert (pre + [t])[..|pre|] == pre;
  }

  /** A tag leaves the group of every other category as it was. */
  lemma GroupOther(pre: seq<Tag>, t: Tag, d: CategoryKey)
    requires d in CategoryKeys(pre) && d != t.categoryId
    ensures Occurs(pre, d) && Occurs(pre + [t], d)
    ensures GroupFor(pre + [t], d) == GroupFor(pre, d)
  {
    FirstInPrefix(pre, [t], d);
    assert (pre + [t])[..|pre|] == pre;
  }

  lemma {:induction false} FirstInPrefix(a: seq<Tag>, b: seq<Tag>, c: CategoryKey)
    requires Occurs(a, c)
    ensures Occurs(a + b, c)
    ensures FirstIn(a + b, c) == FirstIn(a, c)
    decreases |a|
  {
    var k :| 0 <= k < |a| && a[k].categoryId == c;
    assert (a + b)[k] == a[k];
    if a[0].categoryId != c {
      assert a[1..][k - 1] == a[k];
      assert (a + b)[1..] == a[1..] + b;
      FirstInPrefix(a[1..], b, c);
    }
  }

  lemma {:induction false} FirstInAfter(a: seq<Tag>, t: Tag)
    requires forall k :: 0 <= k < |a| ==> a[k].categoryId != t.categoryId
    ensures Occurs(a + [t], t.categoryId)
    ensures FirstIn(a + [t], t.categoryId) == t
    decreases |a|
  {
    assert (a + [t])[|a|] == t;
    if a != [] {
      assert (a + [t])[1..] == a[1..] + [t];
      FirstInAfter(a[1..], t);
    }
  }

  /**
    * Every tag lands in exactly one group: the one of its own category, whose tags are
    * exactly the tags of that category in sorted order.
    */
  lemma GroupsPartition(s: seq<Tag>, k: nat)
    requires k < |s|
    ensures var g := GroupsInKeyOrder(s);
            && (exists i :: 0 <= i < |g| && s[k] in g[i].tags)
            && (forall i, j :: 0 <= i < |g| && 0 <= j < |g| && s[k] in g[i].tags && s[k] in g[j].tags ==> i == j)
  {
    var g := GroupsInKeyOrder(s);
    var keys := CategoryKeys(s);
    assert s[k].categoryId in keys;
    var i :| 0 <= i < |keys| && keys[i] == s[k].categoryId;
    assert InCategory(keys[i])(s[k]);
    assert s[k] in g[i].tags;
    forall i, j | 0 <= i < |g| && 0 <= j < |g| && s[k] in g[i].tags && s[k] in g[j].tags
      ensures i == j
    {
      var a :| 0 <= a < |g[i].tags| && g[i].tags[a] == s[k];
      var b :| 0 <= b < |g[j].tags| && g[j].tags[b] == s[k];
      assert InCategory(keys[i])(g[i].tags[a]);
      assert InCategory(keys[j])(g[j].tags[b]);
    }
  }

  /** The groups come out in ascending display order, and none is lost or duplicated. */
  lemma GroupedOrder(s: seq<Tag>)
    ensures var r := SortBy(GroupsInKeyOrder(s), ByOrder());
            && multiset(r) == multiset(GroupsInKeyOrder(s))
            && forall i, j :: 0 <= i < j < |r| ==> r[i].order <= r[j].order
  {
    ByKeyAscWeakOrder((g: Group) => g.order);
    SortByPermutes(GroupsInKeyOrder(s), ByOrder());
    SortBySorted(GroupsInKeyOrder(s), ByOrder());
  }

  // ------------------------------------------------------------ updates

  /** `handleVote`: the tag with this id takes the settled score and value. */
  function ApplyVote(tags: seq<Tag>, tagId: string, newScore: int, newValue: int): (r: seq<Tag>)
    ensures |r| == |tags|
    ensures forall i :: 0 <= i < |tags| ==> r[i].id == tags[i].id && r[i].name == tags[i].name
    ensures forall i :: 0 <= i < |tags| && tags[i].id != tagId ==> r[i] == tags[i]
    ensures forall i :: 0 <= i < |tags| && tags[i].id == tagId ==>
      r[i].score == newScore && r[i].userValue == newValue && r[i].(score := tags[i].score, userValue := tags[i].userValue) == tags[i]
  {
    seq(|tags|, i requires 0 <= i < |tags| =>
      if tags[i].id == tagId then tags[i].(score := newScore, userValue := newValue) else tags[i])
  }

  /** Applying the same settled vote twice is the same as applying it once. */
  lemma ApplyVoteIdempotent(tags: seq<Tag>, tagId: string, newScore: int, newValue: int)
    ensures ApplyVote(ApplyVote(tags, tagId, newScore, newValue), tagId, newScore, newValue)
         == ApplyVote(tags, tagId, newScore, newValue)
  {
  }

  predicate HasId(tags: seq<Tag>, id: string) {
    exists i :: 0 <= i < |tags| && tags[i].id == id
  }

  predicate UniqueIds(tags: seq<Tag>) {
    forall i, j :: 0 <= i < j < |tags| ==> tags[i].id != tags[j].id
  }

  /** `handleAddTag`: replace the tag with the same id, or append the new one. */
  function AddOrReplace(tags: seq<Tag>, newTag: Tag): (r: seq<Tag>)
    ensures HasId(tags, newTag.id) ==> |r| == |tags|
    ensures !HasId(tags, newTag.id) ==> r == tags + [newTag]
    ensures HasId(tags, newTag.id) ==> forall i :: 0 <= i < |tags| ==>
      r[i] == (if tags[i].id == newTag.id then newTag else tags[i])
  {
    if HasId(tags, newTag.id) then
      seq(|tags|, i requires 0 <= i < |tags| => if tags[i].id == newTag.id then newTag else tags[i])
    else tags + [newTag]
  }

  /**
    * After an add the new tag is present, the list grew by at most one, and a list
    * without duplicate ids still has none.
    */
  lemma AddOrReplaceKeepsIdsUnique(tags: seq<Tag>, newTag: Tag)
    requires UniqueIds(tags)
    ensures var r := AddOrReplace(tags, newTag);
            && UniqueIds(r) && newTag in r && |tags| <= |r| <= |tags| + 1
  {
    var r := AddOrReplace(tags, newTag);
    if HasId(tags, newTag.id) {
      var k :| 0 <= k < |tags| && tags[k].id == newTag.id;
      assert r[k] == newTag;
    } else {
      assert r[|tags|] == newTag;
    }
  }

  /** Adding the same tag twice leaves the list as adding it once. */
  lemma AddOrReplaceIdempotent(tags: seq<Tag>, newTag: Tag)
    ensures AddOrReplace(AddOrReplace(tags, newTag), newTag) == AddOrReplace(tags, newTag)
  {
    var r := AddOrReplace(tags, newTag);
    if !HasId(tags, newTag.id) {
      assert r[|tags|].id == newTag.id;
    } else {
      var k :| 0 <= k < |tags| && tags[k].id == newTag.id;
      assert r[k].id == newTag.id;
    }
  }

  /** `capitalizeFirstLetter`: the first character upper-cased, the rest as it was. */
  function Capitalize(s: string): (r: string)
    ensures |r| == |s| && (s != [] ==> r[1..] == s[1..])
    ensures s != [] ==> (IsLower(s[0]) ==> IsUpper(r[0])) && (!IsLower(s[0]) ==> r[0] == s[0])
  {
    if s == [] then [] else [UpperChar(s[0])] + s[1..]
  }

  /** Capitalising twice changes nothing more. */
  lemma CapitalizeIdempotent(s: string)
    ensures Capitalize(Capitalize(s)) == Capitalize(s)
  {
  }
}
