/**
  * The include and exclude tag lists that the explore page and the my-books page keep
  * for their filters. Both pages add a tag to one list after removing it from the
  * other, and remove a tag from a list by id.
  */
module TagFilters {
  import opened Wrappers
  import opened Text
  import opened UrlParams

  type TagId = string

  /** A chosen tag, `{id, name}`. */
  datatype SelectedTag = SelectedTag(id: TagId, name: string)

  function Ids(tags: seq<SelectedTag>): (r: seq<TagId>)
    ensures |r| == |tags|
    ensures forall i :: 0 <= i < |r| ==> r[i] == tags[i].id
  {
    seq(|tags|, i requires 0 <= i < |tags| => tags[i].id)
  }

  predicate HasId(tags: seq<SelectedTag>, id: TagId) {
    exists i :: 0 <= i < |tags| && tags[i].id == id
  }

  /** `prev.filter((t) => t.id !== id)`. */
  function WithoutId(tags: seq<SelectedTag>, id: TagId): (r: seq<SelectedTag>)
    ensures |r| <= |tags|
    ensures !HasId(r, id)
    ensures forall t :: t in r <==> t in tags && t.id != id
  {
    if tags == [] then []
    else
      var rest := WithoutId(tags[1..], id);
      assert forall t :: t in tags <==> t == tags[0] || t in tags[1..];
      if tags[0].id == id then rest else [tags[0]] + rest
  }

  /** No tag id is in both lists. */
  predicate Disjoint(includeTags: seq<SelectedTag>, excludeTags: seq<SelectedTag>) {
    forall i, j :: 0 <= i < |includeTags| && 0 <= j < |excludeTags| ==> includeTags[i].id != excludeTags[j].id
  }

  lemma DisjointSymmetric(a: seq<SelectedTag>, b: seq<SelectedTag>)
    requires Disjoint(a, b)
    ensures Disjoint(b, a)
  {
  }

  /** A tag added to one list: appended there, and every tag with its id removed from the other. */
  function AddTo(list: seq<SelectedTag>, other: seq<SelectedTag>, tag: SelectedTag): (r: (seq<SelectedTag>, seq<SelectedTag>))
    ensures r.0 == list + [tag] && r.1 == WithoutId(other, tag.id)
  {
    (list + [tag], WithoutId(other, tag.id))
  }

  /**
    * Adding a tag to either list keeps lists that were disjoint disjoint, and the tag
    * ends up in the list it was added to and not in the other.
    */
  lemma AddKeepsDisjoint(list: seq<SelectedTag>, other: seq<SelectedTag>, tag: SelectedTag)
    requires Disjoint(list, other)
    ensures var (l, o) := AddTo(list, other, tag);
      Disjoint(l, o) && Disjoint(o, l) && tag in l && !HasId(o, tag.id)
  {
    var (l, o) := AddTo(list, other, tag);
    forall i, j | 0 <= i < |l| && 0 <= j < |o| ensures l[i].id != o[j].id {
      assert o[j] in other;
      if i < |list| {
        var k :| 0 <= k < |other| && other[k] == o[j];
      }
    }
  }

  /** Removing from one list keeps disjoint lists disjoint. */
  lemma RemoveKeepsDisjoint(includeTags: seq<SelectedTag>, excludeTags: seq<SelectedTag>, id: TagId)
    requires Disjoint(includeTags, excludeTags)
    ensures Disjoint(WithoutId(includeTags, id), excludeTags) && Disjoint(includeTags, WithoutId(excludeTags, id))
  {
    var inc := WithoutId(includeTags, id);
    var exc := WithoutId(excludeTags, id);
    forall i, j | 0 <= i < |inc| && 0 <= j < |excludeTags| ensures inc[i].id != excludeTags[j].id {
      assert inc[i] in includeTags;
    }
    forall i, j | 0 <= i < |includeTags| && 0 <= j < |exc| ensures includeTags[i].id != exc[j].id {
      assert exc[j] in excludeTags;
    }
  }

  /**
    * The value of an `include`/`exclude` query parameter: the ids joined with commas,
    * or nothing for an empty list.
    */
  function IdParam(tags: seq<SelectedTag>): (r: Option<string>)
    ensures r.None? <==> tags == []
  {
    if |tags| > 0 then Some(Join(Ids(tags), ",")) else None
  }

  /**
    * The filter part of a list query, shared by both pages: each tag list only when
    * non-empty and each year only when filled in; every other key keeps its value.
    */
  method SetFilters(p: SearchParams, includeTags: seq<SelectedTag>, excludeTags: seq<SelectedTag>,
                    yearFrom: string, yearTo: string)
    requires Get(p.values, "include").None? && Get(p.values, "exclude").None?
    requires Get(p.values, "yearFrom").None? && Get(p.values, "yearTo").None?
    modifies p
    ensures Get(p.values, "include") == IdParam(includeTags)
    ensures Get(p.values, "exclude") == IdParam(excludeTags)
    ensures Get(p.values, "yearFrom") == IfSet(yearFrom)
    ensures Get(p.values, "yearTo") == IfSet(yearTo)
    ensures forall k :: k !in {"include", "exclude", "yearFrom", "yearTo"} ==> Get(p.values, k) == Get(old(p.values), k)
    ensures p.values.Keys <= old(p.values.Keys) + {"include", "exclude", "yearFrom", "yearTo"}
  {
    if |includeTags| > 0 {
      p.Set("include", Join(Ids(includeTags), ","));
    }
    if |excludeTags| > 0 {
      p.Set("exclude", Join(Ids(excludeTags), ","));
    }
    if yearFrom != "" {
      p.Set("yearFrom", yearFrom);
    }
    if yearTo != "" {
      p.Set("yearTo", yearTo);
    }
  }
}
