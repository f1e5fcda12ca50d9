/**
  * The tag picker of the two filter panels (`TagFilterInput`): a query box whose
  * search offers the matching tags that are not already chosen, and a dropdown. The
  * debounced search is modelled in two steps, `StartSearch` when the timer fires and
  * `SearchSettled` with the outcome of `GET /api/tags/search`.
  */
module TagFilterInput {
  import opened Wrappers
  import opened Text
  import opened TagFilters

  /** A hit of the tag search: id, name and the name of its category, if any. */
  datatype TagSuggestion = TagSuggestion(id: TagId, name: string, category: Option<string>)

  /**
    * The hits whose id is not among the chosen tags, in the search's order: a hit is
    * kept exactly when no chosen tag has its id.
    */
  function Unselected(hits: seq<TagSuggestion>, selected: seq<SelectedTag>): (r: seq<TagSuggestion>)
    ensures |r| <= |hits|
    ensures forall t :: t in r <==> t in hits && !HasId(selected, t.id)
    ensures forall i :: 0 <= i < |r| ==> !HasId(selected, r[i].id)
  {
    if hits == [] then []
    else
      var rest := Unselected(hits[1..], selected);
      assert forall t :: t in hits <==> t == hits[0] || t in hits[1..];
      if HasId(selected, hits[0].id) then rest else [hits[0]] + rest
  }

  /**
    * Filtering keeps the search's order: the unchosen hits of two runs of hits are those
    * of the first run followed by those of the second.
    */
  lemma {:induction false} UnselectedAppend(a: seq<TagSuggestion>, b: seq<TagSuggestion>, selected: seq<SelectedTag>)
    ensures Unselected(a + b, selected) == Unselected(a, selected) + Unselected(b, selected)
  {
    if a == [] {
      assert a + b == b;
    } else {
      assert (a + b)[1..] == a[1..] + b;
      UnselectedAppend(a[1..], b, selected);
    }
  }

  class TagFilterBox {
    var query: string
    var suggestions: seq<TagSuggestion>
    var isLoading: bool
    var showDropdown: bool

    constructor ()
      ensures query == "" && suggestions == [] && !isLoading && !showDropdown
    {
      query := "";
      suggestions := [];
      isLoading := false;
      showDropdown := false;
    }

    /** The dropdown is drawn while open and either the raw query has two characters or a search runs. */
    predicate DropdownVisible()
      reads this
    {
      showDropdown && (|query| >= 2 || isLoading)
    }

    /** "No matching tags" is drawn in a visible dropdown with no search running and nothing to offer. */
    predicate NoMatchShown()
      reads this
    {
      DropdownVisible() && !isLoading && suggestions == [] && |query| >= 2
    }

    /** Typing: the query becomes the new text and the dropdown opens. */
    method Type(text: string)
      modifies this
      ensures query == text && showDropdown
      ensures suggestions == old(suggestions) && isLoading == old(isLoading)
    {
      query := text;
      showDropdown := true;
    }

    /** Focusing the box opens the dropdown. */
    method Focus()
      modifies this
      ensures showDropdown
      ensures query == old(query) && suggestions == old(suggestions) && isLoading == old(isLoading)
    {
      showDropdown := true;
    }

    /** A click outside the box closes the dropdown. */
    method ClickOutside()
      modifies this
      ensures !showDropdown && !DropdownVisible()
      ensures query == old(query) && suggestions == old(suggestions) && isLoading == old(isLoading)
    {
      showDropdown := false;
    }

    /**
      * The search effect: a query shorter than two characters once trimmed clears the
      * suggestions and sends nothing; otherwise the untrimmed query is sent.
      */
    method StartSearch() returns (request: Option<string>)
      modifies this
      ensures request.None? <==> |Trim(query)| < 2
      ensures request.None? ==> suggestions == [] && isLoading == old(isLoading)
      ensures request.Some? ==> request.value == query && isLoading && suggestions == old(suggestions)
      ensures query == old(query) && showDropdown == old(showDropdown)
    {
      var short := |Trim(query)| < 2;
      if short {
        suggestions := [];
        request := None;
      } else {
        isLoading := true;
        request := Some(query);
      }
    }

    /**
      * The search's outcome: the hits not already chosen, or nothing when the search
      * failed. Either way no suggestion has the id of a chosen tag.
      */
    method SearchSettled(result: Option<seq<TagSuggestion>>, selectedTags: seq<SelectedTag>)
      modifies this
      ensures result.Some? ==> suggestions == Unselected(result.value, selectedTags)
      ensures result.None? ==> suggestions == []
      ensures forall i :: 0 <= i < |suggestions| ==> !HasId(selectedTags, suggestions[i].id)
      ensures !isLoading
      ensures query == old(query) && showDropdown == old(showDropdown)
    {
      if result.Some? {
        suggestions := Unselected(result.value, selectedTags);
      } else {
        suggestions := [];
      }
      isLoading := false;
    }

    /** Picking a hit: it is handed on as `{id, name}`, and the box is cleared and closed. */
    method HandleSelect(tag: TagSuggestion) returns (added: SelectedTag)
      modifies this
      ensures added == SelectedTag(tag.id, tag.name)
      ensures query == "" && suggestions == [] && !showDropdown && !DropdownVisible()
      ensures isLoading == old(isLoading)
    {
      added := SelectedTag(tag.id, tag.name);
      query := "";
      suggestions := [];
      showDropdown := false;
    }
  }
}
