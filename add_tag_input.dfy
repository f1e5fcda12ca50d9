/**
  * The tag box of a book page (`AddTagInput`): the user picks a suggested tag, which is
  * added to the book through `POST /api/tags/add`, or proposes a new one through
  * `POST /api/tags/propose`. The proposal dialog checks the name with the same
  * validator as the route before it sends anything, and preselects a category.
  * Each handler that waits for a response is modelled with that response as a parameter.
  */
module AddTagInput {
  import opened Wrappers
  import opened Http
  import opened BookTags
  import opened AddTagRoute
  import opened TagPropose

  /** A row of `tag_categories`. */
  datatype Category = Category(id: string, name: string, displayOrder: int)

  /** A tag from the search endpoint. */
  datatype Suggestion = Suggestion(id: TagId, name: string, description: Option<string>, categoryId: string)

  /** The body sent to `/api/tags/add`. */
  datatype AddRequest = AddRequest(bookId: BookId, tagId: TagId)

  /** The body sent to `/api/tags/propose`. */
  datatype ProposeRequest = ProposeRequest(name: string, categoryId: string, description: string)

  const DefaultCategoryName := "themes"
  const SubmitFailedMessage := "Failed to submit tag."
  const SubmittedMessage := "Tag proposal submitted for review!"

  /** `categories.find((c) => c.name === name)`, as the index of the first match. */
  function FindByName(categories: seq<Category>, name: string): (r: Option<nat>)
    ensures r.Some? ==> r.value < |categories| && categories[r.value].name == name
    ensures r.Some? ==> forall j :: 0 <= j < r.value ==> categories[j].name != name
    ensures r.None? <==> forall j :: 0 <= j < |categories| ==> categories[j].name != name
  {
    if categories == [] then None
    else if categories[0].name == name then Some(0)
    else
      var rest := FindByName(categories[1..], name);
      assert forall j :: 1 <= j < |categories| ==> categories[j] == categories[1..][j - 1];
      if rest.Some? then Some(rest.value + 1) else None
  }

  /**
    * The category preselected in the proposal dialog: the first one named "themes",
    * unless there is none or its id is empty, and then the first category.
    */
  function DefaultCategory(categories: seq<Category>): (r: string)
    requires |categories| > 0
  {
    var found := FindByName(categories, DefaultCategoryName);
    if found.Some? && categories[found.value].id != "" then categories[found.value].id else categories[0].id
  }

  /**
    * The default is always the id of a listed category; it is that of the first
    * "themes" category when there is one with a non-empty id, and the first category's
    * id when no category is named "themes".
    */
  lemma DefaultCategoryChoice(categories: seq<Category>)
    requires |categories| > 0
    ensures exists i :: 0 <= i < |categories| && categories[i].id == DefaultCategory(categories)
    ensures forall i ::
      (&& 0 <= i < |categories| && categories[i].name == DefaultCategoryName && categories[i].id != ""
       && (forall j :: 0 <= j < i ==> categories[j].name != DefaultCategoryName)) ==>
      DefaultCategory(categories) == categories[i].id
    ensures (forall i :: 0 <= i < |categories| ==> categories[i].name != DefaultCategoryName) ==>
      DefaultCategory(categories) == categories[0].id
  {
    var found := FindByName(categories, DefaultCategoryName);
    if found.Some? && categories[found.value].id != "" {
      assert categories[found.value].id == DefaultCategory(categories);
    } else {
      assert categories[0].id == DefaultCategory(categories);
    }
  }

  class TagBox {
    const bookId: BookId
    var query: string
    var suggestions: seq<Suggestion>
    var showPropose: bool
    var newTagName: string
    var selectedCategoryId: string
    var newTagDescription: string
    var nameError: Option<string>
    var message: Option<string>
    var categories: seq<Category>

    constructor (bookId: BookId)
      ensures this.bookId == bookId && query == "" && suggestions == [] && !showPropose
      ensures newTagName == "" && selectedCategoryId == "" && newTagDescription == ""
      ensures nameError.None? && message.None? && categories == []
    {
      this.bookId := bookId;
      query := "";
      suggestions := [];
      showPropose := false;
      newTagName := "";
      selectedCategoryId := "";
      newTagDescription := "";
      nameError := None;
      message := None;
      categories := [];
    }

    /**
      * The category fetch (`None` when it fails, which empties the list), followed by the
      * effect that preselects a category when none is selected yet.
      */
    method FetchCategories(fetched: Option<seq<Category>>)
      modifies this
      ensures categories == (if fetched.Some? then fetched.value else [])
      ensures selectedCategoryId ==
        (if |categories| > 0 && old(selectedCategoryId) == "" then DefaultCategory(categories)
         else old(selectedCategoryId))
      ensures query == old(query) && suggestions == old(suggestions) && showPropose == old(showPropose)
      ensures newTagName == old(newTagName) && newTagDescription == old(newTagDescription)
      ensures nameError == old(nameError) && message == old(message)
    {
      categories := if fetched.Some? then fetched.value else [];
      if |categories| > 0 && selectedCategoryId == "" {
        selectedCategoryId := DefaultCategory(categories);
      }
    }

    /**
      * Picking a suggestion sends its id; on success the returned tag is handed to the
      * page (`onTagAdded`) and the query and suggestions are cleared, on failure nothing
      * changes.
      */
    method HandleSelect(tag: Suggestion, response: Response<BookTagWithVotes>)
      returns (request: AddRequest, added: Option<BookTagWithVotes>)
      modifies this
      ensures request == AddRequest(bookId, tag.id)
      ensures response.Ok? ==> added == Some(response.body) && query == "" && suggestions == []
      ensures response.Fail? ==> added.None? && query == old(query) && suggestions == old(suggestions)
      ensures showPropose == old(showPropose) && newTagName == old(newTagName)
      ensures selectedCategoryId == old(selectedCategoryId) && newTagDescription == old(newTagDescription)
      ensures nameError == old(nameError) && message == old(message) && categories == old(categories)
    {
      request := AddRequest(bookId, tag.id);
      if response.Ok? {
        added := Some(response.body);
        query := "";
        suggestions := [];
      } else {
        added := None;
      }
    }

    /** Opening the proposal dialog starts from the search text and an empty description. */
    method OpenProposeModal()
      modifies this
      ensures newTagName == old(query) && newTagDescription == "" && showPropose
      ensures query == old(query) && suggestions == old(suggestions)
      ensures selectedCategoryId == old(selectedCategoryId)
      ensures nameError == old(nameError) && message == old(message) && categories == old(categories)
    {
      newTagName := query;
      newTagDescription := "";
      showPropose := true;
    }

    /**
      * The submit button, up to the moment the request is sent: a name the validator
      * rejects shows its message and sends nothing; otherwise the request carries the
      * name as typed, the selected category and the description. A request that is sent
      * always carries a name the route accepts.
      */
    method SubmitNewTag() returns (request: Option<ProposeRequest>)
      modifies this
      ensures ValidateTagName(newTagName).Some? ==>
        request.None? && nameError == ValidateTagName(newTagName)
      ensures ValidateTagName(newTagName).None? ==>
        && request == Some(ProposeRequest(newTagName, selectedCategoryId, newTagDescription))
        && nameError == old(nameError)
      ensures request.Some? ==> GoodName(request.value.name)
      ensures query == old(query) && suggestions == old(suggestions) && showPropose == old(showPropose)
      ensures newTagName == old(newTagName) && newTagDescription == old(newTagDescription)
      ensures selectedCategoryId == old(selectedCategoryId)
      ensures message == old(message) && categories == old(categories)
    {
      var error := ValidateTagName(newTagName);
      if error.Some? {
        nameError := error;
        return None;
      }
      return Some(ProposeRequest(newTagName, selectedCategoryId, newTagDescription));
    }

    /**
      * The proposal's response: a failure shows the route's error, or a fixed message
      * when it has none; a success closes the dialog, clears the search and says so.
      */
    method SubmitSettled(response: Response<bool>)
      modifies this
      ensures response.Fail? ==>
        && nameError == Some(if response.error != "" then response.error else SubmitFailedMessage)
        && showPropose == old(showPropose) && query == old(query) && suggestions == old(suggestions)
        && message == old(message)
      ensures response.Ok? ==>
        && !showPropose && query == "" && suggestions == [] && message == Some(SubmittedMessage)
        && nameError == old(nameError)
      ensures newTagName == old(newTagName) && newTagDescription == old(newTagDescription)
      ensures selectedCategoryId == old(selectedCategoryId) && categories == old(categories)
    {
      if response.Fail? {
        nameError := Some(if response.error != "" then response.error else SubmitFailedMessage);
        return;
      }
      showPropose := false;
      query := "";
      suggestions := [];
      message := Some(SubmittedMessage);
    }
  }

  /**
    * Every message of the validator is non-empty, so a 400 from the route shows the
    * route's own message in the dialog, never the fixed fallback.
    */
  lemma RejectionShowsRouteMessage(name: string)
    requires !GoodName(name)
    ensures ValidateTagName(name).Some? && ValidateTagName(name).value != ""
    ensures ValidateTagName(name).value != SubmitFailedMessage
  {
  }
}
