/**
  * `POST /api/tags/propose`: a signed-in user suggests a new tag. The name is checked
  * (trimmed, 2 to 40 characters, letters, digits, white space and hyphens only), then
  * stored lower-cased and trimmed in `tag_proposals` for a moderator to review.
  */
module TagPropose {
  import opened Wrappers
  import opened Http
  import opened Text

  type UserId = string

  const RequiredMessage := "Tag name is required."
  const TooShortMessage := "Tag name must be at least 2 characters."
  const TooLongMessage := "Tag name must be under 40 characters."
  const CharactersMessage := "Only letters, numbers, spaces, and hyphens are allowed."

  /** One character of the class `[a-zA-Z0-9\s-]`. */
  predicate AllowedChar(c: char) {
    IsUpper(c) || IsLower(c) || IsDigit(c) || IsSpace(c) || c == '-'
  }

  predicate AllAllowed(s: string) {
    forall i :: 0 <= i < |s| ==> AllowedChar(s[i])
  }

  /** A name the validator accepts: trimmed, it is 2 to 40 allowed characters. */
  predicate GoodName(name: string) {
    var t := Trim(name);
    2 <= |t| <= 40 && AllAllowed(t)
  }

  /**
    * The validator, shared word for word by the route and the proposal form: the
    * message of the first check the trimmed name fails, or `None`.
    */
  function ValidateTagName(name: string): (r: Option<string>)
    ensures r.None? <==> GoodName(name)
    ensures r == Some(RequiredMessage) <==> IsBlank(name)
    ensures r == Some(TooShortMessage) <==> |Trim(name)| == 1
    ensures r == Some(TooLongMessage) <==> |Trim(name)| > 40
    ensures r == Some(CharactersMessage) <==> 2 <= |Trim(name)| <= 40 && !AllAllowed(Trim(name))
  {
    TrimEmptyIffBlank(name);
    var trimmed := Trim(name);
    if trimmed == [] then Some(RequiredMessage)
    else if |trimmed| < 2 then Some(TooShortMessage)
    else if |trimmed| > 40 then Some(TooLongMessage)
    else if !AllAllowed(trimmed) then Some(CharactersMessage)
    else None
  }

  /** The name as stored: `name.toLowerCase().trim()`. */
  function StoredName(name: string): string {
    Trim(Lower(name))
  }

  /** A row of `tag_proposals`; the store gives it the status "pending". */
  datatype Proposal = Proposal(name: string, categoryId: Option<string>, description: Option<string>, userId: UserId)

  /** The `tag_proposals` table. */
  class ProposalTable {
    var rows: seq<Proposal>

    constructor ()
      ensures rows == []
    {
      rows := [];
    }
  }

  /**
    * The handler. `user` is the signed-in user, `insertError` the message the store
    * reports for the insert, if any.
    */
  method Post(table: ProposalTable, user: Option<UserId>, name: string, categoryId: Option<string>,
              description: Option<string>, insertError: Option<string>)
    returns (resp: Response<bool>)
    modifies table
    ensures user.None? ==> resp == Fail(401, "Unauthorized") && table.rows == old(table.rows)
    ensures user.Some? && !GoodName(name) ==>
      resp == Fail(400, ValidateTagName(name).value) && table.rows == old(table.rows)
    ensures user.Some? && GoodName(name) && insertError.Some? ==>
      resp == Fail(500, insertError.value) && table.rows == old(table.rows)
    ensures user.Some? && GoodName(name) && insertError.None? ==>
      && resp == Ok(true)
      && table.rows == old(table.rows) + [Proposal(StoredName(name), categoryId, description, user.value)]
  {
    if user.None? {
      return Fail(401, "Unauthorized");
    }
    var validationError := ValidateTagName(name);
    if validationError.Some? {
      return Fail(400, validationError.value);
    }
    if insertError.Some? {
      return Fail(500, insertError.value);
    }
    table.rows := table.rows + [Proposal(StoredName(name), categoryId, description, user.value)];
    return Ok(true);
  }

  /** Lowering keeps every character allowed or not allowed. */
  lemma LowerAllAllowed(s: string)
    ensures AllAllowed(Lower(s)) <==> AllAllowed(s)
  {
    var l := Lower(s);
    assert forall i :: 0 <= i < |s| ==> (AllowedChar(l[i]) <==> AllowedChar(s[i]));
  }

  /** The stored name is the trimmed name lowered, so it is as long as the trimmed name. */
  lemma StoredNameIsTrimmedLowered(name: string)
    ensures StoredName(name) == Lower(Trim(name))
    ensures |StoredName(name)| == |Trim(name)|
  {
    LowerTrimCommute(name);
  }

  /** An accepted name lowered and trimmed still passes the validator. */
  lemma LoweredTrimmedValid(name: string)
    requires GoodName(name)
    ensures GoodName(Lower(Trim(name)))
  {
    var t := Trim(name);
    LowerOfTrimmed(t);
    LowerAllAllowed(t);
  }

  /** The stored form of an accepted name has no upper-case letter and passes the validator itself. */
  lemma StoredNameValid(name: string)
    requires GoodName(name)
    ensures forall i :: 0 <= i < |StoredName(name)| ==> !IsUpper(StoredName(name)[i])
    ensures ValidateTagName(StoredName(name)).None?
  {
    StoredNameIsTrimmedLowered(name);
    LoweredTrimmedValid(name);
    LowerHasNoUpper(Trim(name));
  }

  /** Storing a stored name again changes nothing. */
  lemma StoredNameIdempotent(name: string)
    ensures StoredName(StoredName(name)) == StoredName(name)
  {
    LowerTrimCommute(name);
    var t := Trim(name);
    var s := Lower(t);
    LowerOfTrimmed(t);
    LowerIdempotent(t);
    assert StoredName(s) == Trim(Lower(s)) == Trim(s) == s;
  }
}
