/**
  * `PATCH /api/account`: the signed-in user changes any of username, email and
  * password. The fields present in the body are handled in that order; each is checked
  * and written before the next is looked at, and the first failure answers at once,
  * leaving the writes already made in place.
  */
module Account {
  import opened Wrappers
  import opened Http
  import opened Text

  type UserId = string

  const UsernameMessage := "Username must be between 2 and 30 characters"
  const TakenMessage := "Username already taken"
  const PasswordMessage := "Password must be at least 6 characters"
  /** The Postgres code of a unique-constraint violation. */
  const UniqueViolation := "23505"

  /** An error as the store reports it. */
  datatype DbError = DbError(code: string, message: string)

  /** The account data the route writes: usernames in `profiles`, emails and passwords in the auth service. */
  datatype Accounts = Accounts(profiles: map<UserId, string>, emails: map<UserId, string>, passwords: map<UserId, string>)

  predicate UsernameAccepted(username: string) {
    2 <= |Trim(username)| <= 30
  }

  predicate PasswordAccepted(password: string) {
    |password| >= 6
  }

  /** The stored form of an email: `email.trim().toLowerCase()`. */
  function NormalEmail(email: string): string {
    Lower(Trim(email))
  }

  /** The answer to a failed profile update: 409 for a taken username, 500 otherwise. */
  function ProfileFailure(e: DbError): (r: Response<bool>)
    ensures r.Fail? && (r.status == 409 <==> e.code == UniqueViolation)
    ensures r.status == 409 ==> r.error == TakenMessage
    ensures r.status != 409 ==> r.status == 500 && r.error == e.message
  {
    if e.code == UniqueViolation then Fail(409, TakenMessage) else Fail(500, e.message)
  }

  /** `update(...).eq("id", user)`: changes the user's row and adds none when it is missing. */
  function UpdateRow(rows: map<UserId, string>, user: UserId, value: string): (r: map<UserId, string>)
    ensures r.Keys == rows.Keys
    ensures user in rows ==> r[user] == value
    ensures forall u :: u in rows && u != user ==> r[u] == rows[u]
  {
    if user in rows then rows[user := value] else rows
  }

  /** The username step succeeds: it is absent, or accepted and stored without error. */
  predicate UsernameStepOk(username: Option<string>, usernameError: Option<DbError>) {
    username.None? || (UsernameAccepted(username.value) && usernameError.None?)
  }

  /** The email step succeeds: it is absent, or the auth service takes it. */
  predicate EmailStepOk(email: Option<string>, emailError: Option<string>) {
    email.None? || emailError.None?
  }

  /** A username as the route stores it: 2 to 30 characters, no white space at either end. */
  predicate StoredUsername(name: string) {
    2 <= |name| <= 30 && !IsSpace(name[0]) && !IsSpace(name[|name| - 1])
  }

  /** An email as the route stores it: no white space at either end and no upper-case letter. */
  predicate StoredEmail(email: string) {
    && (email != [] ==> !IsSpace(email[0]) && !IsSpace(email[|email| - 1]))
    && forall i :: 0 <= i < |email| ==> !IsUpper(email[i])
  }

  /**
    * What the route keeps true of every account it writes: usernames trimmed and 2 to 30
    * long, emails trimmed and lower-case, passwords at least 6 long.
    */
  predicate GoodProfiles(profiles: map<UserId, string>) {
    forall u :: u in profiles ==> StoredUsername(profiles[u])
  }

  predicate GoodEmails(emails: map<UserId, string>) {
    forall u :: u in emails ==> StoredEmail(emails[u])
  }

  predicate GoodPasswords(passwords: map<UserId, string>) {
    forall u :: u in passwords ==> PasswordAccepted(passwords[u])
  }

  predicate Good(a: Accounts) {
    GoodProfiles(a.profiles) && GoodEmails(a.emails) && GoodPasswords(a.passwords)
  }

  /** Writing a stored username keeps every profile good. */
  lemma UpdateRowKeepsGood(profiles: map<UserId, string>, user: UserId, username: string)
    requires StoredUsername(username)
    ensures GoodProfiles(profiles) ==> GoodProfiles(UpdateRow(profiles, user, username))
  {
  }

  /** A stored username is accepted and is its own trimmed form. */
  lemma StoredUsernameFixed(name: string)
    requires StoredUsername(name)
    ensures Trim(name) == name && UsernameAccepted(name)
  {
    TrimStartOfTrimmed(name);
    TrimEndOfTrimmed(name);
  }

  /** A stored email is its own normal form. */
  lemma StoredEmailFixed(email: string)
    requires StoredEmail(email)
    ensures NormalEmail(email) == email
  {
    TrimStartOfTrimmed(email);
    TrimEndOfTrimmed(email);
    assert forall i :: 0 <= i < |email| ==> Lower(email)[i] == email[i];
  }

  /** The normal form of any email is a stored email. */
  lemma NormalEmailStored(email: string)
    ensures StoredEmail(NormalEmail(email))
  {
    var t := Trim(email);
    LowerHasNoUpper(t);
    var n := Lower(t);
    if n != [] {
      assert n[0] == LowerChar(t[0]) && n[|n| - 1] == LowerChar(t[|t| - 1]);
    }
  }

  /** Normalising an email twice is normalising it once. */
  lemma NormalEmailIdempotent(email: string)
    ensures NormalEmail(NormalEmail(email)) == NormalEmail(email)
  {
    NormalEmailStored(email);
    StoredEmailFixed(NormalEmail(email));
  }

  class AccountStore {
    var profiles: map<UserId, string>
    var emails: map<UserId, string>
    var passwords: map<UserId, string>

    function Snapshot(): Accounts
      reads this
    {
      Accounts(profiles, emails, passwords)
    }

    constructor (initial: Accounts)
      ensures Snapshot() == initial
    {
      profiles := initial.profiles;
      emails := initial.emails;
      passwords := initial.passwords;
    }

    /**
      * The username step: a trimmed length outside 2..30 is refused; otherwise the
      * trimmed name is written to the user's profile.
      */
    method UpdateUsername(user: UserId, username: string, usernameError: Option<DbError>)
      returns (failure: Option<Response<bool>>)
      modifies this
      ensures emails == old(emails) && passwords == old(passwords)
      ensures !UsernameAccepted(username) ==> failure == Some(Fail(400, UsernameMessage)) && profiles == old(profiles)
      ensures UsernameAccepted(username) && usernameError.Some? ==>
        failure == Some(ProfileFailure(usernameError.value)) && profiles == old(profiles)
      ensures UsernameAccepted(username) && usernameError.None? ==>
        failure.None? && profiles == UpdateRow(old(profiles), user, Trim(username))
      ensures GoodProfiles(old(profiles)) ==> GoodProfiles(profiles)
    {
      var trimmed := Trim(username);
      if |trimmed| < 2 || |trimmed| > 30 {
        return Some(Fail(400, UsernameMessage));
      }
      if usernameError.Some? {
        return Some(ProfileFailure(usernameError.value));
      }
      UpdateRowKeepsGood(profiles, user, trimmed);
      profiles := UpdateRow(profiles, user, trimmed);
      return None;
    }

    /** The password step: shorter than 6 is refused; an auth error answers 400 with its message. */
    method UpdatePassword(user: UserId, password: string, passwordError: Option<string>)
      returns (failure: Option<Response<bool>>)
      modifies this
      ensures profiles == old(profiles) && emails == old(emails)
      ensures !PasswordAccepted(password) ==> failure == Some(Fail(400, PasswordMessage)) && passwords == old(passwords)
      ensures PasswordAccepted(password) && passwordError.Some? ==>
        failure == Some(Fail(400, passwordError.value)) && passwords == old(passwords)
      ensures PasswordAccepted(password) && passwordError.None? ==>
        failure.None? && passwords == old(passwords)[user := password]
      ensures GoodPasswords(old(passwords)) ==> GoodPasswords(passwords)
    {
      if |password| < 6 {
        return Some(Fail(400, PasswordMessage));
      }
      if passwordError.Some? {
        return Some(Fail(400, passwordError.value));
      }
      passwords := passwords[user := password];
      return None;
    }

    /** The email step: the normalised address goes to the auth service; its error answers 400. */
    method UpdateEmail(user: UserId, email: string, emailError: Option<string>)
      returns (failure: Option<Response<bool>>)
      modifies this
      ensures profiles == old(profiles) && passwords == old(passwords)
      ensures emailError.Some? ==> failure == Some(Fail(400, emailError.value)) && emails == old(emails)
      ensures emailError.None? ==> failure.None? && emails == old(emails)[user := NormalEmail(email)]
      ensures GoodEmails(old(emails)) ==> GoodEmails(emails)
    {
      if emailError.Some? {
        return Some(Fail(400, emailError.value));
      }
      NormalEmailStored(email);
      emails := emails[user := NormalEmail(email)];
      return None;
    }

    /**
      * The handler. `user` is the signed-in user; a field left out of the body is `None`;
      * `usernameError`, `emailError` and `passwordError` are what the store and the auth
      * service report for the corresponding update.
      */
    method Patch(user: Option<UserId>, username: Option<string>, email: Option<string>, password: Option<string>,
                 usernameError: Option<DbError>, emailError: Option<string>, passwordError: Option<string>)
      returns (resp: Response<bool>)
      modifies this
      ensures user.None? ==>
        resp == Fail(401, "Not authenticated") && profiles == old(profiles) && emails == old(emails) && passwords == old(passwords)
      // username
      ensures user.Some? && username.Some? && !UsernameAccepted(username.value) ==>
        resp == Fail(400, UsernameMessage) && profiles == old(profiles) && emails == old(emails) && passwords == old(passwords)
      ensures user.Some? && username.Some? && UsernameAccepted(username.value) && usernameError.Some? ==>
        && resp == ProfileFailure(usernameError.value)
        && profiles == old(profiles) && emails == old(emails) && passwords == old(passwords)
      ensures user.Some? && UsernameStepOk(username, usernameError) ==>
        profiles == (if username.Some? then UpdateRow(old(profiles), user.value, Trim(username.value)) else old(profiles))
      // email
      ensures user.Some? && UsernameStepOk(username, usernameError) && email.Some? && emailError.Some? ==>
        resp == Fail(400, emailError.value) && emails == old(emails) && passwords == old(passwords)
      ensures user.Some? && UsernameStepOk(username, usernameError) && EmailStepOk(email, emailError) ==>
        emails == (if email.Some? then old(emails)[user.value := NormalEmail(email.value)] else old(emails))
      // password
      ensures user.Some? && UsernameStepOk(username, usernameError) && EmailStepOk(email, emailError) ==>
        && (password.Some? && !PasswordAccepted(password.value) ==>
              resp == Fail(400, PasswordMessage) && passwords == old(passwords))
        && (password.Some? && PasswordAccepted(password.value) && passwordError.Some? ==>
              resp == Fail(400, passwordError.value) && passwords == old(passwords))
        && (password.None? ==> resp == Ok(true) && passwords == old(passwords))
        && (password.Some? && PasswordAccepted(password.value) && passwordError.None? ==>
              resp == Ok(true) && passwords == old(passwords)[user.value := password.value])
      // what every answer keeps
      ensures old(Good(Snapshot())) ==> Good(Snapshot())
    {
      if user.None? {
        return Fail(401, "Not authenticated");
      }
      var u := user.value;
      var failure: Option<Response<bool>> := None;
      if username.Some? {
        failure := UpdateUsername(u, username.value, usernameError);
        if failure.Some? {
          return failure.value;
        }
      }
      if email.Some? {
        failure := UpdateEmail(u, email.value, emailError);
        if failure.Some? {
          return failure.value;
        }
      }
      if password.Some? {
        failure := UpdatePassword(u, password.value, passwordError);
        if failure.Some? {
          return failure.value;
        }
      }
      return Ok(true);
    }

    /**
      * `DELETE /api/account`: the caller's profile row is deleted; a store error answers
      * 500 with its message.
      */
    method Delete(user: Option<UserId>, profileError: Option<string>) returns (resp: Response<bool>)
      modifies this
      ensures emails == old(emails) && passwords == old(passwords)
      ensures user.None? ==> resp == Fail(401, "Not authenticated") && profiles == old(profiles)
      ensures user.Some? && profileError.Some? ==> resp == Fail(500, profileError.value) && profiles == old(profiles)
      ensures user.Some? && profileError.None? ==>
        resp == Ok(true) && profiles == old(profiles) - {user.value} && user.value !in profiles
      ensures GoodProfiles(old(profiles)) ==> GoodProfiles(profiles)
    {
      if user.None? {
        return Fail(401, "Not authenticated");
      }
      if profileError.Some? {
        return Fail(500, profileError.value);
      }
      profiles := profiles - {user.value};
      return Ok(true);
    }
  }
}
