/** The account endpoints of `UsersViewSet` (`tweets2cash/users/api.py`):
    e-mail change request and confirmation, password recovery and reset,
    password change, cancellation by token and by `DELETE`, and the
    viewset's serializer and permission choices.

    The user table is a `UserStore` whose rows are indexed by primary key.
    What the code obtains from outside comes in as parameters: the value
    `uuid1()` returns (`freshToken`, a value no row holds), the unique
    username `slugify_uniquely` returns (`slug`), the token verifier
    `get_user_for_token` (`verify`), the format check of `validate_email`
    (`wellFormed`) and the `USER_EMAIL_ALLOWED_DOMAINS` setting. */
module UsersApi {
  import opened Wrappers
  import opened Strings
  import opened RestFramework
  import opened UserModels
  import UsersServices
  import UsersSerializers
  import UsersFilters
  import UsersPermissions
  import Queries

  const DuplicatedEmail: string := "Duplicated email"
  const NotValidEmail: string := "Not valid email"
  const InvalidUsernameOrEmail: string := "Invalid username or email"
  const TokenIsInvalid: string := "Token is invalid"
  const CurrentPasswordNeeded: string := "Current password parameter needed"
  const NewPasswordNeeded: string := "New password parameter needed"
  const InvalidPasswordLength: string := "Invalid password length at least 6 charaters needed"
  const InvalidCurrentPassword: string := "Invalid current password"
  const InvalidEmailToken: string := "Invalid, are you sure the token is correct and you didn't use it before?"
  const InvalidCancelToken: string := "Invalid, are you sure the token is correct?"
  const ChangePasswordMinLength: nat := 6
  const CancelAccountPurpose: string := "cancel_account"

  /** `get_user_for_token(token, purpose, max_age)`: the primary key the
      token was signed for, or `None` when it does not verify. */
  type TokenVerifier = (string, string, Option<nat>) -> Option<nat>

  // ---------------------------------------------------------------- the table

  predicate EmailHeld(users: seq<User>, e: string)
  {
    exists j :: 0 <= j < |users| && users[j].email == e
  }

  predicate UsernameHeld(users: seq<User>, name: string)
  {
    exists j :: 0 <= j < |users| && users[j].username == name
  }

  predicate TokenHeld(users: seq<User>, t: string)
  {
    exists j :: 0 <= j < |users| && users[j].token == Some(t)
  }

  predicate EmailTokenHeld(users: seq<User>, t: string)
  {
    exists j :: 0 <= j < |users| && users[j].emailToken == Some(t)
  }

  /** The invariant of the table: rows sit at their primary key, no e-mail
      is empty (`save()` fills it in), usernames and e-mails are unique (the
      `unique=True` columns), and no two rows hold the same recovery token or
      the same e-mail token (each is a fresh `uuid1()`). */
  predicate WellFormed(users: seq<User>)
  {
    && (forall i :: 0 <= i < |users| ==> users[i].id == i && users[i].email != "")
    && (forall i, j :: 0 <= i < j < |users| ==> users[i].username != users[j].username)
    && (forall i, j :: 0 <= i < j < |users| ==> users[i].email != users[j].email)
    && (forall i, j :: 0 <= i < j < |users| && users[i].token.Some? ==> users[i].token != users[j].token)
    && (forall i, j :: 0 <= i < j < |users| && users[i].emailToken.Some? ==> users[i].emailToken != users[j].emailToken)
  }

  /** Writing `u` at row `i` would break a unique column. */
  predicate Conflicts(users: seq<User>, i: nat, u: User)
  {
    exists j :: 0 <= j < |users| && j != i && (users[j].username == u.username || users[j].email == u.email)
  }

  /** The tokens of `u` are held by no other row. */
  predicate TokensFreeElsewhere(users: seq<User>, i: nat, u: User)
  {
    forall j :: 0 <= j < |users| && j != i ==>
      (u.token.Some? ==> users[j].token != u.token) &&
      (u.emailToken.Some? ==> users[j].emailToken != u.emailToken)
  }

  /** The e-mail a request may move to: Django's format check and the
      allow-list of domains both pass. */
  predicate NewEmailAcceptable(e: string, wellFormed: string -> bool, allowed: Option<seq<string>>)
  {
    ValidEmail(e, wellFormed) && ValidateAllowedDomains(e, allowed).Pass?
  }

  datatype DomainError = DomainNotAllowed | NoDomainPart

  /** `validate_user_email_allowed_domains`: the domain is the second piece
      of `value.split("@")` (indexing it fails when there is no '@'); a
      `None` or empty allow-list admits every domain. */
  function ValidateAllowedDomains(value: string, allowed: Option<seq<string>>): (r: Outcome<DomainError>)
    ensures r == Fail(NoDomainPart) <==> '@' !in value
    ensures r == Fail(DomainNotAllowed) ==> allowed.Some? && |allowed.value| > 0
  {
    SplitHasSecondPiece(value, '@');
    var parts := Split(value, '@');
    if |parts| < 2 then Fail(NoDomainPart)
    else if allowed.Some? && |allowed.value| > 0 && parts[1] !in allowed.value then Fail(DomainNotAllowed)
    else Pass
  }

  /** Without an allow-list every address with an '@' passes. */
  lemma UnrestrictedDomains(value: string, allowed: Option<seq<string>>)
    requires allowed.None? || allowed.value == []
    ensures ValidateAllowedDomains(value, allowed).Pass? <==> '@' in value
  {
    SplitHasSecondPiece(value, '@');
  }

  /** With a non-empty allow-list, `local@domain` passes exactly when
      `domain` is listed. */
  lemma RestrictedDomains(local: string, domain: string, allowed: seq<string>)
    requires '@' !in local && '@' !in domain && |allowed| > 0
    ensures ValidateAllowedDomains(local + "@" + domain, Some(allowed)) ==
            (if domain in allowed then Pass else Fail(DomainNotAllowed))
  {
    SplitAfterFirst(local, '@', domain);
    assert local + "@" + domain == local + ['@'] + domain;
    assert Split(domain, '@') == [domain] by {
      assert IndexOf(domain, '@') == |domain|;
    }
  }

  /** An address that passed `validate_email` always has a domain part. */
  lemma ValidEmailHasDomain(e: string, wellFormed: string -> bool, allowed: Option<seq<string>>)
    requires ValidEmail(e, wellFormed)
    ensures ValidateAllowedDomains(e, allowed) != Fail(NoDomainPart)
  {
    SplitHasSecondPiece(e, '@');
  }

  /** The row `change_email` writes: `email := new_email`, the pending
      fields cleared, then `save()` (a `None` address becomes the default). */
  function EmailConfirmed(u: User): User
  {
    EmailDefaulted(u.(email := if u.newEmail.Some? then u.newEmail.value else "",
                      newEmail := None, emailToken := None))
  }

  /** The confirmed row takes the pending address, or the default one when
      none is pending; the pending fields are cleared and nothing else
      changes. */
  lemma ConfirmedRow(u: User)
    ensures EmailConfirmed(u).newEmail == None && EmailConfirmed(u).emailToken == None
    ensures u.newEmail.Some? && u.newEmail.value != "" ==> EmailConfirmed(u).email == u.newEmail.value
    ensures u.newEmail.None? || u.newEmail.value == "" ==> EmailConfirmed(u).email == u.username + DefaultEmailDomain
    ensures EmailConfirmed(u) == u.(email := EmailConfirmed(u).email, newEmail := None, emailToken := None)
  {
  }

  /** The account `get_user_for_token(..., "cancel_account", max_age)` yields. */
  function CancelTokenOwner(users: seq<User>, verify: TokenVerifier, token: string, maxAge: Option<nat>): (owner: Option<nat>)
    ensures owner.Some? ==> owner.value < |users|
    ensures owner.Some? <==> verify(token, CancelAccountPurpose, maxAge).Some? && verify(token, CancelAccountPurpose, maxAge).value < |users|
    ensures owner.Some? ==> owner == verify(token, CancelAccountPurpose, maxAge)
  {
    var id := verify(token, CancelAccountPurpose, maxAge);
    if id.Some? && id.value < |users| then id else None
  }

  /** The `pk=` lookup of `get_object()`. */
  function IdIs(pk: nat): User -> bool
  {
    (u: User) => u.id == pk
  }

  /** In a well-formed table, the `pk` lookup in what `caller` may see finds
      row `pk` exactly when it exists and is the caller's own or the caller
      is a superuser. */
  lemma DestroyLookup(users: seq<User>, caller: nat, pk: nat)
    requires WellFormed(users) && caller < |users|
    ensures var visible := UsersFilters.FilterQueryset(Member(users[caller]), users);
            var found := Queries.Get(visible, IdIs(pk));
            (found.Ok? <==> pk < |users| && (users[caller].isSuperuser || pk == caller)) &&
            (found.Ok? ==> found.value < |visible| && visible[found.value] == users[pk])
  {
    var visible := UsersFilters.FilterQueryset(Member(users[caller]), users);
    var found := Queries.Get(visible, IdIs(pk));
    if found.Ok? {
      VisibleRowIsOwnOrSuper(users, caller, visible, visible[found.value]);
    }
    if pk < |users| && (users[caller].isSuperuser || pk == caller) {
      RowIsVisible(users, caller, visible, pk);
    }
  }

  lemma VisibleRowIsOwnOrSuper(users: seq<User>, caller: nat, visible: seq<User>, obj: User)
    requires WellFormed(users) && caller < |users|
    requires visible == UsersFilters.FilterQueryset(Member(users[caller]), users)
    requires obj in visible
    ensures obj.id < |users| && users[obj.id] == obj
    ensures users[caller].isSuperuser || obj.id == caller
  {
    assert obj in users;
    var k :| 0 <= k < |users| && users[k] == obj;
  }

  lemma RowIsVisible(users: seq<User>, caller: nat, visible: seq<User>, pk: nat)
    requires WellFormed(users) && caller < |users| && pk < |users|
    requires users[caller].isSuperuser || pk == caller
    requires visible == UsersFilters.FilterQueryset(Member(users[caller]), users)
    ensures Queries.Get(visible, IdIs(pk)).Ok?
  {
    var k := PositionOfRow(users, caller, visible, pk);
    forall j | 0 <= j < |visible| && IdIs(pk)(visible[j])
      ensures j == k
    {
      if j < k {
        OneRowPerId(users, caller, visible, j, k);
      } else if k < j {
        OneRowPerId(users, caller, visible, k, j);
      }
    }
    Queries.GetUnique(visible, IdIs(pk), k);
  }

  lemma PositionOfRow(users: seq<User>, caller: nat, visible: seq<User>, pk: nat) returns (k: nat)
    requires caller < |users| && pk < |users|
    requires users[caller].isSuperuser || pk == caller
    requires visible == UsersFilters.FilterQueryset(Member(users[caller]), users)
    ensures k < |visible| && visible[k] == users[pk]
  {
    assert users[pk] in users;
    assert users[pk] in visible;
    k :| 0 <= k < |visible| && visible[k] == users[pk];
  }

  lemma OneRowPerId(users: seq<User>, caller: nat, visible: seq<User>, i: nat, j: nat)
    requires WellFormed(users) && caller < |users|
    requires visible == UsersFilters.FilterQueryset(Member(users[caller]), users)
    requires i < j < |visible|
    ensures visible[i].id != visible[j].id
  {
    VisibleRowIsOwnOrSuper(users, caller, visible, visible[i]);
    VisibleRowIsOwnOrSuper(users, caller, visible, visible[j]);
    assert UsersFilters.NoDuplicates(visible);
  }

  /** In a well-formed table a row's tokens are held by no other row. */
  lemma SoleHolder(users: seq<User>, i: nat)
    requires WellFormed(users) && i < |users|
    ensures users[i].token.Some? ==> forall j :: 0 <= j < |users| && j != i ==> users[j].token != users[i].token
    ensures users[i].emailToken.Some? ==> forall j :: 0 <= j < |users| && j != i ==> users[j].emailToken != users[i].emailToken
  {
  }

  /** A row that keeps its username and e-mail breaks no unique column. */
  lemma KeepsKeys(users: seq<User>, i: nat, u: User)
    requires WellFormed(users) && i < |users|
    requires u.username == users[i].username && u.email == users[i].email
    ensures !Conflicts(users, i, u)
  {
  }

  /** A row that keeps, clears or freshly draws each token keeps them
      unique. */
  lemma TokensStayFree(users: seq<User>, i: nat, u: User)
    requires WellFormed(users) && i < |users|
    requires u.token.Some? ==> u.token == users[i].token || !TokenHeld(users, u.token.value)
    requires u.emailToken.Some? ==> u.emailToken == users[i].emailToken || !EmailTokenHeld(users, u.emailToken.value)
    ensures TokensFreeElsewhere(users, i, u)
  {
    SoleHolder(users, i);
  }

  /** The `token=` and `email_token=` lookups. */
  function TokenIs(t: string): User -> bool
  {
    (u: User) => u.token == Some(t)
  }

  function EmailTokenIs(t: string): User -> bool
  {
    (u: User) => u.emailToken == Some(t)
  }

  /** In a well-formed table `get(token=t)` finds the row holding `t`
      whenever one does. */
  lemma GetByToken(users: seq<User>, t: string)
    requires WellFormed(users)
    ensures Queries.Get(users, TokenIs(t)).Ok? <==> TokenHeld(users, t)
    ensures forall i :: 0 <= i < |users| && users[i].token == Some(t) ==> Queries.Get(users, TokenIs(t)) == Ok(i)
  {
    forall i | 0 <= i < |users| && users[i].token == Some(t)
      ensures Queries.Get(users, TokenIs(t)) == Ok(i)
    {
      SoleHolder(users, i);
      Queries.GetUnique(users, TokenIs(t), i);
    }
  }

  lemma GetByEmailToken(users: seq<User>, t: string)
    requires WellFormed(users)
    ensures Queries.Get(users, EmailTokenIs(t)).Ok? <==> EmailTokenHeld(users, t)
    ensures forall i :: 0 <= i < |users| && users[i].emailToken == Some(t) ==> Queries.Get(users, EmailTokenIs(t)) == Ok(i)
  {
    forall i | 0 <= i < |users| && users[i].emailToken == Some(t)
      ensures Queries.Get(users, EmailTokenIs(t)) == Ok(i)
    {
      SoleHolder(users, i);
      Queries.GetUnique(users, EmailTokenIs(t), i);
    }
  }

  // ------------------------------------------------------------- the store

  class UserStore {
    var users: seq<User>
    const hasher: string -> string
    const fold: string -> string

    ghost predicate Valid()
      reads this
    {
      WellFormed(users)
    }

    constructor (initial: seq<User>, hasher: string -> string, fold: string -> string)
      requires WellFormed(initial)
      ensures Valid() && users == initial && this.hasher == hasher && this.fold == fold
    {
      users := initial;
      this.hasher := hasher;
      this.fold := fold;
    }

    /** `Model.save()` reaching the database: the row is written unless a
        unique column would be duplicated. */
    method Commit(i: nat, u: User) returns (r: Outcome<ApiError>)
      requires Valid() && i < |users|
      requires u.id == i && u.email != "" && TokensFreeElsewhere(users, i, u)
      modifies this
      ensures Valid()
      ensures r == (if Conflicts(old(users), i, u) then Fail(DatabaseIntegrityError) else Pass)
      ensures users == (if r.Pass? then old(users)[i := u] else old(users))
    {
      if Conflicts(users, i, u) {
        r := Fail(DatabaseIntegrityError);
      } else {
        users := users[i := u];
        r := Pass;
      }
    }

    /** The e-mail step of `partial_update` for the logged-in `caller`. An
        address any row holds, the caller's own included, is a duplicate,
        and that check wins over the format check; an acceptable address is
        not applied but parked in `new_email` beside a fresh `email_token`. */
    method PartialUpdateEmail(caller: nat, newEmail: Option<string>, wellFormed: string -> bool,
                              allowed: Option<seq<string>>, freshToken: string)
      returns (r: Outcome<ApiError>)
      requires Valid() && caller < |users| && !EmailTokenHeld(users, freshToken)
      modifies this
      ensures Valid()
      ensures newEmail.None? ==> r == Pass && users == old(users)
      ensures newEmail.Some? && EmailHeld(old(users), newEmail.value) ==>
                r == Fail(WrongArguments(DuplicatedEmail)) && users == old(users)
      ensures newEmail.Some? && !EmailHeld(old(users), newEmail.value) &&
              !NewEmailAcceptable(newEmail.value, wellFormed, allowed) ==>
                r == Fail(WrongArguments(NotValidEmail)) && users == old(users)
      ensures newEmail.Some? && !EmailHeld(old(users), newEmail.value) &&
              NewEmailAcceptable(newEmail.value, wellFormed, allowed) ==>
                r == Pass &&
                users == old(users)[caller := old(users)[caller].(emailToken := Some(freshToken), newEmail := newEmail)]
      ensures r.Pass? && newEmail.Some? ==> users[caller].email == old(users)[caller].email
    {
      r := Pass;
      if newEmail.Some? {
        var e := newEmail.value;
        var validNewEmail := true;
        var duplicatedEmail := EmailHeld(users, e);
        if !ValidEmail(e, wellFormed) || ValidateAllowedDomains(e, allowed).Fail? {
          validNewEmail := false;
        }
        validNewEmail := validNewEmail && e != users[caller].email;
        if duplicatedEmail {
          r := Fail(WrongArguments(DuplicatedEmail));
          return;
        } else if !validNewEmail {
          r := Fail(WrongArguments(NotValidEmail));
          return;
        }
        var u := users[caller];
        u := u.(emailToken := Some(freshToken));
        u := u.(newEmail := Some(e));
        var saved := Save(u);
        TokensStayFree(users, caller, saved);
        r := Commit(caller, saved);
      }
    }

    /** `change_email`: the row holding the submitted e-mail token takes its
        pending address and forgets the token, so the token works once. */
    method ChangeEmail(emailToken: Option<string>) returns (r: Outcome<ApiError>)
      requires Valid()
      modifies this
      ensures Valid()
      ensures !UsersSerializers.ChangeEmailValid(emailToken) ==>
                r == Fail(WrongArguments(InvalidEmailToken)) && users == old(users)
      ensures UsersSerializers.ChangeEmailValid(emailToken) && !EmailTokenHeld(old(users), emailToken.value) ==>
                r == Fail(WrongArguments(InvalidEmailToken)) && users == old(users)
      ensures forall i :: 0 <= i < |old(users)| && UsersSerializers.ChangeEmailValid(emailToken) &&
                          old(users)[i].emailToken == emailToken ==>
                if Conflicts(old(users), i, EmailConfirmed(old(users)[i]))
                then r == Fail(DatabaseIntegrityError) && users == old(users)
                else r == Pass && users == old(users)[i := EmailConfirmed(old(users)[i])]
      ensures r.Pass? ==> emailToken.Some? && !EmailTokenHeld(users, emailToken.value)
    {
      if !UsersSerializers.ChangeEmailValid(emailToken) {
        r := Fail(WrongArguments(InvalidEmailToken));
        return;
      }
      var t := emailToken.value;
      var found := Queries.Get(users, EmailTokenIs(t));
      GetByEmailToken(users, t);
      if found.Err? {
        r := Fail(WrongArguments(InvalidEmailToken));
        return;
      }
      var i := found.value;
      SoleHolder(users, i);
      var u := users[i];
      u := u.(email := if u.newEmail.Some? then u.newEmail.value else "", newEmail := None, emailToken := None);
      var saved := Save(u);
      TokensStayFree(users, i, saved);
      r := Commit(i, saved);
    }

    /** `password_recovery`: a blank username is refused; otherwise the
        account found by `get_user_by_username_or_email` gets a fresh
        recovery token, so the token it held before is held by nobody. */
    method PasswordRecovery(username: Option<string>, freshToken: string) returns (r: Outcome<ApiError>)
      requires Valid() && !TokenHeld(users, freshToken)
      modifies this
      ensures Valid()
      ensures Falsy(username) ==> r == Fail(WrongArguments(InvalidUsernameOrEmail)) && users == old(users)
      ensures !Falsy(username) ==>
                match UsersServices.LookupIndex(old(users), username.value, fold)
                case Err(m) => r == Fail(WrongArguments(m)) && users == old(users)
                case Ok(i) =>
                  && r == Pass
                  && users == old(users)[i := old(users)[i].(token := Some(freshToken))]
                  && (old(users)[i].token.Some? ==> !TokenHeld(users, old(users)[i].token.value))
    {
      if Falsy(username) {
        r := Fail(WrongArguments(InvalidUsernameOrEmail));
        return;
      }
      var found := UsersServices.LookupIndex(users, username.value, fold);
      if found.Err? {
        r := Fail(WrongArguments(found.error));
        return;
      }
      var i := found.value;
      SoleHolder(users, i);
      var u := users[i].(token := Some(freshToken));
      var saved := Save(u);
      assert saved == u;
      TokensStayFree(users, i, saved);
      KeepsKeys(users, i, saved);
      r := Commit(i, saved);
    }

    /** `change_password_from_recovery`: the row holding the submitted token
        gets the new password and loses the token, so the token works once. */
    method ChangePasswordFromRecovery(token: Option<string>, password: Option<string>) returns (r: Outcome<ApiError>)
      requires Valid()
      modifies this
      ensures Valid()
      ensures !UsersSerializers.RecoveryValid(token, password) ==>
                r == Fail(WrongArguments(TokenIsInvalid)) && users == old(users)
      ensures UsersSerializers.RecoveryValid(token, password) && !TokenHeld(old(users), token.value) ==>
                r == Fail(WrongArguments(TokenIsInvalid)) && users == old(users)
      ensures forall i :: 0 <= i < |old(users)| && UsersSerializers.RecoveryValid(token, password) &&
                          old(users)[i].token == token ==>
                r == Pass &&
                users == old(users)[i := old(users)[i].(password := SetPassword(password.value, hasher), token := None)]
      ensures r.Pass? ==> token.Some? && !TokenHeld(users, token.value)
    {
      if !UsersSerializers.RecoveryValid(token, password) {
        r := Fail(WrongArguments(TokenIsInvalid));
        return;
      }
      var t := token.value;
      var found := Queries.Get(users, TokenIs(t));
      GetByToken(users, t);
      if found.Err? {
        r := Fail(WrongArguments(TokenIsInvalid));
        return;
      }
      var i := found.value;
      SoleHolder(users, i);
      var u := users[i];
      u := u.(password := SetPassword(password.value, hasher));
      u := u.(token := None);
      var saved := Save(u);
      TokensStayFree(users, i, saved);
      r := Commit(i, saved);
    }

    /** `change_password` for the logged-in `caller`: the checks fail in a
        fixed order, and the password changes only when all pass. */
    method ChangePassword(caller: nat, currentPassword: Option<string>, password: Option<string>)
      returns (r: Outcome<ApiError>)
      requires Valid() && caller < |users|
      modifies this
      ensures Valid()
      ensures Falsy(currentPassword) ==>
                r == Fail(WrongArguments(CurrentPasswordNeeded)) && users == old(users)
      ensures !Falsy(currentPassword) && Falsy(password) ==>
                r == Fail(WrongArguments(NewPasswordNeeded)) && users == old(users)
      ensures !Falsy(currentPassword) && !Falsy(password) && |password.value| < ChangePasswordMinLength ==>
                r == Fail(WrongArguments(InvalidPasswordLength)) && users == old(users)
      ensures !Falsy(currentPassword) && !Falsy(password) && |password.value| >= ChangePasswordMinLength &&
              !CheckPassword(old(users)[caller].password, currentPassword.value, hasher) ==>
                r == Fail(WrongArguments(InvalidCurrentPassword)) && users == old(users)
      ensures r.Pass? <==> !Falsy(currentPassword) && !Falsy(password) && |password.value| >= ChangePasswordMinLength &&
                           CheckPassword(old(users)[caller].password, currentPassword.value, hasher)
      ensures r.Pass? ==> users == old(users)[caller := old(users)[caller].(password := SetPassword(password.value, hasher))]
    {
      if Falsy(currentPassword) {
        r := Fail(WrongArguments(CurrentPasswordNeeded));
        return;
      }
      if Falsy(password) {
        r := Fail(WrongArguments(NewPasswordNeeded));
        return;
      }
      if |password.value| < ChangePasswordMinLength {
        r := Fail(WrongArguments(InvalidPasswordLength));
        return;
      }
      if !Falsy(currentPassword) && !CheckPassword(users[caller].password, currentPassword.value, hasher) {
        r := Fail(WrongArguments(InvalidCurrentPassword));
        return;
      }
      var u := users[caller].(password := SetPassword(password.value, hasher));
      var saved := Save(u);
      TokensStayFree(users, caller, saved);
      r := Commit(caller, saved);
    }

    /** `User.cancel()` on row `i` and its write. The generated username is
        held by no row, so afterwards no other row shares it. */
    method CancelUser(i: nat, slug: string) returns (r: Outcome<ApiError>)
      requires Valid() && i < |users| && !UsernameHeld(users, slug)
      modifies this
      ensures Valid()
      ensures r == (if Conflicts(old(users), i, Cancelled(old(users)[i], slug)) then Fail(DatabaseIntegrityError) else Pass)
      ensures users == (if r.Pass? then old(users)[i := Cancelled(old(users)[i], slug)] else old(users))
      ensures r.Pass? ==> users[i].email == users[i].username + DefaultEmailDomain &&
                          forall j :: 0 <= j < |users| && j != i ==> users[j].username != users[i].username
    {
      var c := Cancel(users[i], slug);
      TokensStayFree(users, i, c);
      r := Commit(i, c);
    }

    /** `cancel`: a cancellation token that fails to verify, or that belongs
        to an inactive account, is refused; otherwise that account is
        cancelled. */
    method CancelAccount(cancelToken: Option<string>, verify: TokenVerifier, maxAge: Option<nat>, slug: string)
      returns (r: Outcome<ApiError>)
      requires Valid() && !UsernameHeld(users, slug)
      modifies this
      ensures Valid()
      ensures !UsersSerializers.CancelAccountValid(cancelToken) ==>
                r == Fail(WrongArguments(InvalidCancelToken)) && users == old(users)
      ensures UsersSerializers.CancelAccountValid(cancelToken) ==>
                match CancelTokenOwner(old(users), verify, cancelToken.value, maxAge)
                case None => r == Fail(WrongArguments(InvalidCancelToken)) && users == old(users)
                case Some(i) =>
                  if !old(users)[i].isActive then r == Fail(WrongArguments(InvalidCancelToken)) && users == old(users)
                  else if Conflicts(old(users), i, Cancelled(old(users)[i], slug))
                  then r == Fail(DatabaseIntegrityError) && users == old(users)
                  else r == Pass && users == old(users)[i := Cancelled(old(users)[i], slug)]
      ensures r.Pass? ==> exists i :: 0 <= i < |old(users)| && old(users)[i].isActive && !users[i].isActive
    {
      if !UsersSerializers.CancelAccountValid(cancelToken) {
        r := Fail(WrongArguments(InvalidCancelToken));
        return;
      }
      var owner := CancelTokenOwner(users, verify, cancelToken.value, maxAge);
      if owner.None? {
        r := Fail(WrongArguments(InvalidCancelToken));
        return;
      }
      var i := owner.value;
      if !users[i].isActive {
        r := Fail(WrongArguments(InvalidCancelToken));
        return;
      }
      r := CancelUser(i, slug);
    }

    /** `destroy` by the logged-in `caller`: `get_object()` looks the row up
        in the filtered table (not found otherwise) and checks the object
        permission; there is no check that the account is still active. So
        only one's own account can be destroyed, by a superuser too. */
    method Destroy(caller: nat, pk: nat, slug: string) returns (r: Outcome<ApiError>)
      requires Valid() && caller < |users| && !UsernameHeld(users, slug)
      modifies this
      ensures Valid()
      ensures (pk >= |old(users)| || (!old(users)[caller].isSuperuser && pk != caller)) ==>
                r == Fail(NotFound) && users == old(users)
      ensures pk < |old(users)| && old(users)[caller].isSuperuser && pk != caller ==>
                r == Fail(PermissionDenied) && users == old(users)
      ensures pk == caller ==>
                if Conflicts(old(users), caller, Cancelled(old(users)[caller], slug))
                then r == Fail(DatabaseIntegrityError) && users == old(users)
                else r == Pass && users == old(users)[caller := Cancelled(old(users)[caller], slug)]
    {
      var requester := Member(users[caller]);
      var visible := UsersFilters.FilterQueryset(requester, users);
      var found := Queries.Get(visible, IdIs(pk));
      DestroyLookup(users, caller, pk);
      if found.Err? {
        r := Fail(NotFound);
        return;
      }
      var obj := visible[found.value];
      if !UsersPermissions.HasObjectPermission(requester, Some(obj)) {
        r := Fail(PermissionDenied);
        return;
      }
      r := CancelUser(pk, slug);
    }
  }

  /** A confirmed e-mail token cannot be replayed. */
  method ConfirmationIsSingleUse(store: UserStore, t: string) returns (first: Outcome<ApiError>, second: Outcome<ApiError>)
    requires store.Valid()
    modifies store
    ensures first.Pass? ==> second == Fail(WrongArguments(InvalidEmailToken))
  {
    first := store.ChangeEmail(Some(t));
    second := store.ChangeEmail(Some(t));
  }

  /** A recovery token resets the password once. */
  method RecoveryIsSingleUse(store: UserStore, t: string, p: string) returns (first: Outcome<ApiError>, second: Outcome<ApiError>)
    requires store.Valid()
    modifies store
    ensures first.Pass? ==> second == Fail(WrongArguments(TokenIsInvalid))
  {
    first := store.ChangePasswordFromRecovery(Some(t), Some(p));
    second := store.ChangePasswordFromRecovery(Some(t), Some(p));
  }

  // ------------------------------------------------------ viewset choices

  /** `create`: creating users through this endpoint is not supported. */
  function Create(): (r: Outcome<ApiError>)
    ensures r == Fail(NotSupported)
  {
    Fail(NotSupported)
  }

  const AdminSerializedActions: seq<string> := ["update", "by_username", "retrieve"]

  /** `get_serializer_class`: the admin serializer for detail reads and full
      updates by a superuser, the photo validator for `change_avatar`, and
      the user serializer otherwise. */
  function SerializerFor(action: string, requester: Requester): (c: UsersSerializers.SerializerClass)
    ensures c == UsersSerializers.UserAdminSerializer <==>
              action in AdminSerializedActions && UsersFilters.RequesterIsSuperuser(requester)
    ensures c == UsersSerializers.UserPhotoValidator <==> action == "change_avatar"
    ensures action == "partial_update" ==> c == UsersSerializers.UserSerializer
  {
    if action in ["partial_update"] then UsersSerializers.UserSerializer
    else if action in AdminSerializedActions && UsersFilters.RequesterIsSuperuser(requester) then UsersSerializers.UserAdminSerializer
    else if action in ["change_avatar"] then UsersSerializers.UserPhotoValidator
    else UsersSerializers.UserSerializer
  }

  /** Whatever serializer a detail read uses, the e-mail is in it. */
  lemma DetailReadsShowEmail(action: string, requester: Requester)
    requires action in AdminSerializedActions
    ensures "email" in UsersSerializers.Fields(SerializerFor(action, requester))
  {
  }

  const AllowAnyActions: seq<string> := ["password_recovery", "by_username"]

  class UsersViewSet {
    var permissionClasses: seq<PermissionClass>

    constructor ()
      ensures permissionClasses == [IsAuthenticated, IsTheSameUser]
    {
      permissionClasses := [IsAuthenticated, IsTheSameUser];
    }

    /** `get_permissions`: reassigns the instance's classes for the two
        public actions and returns the current ones. */
    method GetPermissions(action: string) returns (ps: seq<PermissionClass>)
      modifies this
      ensures permissionClasses == (if action in AllowAnyActions then [AllowAny] else old(permissionClasses))
      ensures ps == permissionClasses
    {
      if action in AllowAnyActions {
        permissionClasses := [AllowAny];
      }
      ps := permissionClasses;
    }
  }

  /** Each request gets a new viewset: the two public actions are open to
      anyone, every other one needs an authenticated requester; the owner
      check `IsTheSameUser` applies only where an object is fetched. */
  method PermissionsFor(action: string) returns (ps: seq<PermissionClass>)
    ensures ps == if action in AllowAnyActions then [AllowAny] else [IsAuthenticated, IsTheSameUser]
  {
    var view := new UsersViewSet();
    ps := view.GetPermissions(action);
  }
}
