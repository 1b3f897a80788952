/** The account record (`tweets2cash/users/models.py`): its fields, the
    permission predicates of `PermissionsMixin`, the display names, the
    e-mail default applied by `save()` and the scrubbing done by `cancel()`. */
module UserModels {
  import opened Wrappers

  /** `save()` and `cancel()` build addresses by appending this domain. */
  const DefaultEmailDomain: string := "@tweets2cash.com"
  const DeletedUserFullName: string := "Deleted user"

  /** The stored password: unusable after `set_unusable_password()`, or the
      digest that `set_password` produced with the configured hasher. */
  datatype Password = Unusable | Hashed(digest: string)

  /** One row of the user table. `id` is the primary key; an unset photo
      file is `None`. Timestamps are opaque integers. */
  datatype User = User(
    id: nat,
    username: string,
    email: string,
    isActive: bool,
    isSuperuser: bool,
    fullName: string,
    bio: string,
    photo: Option<string>,
    dateJoined: int,
    dateOfBirth: Option<int>,
    gender: Option<string>,
    token: Option<string>,
    emailToken: Option<string>,
    newEmail: Option<string>,
    password: Password,
    isSystem: bool)

  /** The user a request carries: anonymous, or a logged-in account. */
  datatype Requester = Anonymous | Member(user: User)

  /** `set_password(raw)`: the digest of `raw` under `hasher`. */
  function SetPassword(raw: string, hasher: string -> string): (p: Password)
    ensures p.Hashed?
  {
    Hashed(hasher(raw))
  }

  /** `check_password(raw)`: an unusable password matches nothing. */
  predicate CheckPassword(p: Password, raw: string, hasher: string -> string)
  {
    p.Hashed? && p.digest == hasher(raw)
  }

  /** A password that was just set accepts the raw value it was set from,
      and any other raw value exactly when it hashes alike. */
  lemma SetPasswordThenCheck(raw: string, other: string, hasher: string -> string)
    ensures CheckPassword(SetPassword(raw, hasher), raw, hasher)
    ensures CheckPassword(SetPassword(raw, hasher), other, hasher) <==> hasher(other) == hasher(raw)
  {
  }

  /** `is_staff`: staff status is the superuser flag. */
  predicate IsStaff(u: User): (staff: bool)
    ensures staff <==> u.isSuperuser
  {
    u.isSuperuser
  }

  /** `has_perm`: whatever permission is asked for, granted exactly to an
      active staff member; an inactive account holds none. */
  predicate HasPerm(u: User, perm: string): (granted: bool)
    ensures granted <==> u.isActive && IsStaff(u)
    ensures !u.isActive ==> !granted
  {
    u.isActive && u.isSuperuser
  }

  /** `has_perms`: the list is not inspected; it agrees with `has_perm` for
      every single permission, the empty list included. */
  predicate HasPerms(u: User, perms: seq<string>): (granted: bool)
    ensures forall perm :: granted == HasPerm(u, perm)
  {
    u.isActive && u.isSuperuser
  }

  /** `has_module_perms`: the app label is not inspected; it agrees with
      `has_perm` for every permission. */
  predicate HasModulePerms(u: User, appLabel: string): (granted: bool)
    ensures forall perm :: granted == HasPerm(u, perm)
  {
    u.isActive && u.isSuperuser
  }

  /** The three permission checks agree, ignore what is asked for, and hold
      exactly for an active superuser; `is_staff` is the superuser flag. */
  lemma PermissionChecksAgree(u: User, perm: string, perms: seq<string>, appLabel: string)
    ensures HasPerm(u, perm) <==> u.isActive && u.isSuperuser
    ensures HasPerms(u, perms) == HasPerm(u, perm) && HasModulePerms(u, appLabel) == HasPerm(u, perm)
    ensures IsStaff(u) <==> u.isSuperuser
    ensures HasPerm(u, perm) <==> u.isActive && IsStaff(u)
  {
  }

  /** `get_full_name()`: `full_name or username or email`. */
  function FullName(u: User): (name: string)
    ensures name == u.fullName || name == u.username || name == u.email
    ensures name == "" <==> u.fullName == "" && u.username == "" && u.email == ""
    ensures u.fullName != "" ==> name == u.fullName
    ensures u.fullName == "" && u.username != "" ==> name == u.username
  {
    if u.fullName != "" then u.fullName else if u.username != "" then u.username else u.email
  }

  /** `get_short_name()`: the username, whatever the full name; it agrees
      with `get_full_name()` when no full name is set. */
  function ShortName(u: User): (name: string)
    ensures name == u.username
    ensures u.fullName == "" && u.username != "" ==> name == FullName(u)
  {
    u.username
  }

  /** The record as `save()` writes it: an empty e-mail is replaced by
      `username + "@tweets2cash.com"`; nothing else is touched. */
  function EmailDefaulted(u: User): (s: User)
  {
    if u.email == "" then u.(email := u.username + DefaultEmailDomain) else u
  }

  /** `save()` never leaves the e-mail empty, keeps a non-empty one, and
      changes no other field; applying it twice is the same as once. */
  lemma EmailDefaultProperties(u: User)
    ensures EmailDefaulted(u).email != ""
    ensures u.email != "" ==> EmailDefaulted(u) == u
    ensures u.email == "" ==> EmailDefaulted(u).email == u.username + DefaultEmailDomain
    ensures EmailDefaulted(u) == u.(email := EmailDefaulted(u).email)
    ensures EmailDefaulted(EmailDefaulted(u)) == EmailDefaulted(u)
  {
  }

  /** `User.save`: conditionally rewrites the e-mail of the record about to
      be written. (Its call of `get_token_for_user` has no effect on the row.) */
  method Save(u: User) returns (saved: User)
    ensures saved == EmailDefaulted(u)
    ensures saved.email != ""
  {
    saved := u;
    if saved.email == "" {
      saved := saved.(email := saved.username + DefaultEmailDomain);
    }
  }

  /** The record `cancel()` writes, given the unique username produced by
      the slug generator. */
  function Cancelled(u: User, slug: string): User
  {
    u.(username := slug, email := slug + DefaultEmailDomain, isActive := false,
       fullName := DeletedUserFullName, bio := "", token := None,
       password := Unusable, photo := None)
  }

  /** What `cancel()` promises: the account is deactivated and scrubbed, its
      username is the generated one and its e-mail derived from it; the id,
      the pending e-mail change, the superuser flag, the join date and the
      other fields stay as they were. */
  lemma CancelScrubsAccount(u: User, slug: string)
    ensures var c := Cancelled(u, slug);
      && !c.isActive && c.fullName == DeletedUserFullName && c.bio == ""
      && c.token.None? && c.photo.None? && c.password == Unusable
      && c.username == slug && c.email == slug + DefaultEmailDomain
      && c == u.(username := c.username, email := c.email, isActive := false,
                 fullName := c.fullName, bio := "", token := None,
                 password := Unusable, photo := None)
      && c.id == u.id && c.emailToken == u.emailToken && c.newEmail == u.newEmail
      && c.isSuperuser == u.isSuperuser && c.dateJoined == u.dateJoined
  {
  }

  /** A cancelled account cannot log in with any password, holds no
      permission, is displayed as "Deleted user" and is short-named by its
      generated username. */
  lemma CancelledAccountIsInert(u: User, slug: string, raw: string, hasher: string -> string, perm: string)
    ensures !CheckPassword(Cancelled(u, slug).password, raw, hasher)
    ensures !HasPerm(Cancelled(u, slug), perm)
    ensures FullName(Cancelled(u, slug)) == DeletedUserFullName
    ensures ShortName(Cancelled(u, slug)) == slug
  {
  }

  /** `cancel()` is not idempotent: a second call with another generated
      username yields a different record. */
  lemma CancelNotIdempotent(u: User, slug1: string, slug2: string)
    requires slug1 != slug2
    ensures Cancelled(Cancelled(u, slug1), slug2) != Cancelled(u, slug1)
    ensures Cancelled(Cancelled(u, slug1), slug2) == Cancelled(u, slug2)
  {
  }

  /** `User.cancel`: assigns the fields one after another and saves. */
  method Cancel(u: User, slug: string) returns (saved: User)
    ensures saved == Cancelled(u, slug)
  {
    var c := u;
    c := c.(username := slug);
    c := c.(email := c.username + DefaultEmailDomain);
    c := c.(isActive := false);
    c := c.(fullName := DeletedUserFullName);
    c := c.(bio := "");
    c := c.(token := None);
    c := c.(password := Unusable);
    c := c.(photo := None);
    saved := Save(c);
  }
}
