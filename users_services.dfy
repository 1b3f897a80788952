/** Account lookup and the photo-URL null guards
    (`tweets2cash/users/services.py`). The user table is a sequence of
    rows; `fold` is the database's case folding used by `__iexact`, and the
    `ORDER BY username` of the user model is code-point order (LexLe). */
module UsersServices {
  import opened Wrappers
  import opened Strings
  import opened UserModels
  import Queries

  const NoMatchMessage: string := "Username or password does not match user."

  /** `a__iexact=b` */
  predicate IExact(a: string, b: string, fold: string -> string)
  {
    fold(a) == fold(b)
  }

  /** `Q(username__iexact=s) | Q(email__iexact=s)` */
  predicate LooseMatch(u: User, s: string, fold: string -> string)
  {
    IExact(u.username, s, fold) || IExact(u.email, s, fold)
  }

  /** `Q(username=s) | Q(email=s)` */
  predicate ExactMatch(u: User, s: string)
  {
    u.username == s || u.email == s
  }

  /** Two different rows match `s` when case is ignored. */
  predicate SeveralLooseMatches(users: seq<User>, s: string, fold: string -> string)
  {
    exists i, j :: 0 <= i < j < |users| && LooseMatch(users[i], s, fold) && LooseMatch(users[j], s, fold)
  }

  /** Row `i` is still a candidate after the lookup's two filters: it
      matches ignoring case, and exactly as well when several rows do. */
  predicate Survives(users: seq<User>, s: string, fold: string -> string, i: nat)
    requires i < |users|
  {
    LooseMatch(users[i], s, fold) && (SeveralLooseMatches(users, s, fold) ==> ExactMatch(users[i], s))
  }

  /** The position, among `idxs`, of the row whose username sorts first. */
  function FirstByUsername(users: seq<User>, idxs: seq<nat>): (k: nat)
    requires |idxs| > 0
    requires forall m :: 0 <= m < |idxs| ==> idxs[m] < |users|
    ensures k in idxs
    ensures forall m :: 0 <= m < |idxs| ==> LexLe(users[k].username, users[idxs[m]].username)
  {
    if |idxs| == 1 then
      LexLeReflexive(users[idxs[0]].username);
      idxs[0]
    else
      var r := FirstByUsername(users, idxs[1..]);
      var h := idxs[0];
      LexLeTotal(users[h].username, users[r].username);
      LexLeReflexive(users[h].username);
      if LexLe(users[h].username, users[r].username) then
        assert forall m :: 1 <= m < |idxs| ==> idxs[m] == idxs[1..][m - 1];
        forall m | 0 <= m < |idxs|
          ensures LexLe(users[h].username, users[idxs[m]].username)
        {
          if m > 0 {
            LexLeTransitive(users[h].username, users[r].username, users[idxs[m]].username);
          }
        }
        h
      else
        assert forall m :: 1 <= m < |idxs| ==> idxs[m] == idxs[1..][m - 1];
        r
  }

  /** The positions left after `filter(iexact | iexact)`, narrowed by
      `filter(exact | exact)` when more than one row matched. */
  function Survivors(users: seq<User>, s: string, fold: string -> string): (ms: seq<nat>)
    ensures forall k :: 0 <= k < |ms| ==> ms[k] < |users| && Survives(users, s, fold, ms[k])
    ensures forall i :: 0 <= i < |users| && Survives(users, s, fold, i) ==> i in ms
  {
    var loose := u => LooseMatch(u, s, fold);
    var qs := Queries.Matches(users, loose);
    Queries.SeveralMatches(users, loose);
    if |qs| > 1 then Queries.Matches(users, u => LooseMatch(u, s, fold) && ExactMatch(u, s)) else qs
  }

  /** `get_user_by_username_or_email`: the position of the account found. */
  function LookupIndex(users: seq<User>, s: string, fold: string -> string): (r: Result<nat, string>)
    ensures r.Ok? ==> r.value < |users| && Survives(users, s, fold, r.value)
    ensures r.Err? <==> forall i :: 0 <= i < |users| ==> !Survives(users, s, fold, i)
    ensures r.Err? ==> r.error == NoMatchMessage
    ensures r.Ok? ==> forall i :: 0 <= i < |users| && Survives(users, s, fold, i) ==>
                        LexLe(users[r.value].username, users[i].username)
  {
    var survivors := Survivors(users, s, fold);
    if |survivors| == 0 then Err(NoMatchMessage) else Ok(FirstByUsername(users, survivors))
  }

  /** A single case-insensitive match is returned even if its case differs. */
  lemma LookupSingleLooseMatch(users: seq<User>, s: string, fold: string -> string, i: nat)
    requires i < |users| && LooseMatch(users[i], s, fold)
    requires forall j :: 0 <= j < |users| && LooseMatch(users[j], s, fold) ==> j == i
    ensures LookupIndex(users, s, fold) == Ok(i)
  {
    assert !SeveralLooseMatches(users, s, fold);
    assert Survives(users, s, fold, i);
  }

  /** Several case-insensitive matches without an exact one: the lookup
      fails, although accounts differing only in case exist. */
  lemma LookupAmbiguousWithoutExact(users: seq<User>, s: string, fold: string -> string, i: nat, j: nat)
    requires i < j < |users| && LooseMatch(users[i], s, fold) && LooseMatch(users[j], s, fold)
    requires forall k :: 0 <= k < |users| ==> !ExactMatch(users[k], s)
    ensures LookupIndex(users, s, fold) == Err(NoMatchMessage)
  {
    assert SeveralLooseMatches(users, s, fold);
  }

  /** An exact match among several case-insensitive ones is found. */
  lemma LookupPrefersExact(users: seq<User>, s: string, fold: string -> string, i: nat)
    requires i < |users| && ExactMatch(users[i], s)
    ensures LookupIndex(users, s, fold).Ok?
    ensures ExactMatch(users[LookupIndex(users, s, fold).value], s) || !SeveralLooseMatches(users, s, fold)
  {
    assert LooseMatch(users[i], s, fold);
    assert Survives(users, s, fold, i);
  }

  /** `get_and_validate_user`: the looked-up account, if `password` checks. */
  function GetAndValidateUser(users: seq<User>, username: string, password: string,
                              fold: string -> string, hasher: string -> string): (r: Result<nat, string>)
    ensures r.Ok? <==> LookupIndex(users, username, fold).Ok? &&
                       CheckPassword(users[LookupIndex(users, username, fold).value].password, password, hasher)
    ensures r.Ok? ==> r == LookupIndex(users, username, fold)
    ensures r.Err? ==> r.error == NoMatchMessage
    ensures r.Ok? ==> users[r.value].password.Hashed?
  {
    match LookupIndex(users, username, fold)
    case Err(m) => Err(m)
    case Ok(i) => if CheckPassword(users[i].password, password, hasher) then Ok(i) else Err(NoMatchMessage)
  }

  /** No password logs into a cancelled account. */
  lemma CancelledAccountNeverAuthenticates(users: seq<User>, i: nat, slug: string, username: string,
                                           password: string, fold: string -> string, hasher: string -> string)
    requires i < |users| && users[i] == Cancelled(users[i], slug)
    ensures GetAndValidateUser(users, username, password, fold, hasher) != Ok(i)
  {
  }

  /** `get_photo_url`: no URL without a photo; otherwise whatever the
      thumbnailer yields (`None` for an image it cannot read). */
  function PhotoUrl(photo: Option<string>, thumbnail: string -> Option<string>): (url: Option<string>)
    ensures (photo.None? || photo.value == "") ==> url.None?
    ensures photo.Some? && photo.value != "" ==> url == thumbnail(photo.value)
  {
    if photo.None? || photo.value == "" then None else thumbnail(photo.value)
  }

  /** `get_user_photo_url`: no URL without a user. */
  function UserPhotoUrl(user: Option<User>, thumbnail: string -> Option<string>): (url: Option<string>)
    ensures user.None? ==> url.None?
    ensures url.Some? ==> user.Some? && user.value.photo.Some? && user.value.photo.value != ""
  {
    if user.None? then None else PhotoUrl(user.value.photo, thumbnail)
  }
}
