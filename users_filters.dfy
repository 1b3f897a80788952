/** `UserFilterBackend.filter_queryset` (`tweets2cash/users/filters.py`). */
module UsersFilters {
  import opened UserModels

  /** The requester's fields as the filter reads them; an anonymous
      requester is not a superuser and has the empty username. */
  predicate RequesterIsSuperuser(r: Requester)
  {
    r.Member? && r.user.isSuperuser
  }

  function RequesterUsername(r: Requester): string
  {
    if r.Member? then r.user.username else ""
  }

  predicate NoDuplicates(s: seq<User>)
  {
    forall i, j :: 0 <= i < j < |s| ==> s[i] != s[j]
  }

  /** `distinct()`: the first occurrence of every row, in order. */
  function Distinct(s: seq<User>): (r: seq<User>)
    ensures NoDuplicates(r)
    ensures forall x :: x in r <==> x in s
    ensures NoDuplicates(s) ==> r == s
  {
    if |s| == 0 then []
    else
      var n := |s| - 1;
      var front := Distinct(s[..n]);
      assert forall x :: x in s <==> x in s[..n] || x == s[n];
      if s[n] in front then front else front + [s[n]]
  }

  /** The rows whose username is `name`, in order. */
  function WithUsername(qs: seq<User>, name: string): (r: seq<User>)
    ensures forall u :: u in r <==> u in qs && u.username == name
  {
    if |qs| == 0 then []
    else if qs[0].username == name then [qs[0]] + WithUsername(qs[1..], name)
    else WithUsername(qs[1..], name)
  }

  /** A superuser sees every row; anyone else only rows with their own
      username. The result never repeats a row and never adds one. */
  function FilterQueryset(requester: Requester, qs: seq<User>): (r: seq<User>)
    ensures NoDuplicates(r)
    ensures forall u :: u in r ==> u in qs
    ensures RequesterIsSuperuser(requester) ==> forall u :: u in qs ==> u in r
    ensures RequesterIsSuperuser(requester) && NoDuplicates(qs) ==> r == qs
    ensures !RequesterIsSuperuser(requester) ==>
              forall u :: u in r <==> u in qs && u.username == RequesterUsername(requester)
  {
    var filtered := if RequesterIsSuperuser(requester) then qs else WithUsername(qs, RequesterUsername(requester));
    Distinct(filtered)
  }

  /** Every row a normal user sees carries their username. */
  lemma NormalUserSeesOnlyThemself(requester: Requester, qs: seq<User>, u: User)
    requires requester.Member? && !requester.user.isSuperuser
    requires u in FilterQueryset(requester, qs)
    ensures u.username == requester.user.username
  {
  }
}
