/** `UserDetailRateThrottle` and `UserUpdateRateThrottle`
    (`tweets2cash/users/throttling.py`), attached to the users viewset. */
module UsersThrottling {
  import opened Throttling

  const UserDetail: Binding := Binding("user-detail", ["by_username", "retrieve"], Global)
  const UserUpdate: Binding := Binding("user-update", ["update", "partial_update"], PerUser)

  /** `UsersViewSet.throttle_classes`. */
  const UsersThrottles: seq<Binding> := [UserDetail, UserUpdate]

  /** Detail reads share one global budget, updates one budget per user,
      and every other action of the viewset is not throttled. */
  lemma UsersScopes(action: string)
    ensures ScopesFor(UsersThrottles, action) ==
              if action in ["by_username", "retrieve"] then ["user-detail"]
              else if action in ["update", "partial_update"] then ["user-update"]
              else []
    ensures UserDetail.identity == Global && UserUpdate.identity == PerUser
  {
    assert UsersThrottles[1..] == [UserUpdate];
    assert UsersThrottles[1..][1..] == [];
  }

  /** No action falls under both scopes. */
  lemma ScopesDisjoint()
    ensures Disjoint(UserDetail, UserUpdate) && Disjoint(UserUpdate, UserDetail)
    ensures forall a :: |ScopesFor(UsersThrottles, a)| <= 1
  {
    forall a
      ensures |ScopesFor(UsersThrottles, a)| <= 1
    {
      UsersScopes(a);
    }
  }
}
