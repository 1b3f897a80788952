/** `IsTheSameUser.has_object_permission` (`tweets2cash/users/permissions.py`). */
module UsersPermissions {
  import opened Wrappers
  import opened UserModels

  /** Granted only for an object, an authenticated requester, and equal
      primary keys. */
  predicate HasObjectPermission(requester: Requester, obj: Option<User>): (granted: bool)
    ensures granted ==> obj.Some? && requester.Member?
    ensures obj.Some? && requester.Member? ==> (granted <==> requester.user.id == obj.value.id)
  {
    obj.Some? && requester.Member? && requester.user.id == obj.value.id
  }

  /** The decision does not depend on the superuser flag of the requester. */
  lemma PermissionIgnoresSuperuser(u: User, obj: Option<User>, flag: bool)
    ensures HasObjectPermission(Member(u.(isSuperuser := flag)), obj) == HasObjectPermission(Member(u), obj)
    ensures !HasObjectPermission(Anonymous, obj)
    ensures !HasObjectPermission(Member(u), None)
  {
  }
}
