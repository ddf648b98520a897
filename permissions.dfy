/** `IsOwnerOrAdminPermission` of app/rooms/permissions.py. */
module Permissions {
  import opened Wrappers
  import opened Models

  /** `has_object_permission`: `Some(true)` when the requester is a superuser
      or owns the object; otherwise the method falls off its end and Python
      returns `None`, which the framework reads as a refusal. The object is
      represented by its owner's id, the only attribute the check reads. */
  function HasObjectPermission(requester: User, owner: UserId): (granted: Option<bool>)
    ensures granted == Some(true) <==> requester.isSuperuser || owner == requester.id
    ensures granted != Some(true) ==> granted == None
  {
    if requester.isSuperuser || owner == requester.id then Some(true) else None
  }

  /** Allowed in the framework's sense: the result is truthy. */
  predicate Allowed(granted: Option<bool>) {
    granted.Some? && granted.value
  }

  /** The decision depends only on the superuser flag and on ownership: two
      requests that agree on both get the same answer, and anyone who is
      neither is refused. */
  lemma DecisionDependsOnFlagAndOwnership(u1: User, o1: UserId, u2: User, o2: UserId)
    requires u1.isSuperuser == u2.isSuperuser && (o1 == u1.id) == (o2 == u2.id)
    ensures HasObjectPermission(u1, o1) == HasObjectPermission(u2, o2)
    ensures Allowed(HasObjectPermission(u1, o1)) <==> u1.isSuperuser || o1 == u1.id
  {
  }
}
