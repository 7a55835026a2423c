/**
 * The object and view permissions of core/permissions.py, as boolean
 * decisions over the request's HTTP method, the request's user and the
 * object asked for.
 */
module CorePermissions {
  import opened Wrappers

  type UserId = int

  /** An authenticated user; an anonymous request has no user. */
  datatype User = User(id: UserId, isStaff: bool)

  /** The object a permission is checked against: a user itself, an object
      whose `user` attribute names a user, or an object without one. */
  datatype Target = UserTarget(id: UserId) | OwnedTarget(owner: UserId) | PlainTarget

  /** The read-only HTTP methods. */
  const SafeMethods: set<string> := {"GET", "HEAD", "OPTIONS"}

  predicate IsSafe(verb: string) {
    verb in SafeMethods
  }

  /** The requester owns the object when it is the requester's own user
      record or an object whose `user` is the requester; nobody owns
      anything when there is no requester. */
  predicate Owns(user: Option<User>, target: Target) {
    user.Some? &&
    match target
    case UserTarget(id) => id == user.value.id
    case OwnedTarget(owner) => owner == user.value.id
    case PlainTarget => false
  }

  /** `IsAdminOrReadOnly.has_permission`. */
  predicate IsAdminOrReadOnly(verb: string, user: Option<User>) {
    if IsSafe(verb) then true else user.Some? && user.value.isStaff
  }

  /** `IsOwnerOnly.has_object_permission`: the method plays no part. */
  predicate IsOwnerOnly(verb: string, user: Option<User>, target: Target) {
    Owns(user, target)
  }

  /** `IsOwnerOrReadOnly.has_object_permission`. */
  predicate IsOwnerOrReadOnly(verb: string, user: Option<User>, target: Target) {
    if IsSafe(verb) then true else Owns(user, target)
  }

  /** IsAdminOrReadOnly: every safe method passes whoever asks; any other
      method passes exactly when there is a user and it is staff. */
  lemma AdminOrReadOnlyRule(verb: string, user: Option<User>)
    ensures verb in {"GET", "HEAD", "OPTIONS"} ==> IsAdminOrReadOnly(verb, user)
    ensures !IsSafe(verb) ==> (IsAdminOrReadOnly(verb, user) <==> user.Some? && user.value.isStaff)
  {
  }

  /** IsOwnerOnly holds exactly for the user itself or an object whose
      `user` is the requester, whatever the method. */
  lemma OwnerOnlyIsOwnership(verb: string, verb': string, user: Option<User>, target: Target)
    ensures IsOwnerOnly(verb, user, target) == IsOwnerOnly(verb', user, target)
    ensures IsOwnerOnly(verb, user, target) <==>
      user.Some? && (target == UserTarget(user.value.id) || target == OwnedTarget(user.value.id))
  {
  }

  /** IsOwnerOrReadOnly: every safe method passes for any object; for
      writes it is IsOwnerOnly; and IsOwnerOnly implies it for every method. */
  lemma OwnerOrReadOnlyRule(verb: string, user: Option<User>, target: Target)
    ensures verb in {"GET", "HEAD", "OPTIONS"} ==> IsOwnerOrReadOnly(verb, user, target)
    ensures !IsSafe(verb) ==> (IsOwnerOrReadOnly(verb, user, target) <==> IsOwnerOnly(verb, user, target))
    ensures IsOwnerOnly(verb, user, target) ==> IsOwnerOrReadOnly(verb, user, target)
  {
  }

  /** The cases of the permission tests: a staff POST passes and a
      non-staff one does not; the owner may PUT an owned object and another
      user may not. */
  lemma PermissionExamples(staff: User, regular: User, other: User)
    requires staff.isStaff && !regular.isStaff && regular.id != other.id
    ensures IsAdminOrReadOnly("POST", Some(staff))
    ensures !IsAdminOrReadOnly("POST", Some(regular))
    ensures IsOwnerOnly("GET", Some(regular), OwnedTarget(regular.id))
    ensures !IsOwnerOnly("GET", Some(other), OwnedTarget(regular.id))
    ensures IsOwnerOrReadOnly("PUT", Some(regular), OwnedTarget(regular.id))
    ensures !IsOwnerOrReadOnly("PUT", Some(other), OwnedTarget(regular.id))
  {
    assert "POST" !in SafeMethods;
    assert "PUT" !in SafeMethods;
  }
}
