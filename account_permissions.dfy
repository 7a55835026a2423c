/**
 * The profile permission of accounts/permissions.py: anyone may read, only
 * the owner may write.
 */
module AccountPermissions {
  import opened Wrappers
  import opened CorePermissions

  /** `IsOwnerOrReadOnly.has_object_permission` of the accounts app. */
  predicate ProfileOwnerOrReadOnly(verb: string, user: Option<User>, target: Target) {
    if IsSafe(verb) then true
    else
      user.Some? &&
      match target
      case UserTarget(id) => id == user.value.id
      case OwnedTarget(owner) => owner == user.value.id
      case PlainTarget => false
  }

  /** Reads are always allowed; a write is allowed exactly to the user
      itself or to the `user` of the object, and an object without a
      `user` that is not the requester is refused. */
  lemma ProfileWriteRule(verb: string, user: Option<User>, target: Target)
    ensures IsSafe(verb) ==> ProfileOwnerOrReadOnly(verb, user, target)
    ensures !IsSafe(verb) ==>
      (ProfileOwnerOrReadOnly(verb, user, target) <==>
       user.Some? && (target == UserTarget(user.value.id) || target == OwnedTarget(user.value.id)))
    ensures target.PlainTarget? ==> (ProfileOwnerOrReadOnly(verb, user, target) <==> IsSafe(verb))
  {
  }

  /** The accounts permission and the core IsOwnerOrReadOnly decide every
      request alike. */
  lemma AgreesWithCore(verb: string, user: Option<User>, target: Target)
    ensures ProfileOwnerOrReadOnly(verb, user, target) == IsOwnerOrReadOnly(verb, user, target)
  {
  }
}
