/**
 * The permission class IsAdminAllOrAuthenticatedReadOnly: read-only requests need an
 * authenticated user, every other request needs a staff user. The `upload-image` action
 * of the bus viewset uses DRF's IsAdminUser instead.
 */
module Permissions {
  import opened Wrappers

  /** The two flags of `request.user` the permission reads. */
  datatype User = User(isAuthenticated: bool, isStaff: bool)

  /** An anonymous request's user: neither authenticated nor staff. */
  const Anonymous: User := User(false, false)

  /** DRF's SAFE_METHODS; HTTP method names are compared exactly, in upper case. */
  const SafeMethods: seq<string> := ["GET", "HEAD", "OPTIONS"]

  predicate IsSafe(verb: string): (r: bool)
    ensures r <==> verb == "GET" || verb == "HEAD" || verb == "OPTIONS"
  {
    verb in SafeMethods
  }

  /**
   * `has_permission`: `None` stands for a request without a user object.
   * Safe methods need an authenticated user, the others a staff user.
   */
  predicate HasPermission(verb: string, user: Option<User>)
  {
    if IsSafe(verb) then user.Some? && user.value.isAuthenticated
    else user.Some? && user.value.isStaff
  }

  /** DRF's IsAdminUser, used for `upload-image`: a staff user, whatever the method. */
  predicate IsAdminUser(user: Option<User>) {
    user.Some? && user.value.isStaff
  }

  /** Reading is allowed exactly to authenticated users. */
  lemma SafeNeedsAuthentication(verb: string, user: Option<User>)
    requires verb == "GET" || verb == "HEAD" || verb == "OPTIONS"
    ensures HasPermission(verb, user) <==> user.Some? && user.value.isAuthenticated
  {
  }

  /** Writing is allowed exactly to staff users, as for IsAdminUser. */
  lemma UnsafeNeedsStaff(verb: string, user: Option<User>)
    requires !IsSafe(verb)
    ensures HasPermission(verb, user) <==> user.Some? && user.value.isStaff
    ensures HasPermission(verb, user) <==> IsAdminUser(user)
  {
  }

  /** The write methods the viewsets serve are not safe. */
  lemma WriteMethodsAreUnsafe()
    ensures !IsSafe("POST") && !IsSafe("PUT") && !IsSafe("PATCH") && !IsSafe("DELETE")
  {
  }

  /** No verb is open to an anonymous request, with or without a user object. */
  lemma AnonymousDenied(verb: string)
    ensures !HasPermission(verb, None)
    ensures !HasPermission(verb, Some(Anonymous))
  {
  }

  /** An authenticated user without staff rights may use exactly the safe methods. */
  lemma ReaderMayOnlyRead(verb: string, user: User)
    requires user.isAuthenticated && !user.isStaff
    ensures HasPermission(verb, Some(user)) <==> IsSafe(verb)
  {
  }

  /** An authenticated staff user may use every verb. */
  lemma StaffMayDoEverything(verb: string, user: User)
    requires user.isAuthenticated && user.isStaff
    ensures HasPermission(verb, Some(user))
  {
  }

  /** The decision depends on the method only through whether it is safe. */
  lemma DecisionDependsOnlyOnSafety(v1: string, v2: string, user: Option<User>)
    requires IsSafe(v1) == IsSafe(v2)
    ensures HasPermission(v1, user) == HasPermission(v2, user)
  {
  }
}
