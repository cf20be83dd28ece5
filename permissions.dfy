/**
 * The permission classes: pure decisions over the request method, a
 * snapshot of the caller and, for object checks, the object's author.
 */
module Permissions {
  import opened Base
  import opened Models

  datatype Method = GET | HEAD | OPTIONS | POST | PUT | PATCH | DELETE

  /** The read-only methods, `SAFE_METHODS`. */
  predicate IsSafe(m: Method)
  {
    m == GET || m == HEAD || m == OPTIONS
  }

  /** Who sent the request: nobody, or a stored user with its key. */
  datatype Caller = Anonymous | Authenticated(id: nat, user: User) {
    predicate IsAnonymous() { Anonymous? }
    predicate IsAuthenticated() { Authenticated? }
  }

  /** An admin by role or by either flag. */
  predicate AdminCaller(c: Caller)
  {
    c.Authenticated? && (c.user.role == AdminRole || c.user.isSuperuser || c.user.isStaff)
  }

  /** `IsAdminForUsers.has_permission`: only authenticated admins, whatever the method. */
  predicate AdminForUsersAllows(m: Method, c: Caller)
    ensures AdminForUsersAllows(m, c) <==> AdminCaller(c)
    ensures c.Anonymous? ==> !AdminForUsersAllows(m, c)
  {
    !c.IsAnonymous() && IsAdmin(c.user)
  }

  /** `IsAdmin.has_permission`: reads for everyone, writes for authenticated admins. */
  predicate AdminOrReadOnlyAllows(m: Method, c: Caller)
    ensures IsSafe(m) ==> AdminOrReadOnlyAllows(m, c)
    ensures !IsSafe(m) ==> (AdminOrReadOnlyAllows(m, c) <==> AdminCaller(c))
  {
    IsSafe(m) || (c.IsAuthenticated() && IsAdmin(c.user))
  }

  /**
   * `IsAdminModeratorAuthorOrReadOnly.has_object_permission`: reads for
   * everyone; writes for the object's author, admins and moderators.
   */
  predicate ObjectAllows(m: Method, c: Caller, author: nat)
    ensures IsSafe(m) ==> ObjectAllows(m, c, author)
    ensures !IsSafe(m) ==> (ObjectAllows(m, c, author) <==>
      c.Authenticated? && (c.id == author || AdminCaller(c) || c.user.role == ModeratorRole))
    ensures (!IsSafe(m) && c.Authenticated? && c.id != author && c.user.role == UserRole &&
             !c.user.isSuperuser && !c.user.isStaff) ==> !ObjectAllows(m, c, author)
  {
    IsSafe(m) || (c.IsAuthenticated() && (c.id == author || IsAdmin(c.user) || IsModerator(c.user)))
  }

  /** `IsAuthenticatedOrReadOnly`, the framework's class the review and comment endpoints add. */
  predicate AuthenticatedOrReadOnlyAllows(m: Method, c: Caller)
    ensures IsSafe(m) ==> AuthenticatedOrReadOnlyAllows(m, c)
    ensures !IsSafe(m) ==> (AuthenticatedOrReadOnlyAllows(m, c) <==> !c.Anonymous?)
  {
    IsSafe(m) || c.IsAuthenticated()
  }

  /** `IsAuthenticated`, the framework's class on the `me` endpoint. */
  predicate AuthenticatedAllows(c: Caller)
    ensures AuthenticatedAllows(c) <==> !c.Anonymous?
    ensures forall m: Method :: AuthenticatedAllows(c) ==> AuthenticatedOrReadOnlyAllows(m, c)
  {
    c.IsAuthenticated()
  }

  /**
   * The review and comment endpoints: both classes must allow, and the
   * object check runs only when a stored object is addressed.
   */
  predicate ReviewEndpointAllows(m: Method, c: Caller, target: Option<nat>)
    ensures IsSafe(m) ==> ReviewEndpointAllows(m, c, target)
    ensures target.None? ==> (ReviewEndpointAllows(m, c, target) <==> IsSafe(m) || c.Authenticated?)
    ensures target.Some? && !IsSafe(m) ==> (ReviewEndpointAllows(m, c, target) <==>
      c.Authenticated? && (c.id == target.value || AdminCaller(c) || c.user.role == ModeratorRole))
  {
    AuthenticatedOrReadOnlyAllows(m, c) && (target.None? || ObjectAllows(m, c, target.value))
  }

  /** A refusal is "not authenticated" for an anonymous caller and "forbidden" otherwise. */
  function Denied(c: Caller): (e: Error)
    ensures e == NotAuthenticated <==> c.Anonymous?
    ensures c.Authenticated? ==> e == PermissionDenied
  {
    if c.IsAnonymous() then NotAuthenticated else PermissionDenied
  }
}
