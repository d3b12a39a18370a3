/**
 * The three permission classes of the API as predicates over the request method, the caller
 * and, for the object-level check, the author of the object.
 */
module Permissions {
  import opened Wrappers
  import opened Errors
  import opened UsersModels

  datatype Method = Get | Head | Options | Post | Put | Patch | Delete

  /** `SAFE_METHODS`: the methods without side effects. */
  predicate IsSafe(m: Method) {
    m == Get || m == Head || m == Options
  }

  /** `request.user`: the anonymous user, or an authenticated account with its stored row. */
  datatype Principal = Anonymous | Member(id: UserId, user: User)

  /**
   * The caller as token authentication resolves it: a request without a token, or with a token
   * for an id that has no row, is anonymous.
   */
  function PrincipalOf(users: map<UserId, User>, caller: Option<UserId>): Principal {
    if caller.Some? && caller.value in users then Member(caller.value, users[caller.value]) else Anonymous
  }

  /** A refused permission check: 401 for an anonymous caller, 403 for an authenticated one. */
  function Denied(p: Principal): ApiError {
    if p.Anonymous? then NotAuthenticated else PermissionDenied
  }

  /**
   * Who the caller is depends on the caller's own row and nothing else: two user tables that
   * agree on that row resolve the caller alike, whatever else differs. An authenticated caller
   * carries the current row of its own account, and a refusal answers 401 exactly when the
   * request names no account.
   */
  lemma CallerResolution(users: map<UserId, User>, users': map<UserId, User>, caller: Option<UserId>)
    requires caller.Some? ==> (caller.value in users <==> caller.value in users')
    requires caller.Some? && caller.value in users ==> users'[caller.value] == users[caller.value]
    ensures PrincipalOf(users', caller) == PrincipalOf(users, caller)
    ensures PrincipalOf(users, caller).Member? ==>
      caller.Some? && PrincipalOf(users, caller) == Member(caller.value, users[caller.value])
    ensures Denied(PrincipalOf(users, caller)) == NotAuthenticated <==> caller.None? || caller.value !in users
  {
  }

  predicate IsAuthenticated(p: Principal) {
    p.Member?
  }

  predicate CallerIsAdmin(p: Principal) {
    p.Member? && IsAdmin(p.user)
  }

  predicate CallerIsModerator(p: Principal) {
    p.Member? && IsModerator(p.user)
  }

  /** `AdminOrMyselfOnly.has_permission`: the method plays no part. */
  predicate AdminOrMyselfOnly(m: Method, p: Principal) {
    IsAuthenticated(p) && CallerIsAdmin(p)
  }

  /** `AdminOrReadOnly.has_permission`. */
  predicate AdminOrReadOnly(m: Method, p: Principal) {
    IsSafe(m) || (IsAuthenticated(p) && CallerIsAdmin(p))
  }

  /** `IsAuthenticatedOrReadOnly.has_permission`, inherited by `AdminOrModeratorOrAuthor`. */
  predicate IsAuthenticatedOrReadOnly(m: Method, p: Principal) {
    IsSafe(m) || IsAuthenticated(p)
  }

  /** `AdminOrModeratorOrAuthor.has_object_permission` for an object written by `author`. */
  predicate AdminOrModeratorOrAuthorObject(m: Method, p: Principal, author: UserId) {
    IsSafe(m) || (IsAuthenticated(p) && (CallerIsAdmin(p) || CallerIsModerator(p) || p.id == author))
  }

  /** What a detail action on a review or comment checks: the collection check, then the object check. */
  predicate AdminOrModeratorOrAuthorDetail(m: Method, p: Principal, author: UserId) {
    IsAuthenticatedOrReadOnly(m, p) && AdminOrModeratorOrAuthorObject(m, p, author)
  }

  /** `AdminOrMyselfOnly` grants exactly the authenticated admins, whatever the method: no one else may even read. */
  lemma AdminOrMyselfOnlyTruthTable(m: Method, p: Principal)
    ensures AdminOrMyselfOnly(m, p) <==> p.Member? && IsAdmin(p.user)
    ensures !CallerIsAdmin(p) ==> !AdminOrMyselfOnly(Get, p)
  {
  }

  /** `AdminOrReadOnly` grants every safe method, and an unsafe one only to an authenticated admin. */
  lemma AdminOrReadOnlyTruthTable(m: Method, p: Principal)
    ensures IsSafe(m) ==> AdminOrReadOnly(m, p)
    ensures !IsSafe(m) ==> (AdminOrReadOnly(m, p) <==> p.Member? && IsAdmin(p.user))
  {
  }

  /**
   * For a review or comment, reading is open; writing needs an authenticated admin, moderator or
   * the author. The inherited collection check adds nothing to the object check but runs first,
   * so an anonymous write is turned away before any object is looked at.
   */
  lemma ObjectPermissionTruthTable(m: Method, p: Principal, author: UserId)
    ensures IsSafe(m) ==> AdminOrModeratorOrAuthorDetail(m, p, author)
    ensures !IsSafe(m) ==>
      (AdminOrModeratorOrAuthorDetail(m, p, author) <==>
         p.Member? && (IsAdmin(p.user) || IsModerator(p.user) || p.id == author))
    ensures AdminOrModeratorOrAuthorDetail(m, p, author) <==> AdminOrModeratorOrAuthorObject(m, p, author)
    ensures !IsSafe(m) ==> !IsAuthenticatedOrReadOnly(m, Anonymous)
  {
  }

  /**
   * `p2` is the same caller as `p1`, or `p1` was anonymous, and `p2` holds every privilege
   * `p1` holds; a moderator may have become an admin.
   */
  predicate AtLeastAsPrivileged(p2: Principal, p1: Principal) {
    (p1.Member? ==> p2.Member? && p2.id == p1.id)
    && (CallerIsAdmin(p1) ==> CallerIsAdmin(p2))
    && (CallerIsModerator(p1) ==> CallerIsAdmin(p2) || CallerIsModerator(p2))
  }

  /** No policy revokes a grant when the caller gains privileges. */
  lemma PermissionsAreMonotone(m: Method, p1: Principal, p2: Principal, author: UserId)
    requires AtLeastAsPrivileged(p2, p1)
    ensures AdminOrMyselfOnly(m, p1) ==> AdminOrMyselfOnly(m, p2)
    ensures AdminOrReadOnly(m, p1) ==> AdminOrReadOnly(m, p2)
    ensures AdminOrModeratorOrAuthorDetail(m, p1, author) ==> AdminOrModeratorOrAuthorDetail(m, p2, author)
  {
  }

  /** Turning on `is_admin` (by role, staff flag or superuser flag) is a gain of privilege. */
  lemma PromotionGainsPrivilege(id: UserId, u: User)
    ensures AtLeastAsPrivileged(Member(id, u.(role := AdminRole)), Member(id, u))
    ensures AtLeastAsPrivileged(Member(id, u.(isStaff := true)), Member(id, u))
    ensures AtLeastAsPrivileged(Member(id, u.(isSuperuser := true)), Member(id, u))
    ensures AtLeastAsPrivileged(Member(id, u), Anonymous)
  {
  }
}
