/**
 * The `User` entity of the users application: its role choices, its stored fields, the two
 * derived role predicates and the uniqueness of usernames and emails.
 */
module UsersModels {
  import opened Wrappers

  type UserId = nat

  /** The three entries of `ROLE_CHOICES`. */
  datatype Role = UserRole | ModeratorRole | AdminRole

  const RoleChoices: seq<Role> := [UserRole, ModeratorRole, AdminRole]

  /** The string stored in the `role` column for each choice. */
  function RoleValue(r: Role): string {
    match r
    case UserRole => "user"
    case ModeratorRole => "moderator"
    case AdminRole => "admin"
  }

  /** Validation of a submitted `role` string against the choices. */
  function ParseRole(s: string): (r: Option<Role>)
    ensures r.Some? ==> RoleValue(r.value) == s
    ensures r.None? ==> forall role: Role :: RoleValue(role) != s
  {
    if s == "user" then Some(UserRole)
    else if s == "moderator" then Some(ModeratorRole)
    else if s == "admin" then Some(AdminRole)
    else None
  }

  lemma RoleValueRoundTrip(r: Role)
    ensures ParseRole(RoleValue(r)) == Some(r)
  {
  }

  function Max(a: nat, b: nat): nat {
    if a < b then b else a
  }

  /** The length of the longest string in a non-empty list, as Python's `max(len(x) for x in xs)`. */
  function LongestLength(names: seq<string>): (m: nat)
    requires |names| > 0
    ensures forall i :: 0 <= i < |names| ==> |names[i]| <= m
    ensures exists i :: 0 <= i < |names| && |names[i]| == m
  {
    if |names| == 1 then |names[0]|
    else
      var rest := LongestLength(names[1..]);
      assert forall i :: 1 <= i < |names| ==> names[i] == names[1..][i - 1];
      Max(|names[0]|, rest)
  }

  /** The stored values of `ROLE_CHOICES`, in declaration order: exactly the strings `role` accepts. */
  function RoleValues(): (vs: seq<string>)
    ensures vs == ["user", "moderator", "admin"]
    ensures forall s :: s in vs <==> ParseRole(s).Some?
  {
    seq(|RoleChoices|, i requires 0 <= i < |RoleChoices| => RoleValue(RoleChoices[i]))
  }

  /** `max_length` of the `role` column: the length of the longest choice. */
  function RoleMaxLength(): nat {
    LongestLength(RoleValues())
  }

  /** Every role value fits the column, and the column is exactly as wide as "moderator". */
  lemma RoleColumnFitsEveryChoice()
    ensures RoleMaxLength() == |RoleValue(ModeratorRole)| == 9
    ensures forall r: Role :: |RoleValue(r)| <= RoleMaxLength()
  {
    var vs := RoleValues();
    assert vs[0] == "user" && vs[1] == "moderator" && vs[2] == "admin";
    var m := RoleMaxLength();
    assert |vs[1]| <= m;
    var i :| 0 <= i < |vs| && |vs[i]| == m;
    assert m == 9;
    forall r: Role ensures |RoleValue(r)| <= m {
      match r
      case UserRole => assert |vs[0]| <= m;
      case ModeratorRole =>
      case AdminRole => assert |vs[2]| <= m;
    }
  }

  /** The stored fields of a user that this model reads or writes. */
  datatype User = User(
    username: string,
    email: string,
    firstName: string,
    lastName: string,
    bio: Option<string>,
    role: Role,
    isStaff: bool,
    isSuperuser: bool,
    confirmationCode: Option<string>)

  /** `User.is_moderator`. */
  predicate IsModerator(u: User) {
    u.role == ModeratorRole
  }

  /** `User.is_admin`: the admin role, or either Django staff flag. */
  predicate IsAdmin(u: User) {
    u.role == AdminRole || u.isSuperuser || u.isStaff
  }

  /** `is_moderator` compares the stored role string with 'moderator' and nothing else. */
  lemma ModeratorIffRoleValue(u: User)
    ensures IsModerator(u) <==> RoleValue(u.role) == "moderator"
    ensures IsAdmin(u) <==> RoleValue(u.role) == "admin" || u.isSuperuser || u.isStaff
  {
  }

  /** An admin-role user is never a moderator; a staff or superuser account is an admin whatever its role. */
  lemma AdminRoleExcludesModerator(u: User)
    ensures u.role == AdminRole ==> IsAdmin(u) && !IsModerator(u)
    ensures u.isStaff || u.isSuperuser ==> IsAdmin(u)
    ensures IsModerator(u) && !u.isStaff && !u.isSuperuser ==> !IsAdmin(u)
  {
  }

  /** The two predicates overlap: a staff account with role 'moderator' is both. */
  lemma StaffModeratorIsBoth(u: User)
    requires u.role == ModeratorRole && u.isStaff
    ensures IsAdmin(u) && IsModerator(u)
  {
  }

  /**
   * A row as `User.objects.get_or_create(username=…, email=…)` inserts it: the role takes its
   * default 'user', the code is null and neither staff flag is set.
   */
  function NewUser(username: string, email: string): (u: User)
    ensures u.username == username && u.email == email
    ensures u.role == UserRole && u.confirmationCode == None
    ensures !IsAdmin(u) && !IsModerator(u)
  {
    User(username, email, "", "", None, UserRole, false, false, None)
  }

  /** `unique=True` on `username`. */
  ghost predicate UsernamesUnique(users: map<UserId, User>) {
    forall a, b :: a in users && b in users && a != b ==> users[a].username != users[b].username
  }

  /** `unique=True` on `email`. */
  ghost predicate EmailsUnique(users: map<UserId, User>) {
    forall a, b :: a in users && b in users && a != b ==> users[a].email != users[b].email
  }

  /** `confirmation_code` is nullable, may be blank and holds at most `max` characters. */
  predicate CodeFits(u: User, max: nat) {
    u.confirmationCode.None? || |u.confirmationCode.value| <= max
  }

  /** The user whose `username` is `name`, as `User.objects.get(username=name)`. */
  function LookupUsername(users: map<UserId, User>, name: string): (r: Option<UserId>)
    requires UsernamesUnique(users)
    ensures r.Some? ==> r.value in users && users[r.value].username == name
    ensures r.None? ==> forall k :: k in users ==> users[k].username != name
  {
    if exists k :: k in users && users[k].username == name then
      var k :| k in users && users[k].username == name; Some(k)
    else None
  }

  /** Whether some user has address `email`, as `User.objects.filter(email=email).exists()`. */
  predicate EmailTaken(users: map<UserId, User>, email: string) {
    exists k :: k in users && users[k].email == email
  }
}
