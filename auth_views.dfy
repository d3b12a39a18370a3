/**
 * The account views: signup, token exchange, the caller's own profile and the admin's user
 * deletion. Each is a step on the database and, for signup, the mail transport.
 */
module AuthViews {
  import opened Wrappers
  import opened Config
  import opened Errors
  import opened UsersModels
  import opened ReviewsModels
  import opened Permissions
  import opened Serializers
  import opened Store
  import opened Utils

  /** What `get_or_create(username=…, email=…)` meets, with the error its IntegrityError branch picks. */
  datatype SignupCase = ExistingPair(id: UserId) | TakenEmail | TakenUsername | NewPair

  function ClassifySignup(users: map<UserId, User>, username: string, email: string): (c: SignupCase)
    requires UsernamesUnique(users)
    ensures c.ExistingPair? <==> exists k :: k in users && users[k].username == username && users[k].email == email
    ensures c.ExistingPair? ==> c.id in users && users[c.id].username == username && users[c.id].email == email
    ensures c == TakenEmail <==>
      EmailTaken(users, email) && !exists k :: k in users && users[k].username == username && users[k].email == email
    ensures c == TakenUsername <==>
      !EmailTaken(users, email) && exists k :: k in users && users[k].username == username
    ensures c == NewPair <==>
      !EmailTaken(users, email) && forall k :: k in users ==> users[k].username != username
  {
    match LookupUsername(users, username)
    case Some(k) =>
      if users[k].email == email then ExistingPair(k)
      else if EmailTaken(users, email) then TakenEmail
      else TakenUsername
    case None =>
      if EmailTaken(users, email) then TakenEmail else NewPair
  }

  /**
   * A partial collision never merges into an existing account: when the username belongs to one
   * user and the email to another, or to nobody, signup is refused.
   */
  lemma PartialCollisionIsRefused(users: map<UserId, User>, k: UserId, username: string, email: string)
    requires UsernamesUnique(users) && EmailsUnique(users)
    requires k in users && (users[k].username == username) != (users[k].email == email)
    ensures ClassifySignup(users, username, email) == TakenEmail || ClassifySignup(users, username, email) == TakenUsername
    ensures users[k].email == email ==> ClassifySignup(users, username, email) == TakenEmail
  {
  }

  /** Some account has exactly this username and email and holds `code`. */
  predicate HoldsCode(users: map<UserId, User>, username: string, email: string, code: string) {
    exists k :: k in users && users[k].username == username && users[k].email == email
      && users[k].confirmationCode == Some(code)
  }

  /**
   * `RegisterUserAPIView.post`: validate, `get_or_create` the exact (username, email) pair, then
   * issue a code. An exact repeat creates nothing and re-issues a code; a partial collision
   * answers 400 naming the email if it is taken, else the username, and sends nothing.
   */
  method Signup(db: Database, outbox: Outbox, username: Option<string>, email: Option<string>,
                code: string, delivered: bool)
    returns (r: Result<(string, string), ApiError>)
    requires db.Valid()
    requires |code| == db.settings.codeLength
    modifies db, outbox
    ensures db.Valid()
    ensures OnlyUsersDiffer(old(db.Snapshot()), db.Snapshot())
    ensures ValidateSignup(db.settings, username, email).Failure? ==>
      r == Failure(ValidateSignup(db.settings, username, email).error)
      && db.users == old(db.users) && outbox.sent == old(outbox.sent)
    ensures ValidateSignup(db.settings, username, email).Success? ==>
      var (u, e) := (username.value, email.value);
      var c := ClassifySignup(old(db.users), u, e);
      && (c == TakenEmail ==> r == Failure(EmailExists) && db.users == old(db.users) && outbox.sent == old(outbox.sent))
      && (c == TakenUsername ==> r == Failure(UsernameExists) && db.users == old(db.users) && outbox.sent == old(outbox.sent))
      && (c.ExistingPair? ==>
            db.users == old(db.users)[c.id := old(db.users)[c.id].(confirmationCode := Some(code))])
      && (c == NewPair ==>
            old(db.nextId) !in old(db.users)
            && db.users == old(db.users)[old(db.nextId) := NewUser(u, e).(confirmationCode := Some(code))])
      && (c.ExistingPair? || c == NewPair ==>
            && (delivered ==> r == Success((u, e)) && outbox.sent == old(outbox.sent) + [ConfirmationMail(db.settings, e, code)])
            && (!delivered ==> r == Failure(MailDeliveryFailed) && outbox.sent == old(outbox.sent)))
    ensures r.Success? ==> HoldsCode(db.users, username.value, email.value, code)
  {
    var v := ValidateSignup(db.settings, username, email);
    if v.Failure? {
      return Failure(v.error);
    }
    var (u, e) := v.value;
    var c := ClassifySignup(db.users, u, e);
    if c == TakenEmail {
      return Failure(EmailExists);
    } else if c == TakenUsername {
      return Failure(UsernameExists);
    } else if c == NewPair {
      var id := db.InsertUser(NewUser(u, e));
      assert db.users[id].username == u;
    } else {
      assert db.users[c.id].username == u;
    }
    var issued := CreateAndSendCode(db, outbox, u, code, delivered);
    if issued.Failure? {
      return Failure(issued.error);
    }
    assert db.users[issued.value].email == e;
    r := Success((u, e));
  }

  /**
   * `ObtainTokenView.post`: validate (404 for an unknown user, 400 for a wrong code), then issue
   * an access token for the user and clear the stored code to '', saving only that field.
   */
  method ObtainToken(db: Database, username: Option<string>, code: Option<string>)
    returns (r: Result<Token, ApiError>)
    requires db.Valid()
    modifies db
    ensures db.Valid() && db.nextId == old(db.nextId)
    ensures OnlyUsersDiffer(old(db.Snapshot()), db.Snapshot())
    ensures var v := ValidateTokenRequest(db.settings, old(db.users), username, code);
      && (v.Failure? ==> r == Failure(v.error) && db.users == old(db.users))
      && (v.Success? ==>
            r == Success(AccessToken(v.value))
            && db.users == old(db.users)[v.value := old(db.users)[v.value].(confirmationCode := Some(""))])
  {
    var v := ValidateTokenRequest(db.settings, db.users, username, code);
    if v.Failure? {
      return Failure(v.error);
    }
    var id := v.value;
    var user := db.users[id];
    if user.confirmationCode.None? || user.confirmationCode.value == "" {
      return Failure(CompleteSignupFirst);
    }
    var cleared := user.(confirmationCode := Some(""));
    ReplaceUserKeepsConsistency(db.Snapshot(), id, cleared);
    db.users := db.users[id := cleared];
    r := Success(AccessToken(id));
  }

  /** The access token `RefreshToken.for_user` issues, bound to the user's identity. */
  datatype Token = AccessToken(user: UserId)

  /** The two requests `/users/me` accepts. */
  datatype MeRequest = GetMe | PatchMe(patch: UserPatch)

  /**
   * `UserViewSet.retrieve_patch_me`: only authentication is required. GET shows the caller's
   * profile; PATCH applies a validated partial update with `role` forced back to its old value.
   */
  method RetrievePatchMe(db: Database, caller: Option<UserId>, request: MeRequest)
    returns (r: Result<Profile, ApiError>)
    requires db.Valid()
    modifies db
    ensures db.Valid() && db.nextId == old(db.nextId)
    ensures OnlyUsersDiffer(old(db.Snapshot()), db.Snapshot())
    ensures var p := PrincipalOf(old(db.users), caller);
      && (p.Anonymous? ==> r == Failure(NotAuthenticated) && db.users == old(db.users))
      && (p.Member? && request.GetMe? ==> r == Success(ProfileOf(p.user)) && db.users == old(db.users))
      && (p.Member? && request.PatchMe? ==>
            var v := ValidateUserPatch(db.settings, old(db.users), p.id, request.patch);
            && (v.Failure? ==> r == Failure(v.error) && db.users == old(db.users))
            && (v.Success? ==>
                  db.users == old(db.users)[p.id := ApplyPatch(p.user, request.patch)]
                  && r == Success(ProfileOf(db.users[p.id]))))
    ensures caller.Some? && caller.value in old(db.users) ==>
      caller.value in db.users && db.users[caller.value].role == old(db.users)[caller.value].role
  {
    var p := PrincipalOf(db.users, caller);
    if !IsAuthenticated(p) {
      return Failure(Denied(p));
    }
    match request
    case GetMe =>
      r := Success(ProfileOf(p.user));
    case PatchMe(patch) =>
      var v := ValidateUserPatch(db.settings, db.users, p.id, patch);
      if v.Failure? {
        return Failure(v.error);
      }
      var updated := ApplyPatch(p.user, patch);
      ReplaceUserKeepsConsistency(db.Snapshot(), p.id, updated);
      db.users := db.users[p.id := updated];
      r := Success(ProfileOf(updated));
  }

  /**
   * DELETE `/users/{username}`: `AdminOrMyselfOnly`, then the lookup by username, then the
   * delete, which cascades to the user's reviews and comments.
   */
  method DestroyUser(db: Database, caller: Option<UserId>, username: string)
    returns (r: Result<(), ApiError>)
    requires db.Valid()
    modifies db
    ensures db.Valid() && db.nextId == old(db.nextId)
    ensures var p := PrincipalOf(old(db.users), caller);
      && (!AdminOrMyselfOnly(Delete, p) ==> r == Failure(Denied(p)) && db.Snapshot() == old(db.Snapshot()))
      && (AdminOrMyselfOnly(Delete, p) && LookupUsername(old(db.users), username).None? ==>
            r == Failure(NotFound) && db.Snapshot() == old(db.Snapshot()))
      && (AdminOrMyselfOnly(Delete, p) && LookupUsername(old(db.users), username).Some? ==>
            r == Success(())
            && db.Snapshot() == DeleteUserCascade(old(db.Snapshot()), LookupUsername(old(db.users), username).value))
  {
    var p := PrincipalOf(db.users, caller);
    if !AdminOrMyselfOnly(Delete, p) {
      return Failure(Denied(p));
    }
    var found := LookupUsername(db.users, username);
    if found.None? {
      return Failure(NotFound);
    }
    db.DeleteUser(found.value);
    r := Success(());
  }
}
