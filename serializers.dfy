/**
 * The request validation of the serializers: which submitted fields are accepted, and what the
 * reading validators (`TitleDefault`, `UniqueTogetherValidator`, `GetTokenSerializer.validate`)
 * find in the tables. Nothing here changes the tables.
 *
 * String inputs are taken after the REST framework's whitespace stripping, so a blank field is
 * the empty string; `None` is a field missing from the request.
 */
module Serializers {
  import opened Wrappers
  import opened Config
  import opened Errors
  import opened UsersModels
  import opened Validators
  import opened ReviewsModels

  /** A required `CharField` that may not be blank. */
  predicate Present(v: Option<string>) {
    v.Some? && v.value != ""
  }

  function FailingIf(ok: bool, f: Field): set<Field> {
    if ok then {} else {f}
  }

  /** `AuthSerializer.username`: required, at most AUTH_USERNAME_MAXLENGTH, then `validate_username`. */
  predicate UsernameAcceptable(s: Settings, v: Option<string>) {
    Present(v) && |v.value| <= s.usernameMaxLength && ValidateUsername(v.value).Success?
  }

  /** `RegisterSerializer.email`: required and at most AUTH_EMAIL_MAXLENGTH. */
  predicate EmailAcceptable(s: Settings, v: Option<string>) {
    Present(v) && |v.value| <= s.emailMaxLength
  }

  /** `GetTokenSerializer.confirmation_code`: required and at most AUTH_CONF_CODE_MAXLENGTH. */
  predicate CodeAcceptable(s: Settings, v: Option<string>) {
    Present(v) && |v.value| <= s.codeLength
  }

  /** `RegisterSerializer(data=…).is_valid()`; the validated data is the (username, email) pair. */
  function ValidateSignup(s: Settings, username: Option<string>, email: Option<string>)
    : (r: Result<(string, string), ApiError>)
    ensures r.Success? <==> UsernameAcceptable(s, username) && EmailAcceptable(s, email)
    ensures r.Success? ==> r.value == (username.value, email.value)
    ensures r.Success? ==> MatchesUsernamePattern(r.value.0) && r.value.0 != ReservedUsername
    ensures r.Failure? ==>
      && r.error.Invalid?
      && (UsernameField in r.error.fields <==> !UsernameAcceptable(s, username))
      && (EmailField in r.error.fields <==> !EmailAcceptable(s, email))
  {
    var bad := FailingIf(UsernameAcceptable(s, username), UsernameField)
             + FailingIf(EmailAcceptable(s, email), EmailField);
    if bad == {} then Success((username.value, email.value)) else Failure(Invalid(bad))
  }

  /** The reserved name and an empty name never get past signup validation, whatever the email. */
  lemma SignupRejectsReservedAndEmptyNames(s: Settings, email: Option<string>)
    ensures ValidateSignup(s, Some("me"), email).Failure?
    ensures UsernameField in ValidateSignup(s, Some("me"), email).error.fields
    ensures UsernameField in ValidateSignup(s, Some(""), email).error.fields
    ensures UsernameField in ValidateSignup(s, None, email).error.fields
  {
    assert ValidateUsername("me") == Failure(ReservedName);
  }

  /**
   * `GetTokenSerializer(data=…).is_valid()`: the fields, then `validate`, which looks the user
   * up (404 when absent) and compares the stored code with the submitted one exactly.
   */
  function ValidateTokenRequest(s: Settings, users: map<UserId, User>, username: Option<string>, code: Option<string>)
    : (r: Result<UserId, ApiError>)
    requires UsernamesUnique(users)
    ensures r.Success? <==>
      UsernameAcceptable(s, username) && CodeAcceptable(s, code)
      && exists k :: k in users && users[k].username == username.value && users[k].confirmationCode == Some(code.value)
    ensures r.Success? ==>
      r.value in users && users[r.value].username == username.value
      && users[r.value].confirmationCode == Some(code.value)
    ensures r == Failure(NotFound) <==>
      UsernameAcceptable(s, username) && CodeAcceptable(s, code)
      && forall k :: k in users ==> users[k].username != username.value
    ensures r == Failure(WrongCode) <==>
      UsernameAcceptable(s, username) && CodeAcceptable(s, code)
      && exists k :: k in users && users[k].username == username.value && users[k].confirmationCode != Some(code.value)
    ensures r.Failure? ==> r.error.Invalid? || r.error == NotFound || r.error == WrongCode
  {
    var bad := FailingIf(UsernameAcceptable(s, username), UsernameField)
             + FailingIf(CodeAcceptable(s, code), CodeField);
    if bad != {} then Failure(Invalid(bad))
    else match LookupUsername(users, username.value)
      case None => Failure(NotFound)
      case Some(k) =>
        if users[k].confirmationCode != Some(code.value) then Failure(WrongCode) else Success(k)
  }

  /**
   * A consumed (empty) or never-issued (null) code rejects every submission: the submitted code
   * cannot be blank, so it never equals what is stored.
   */
  lemma ClearedCodeRejectsEverything(s: Settings, users: map<UserId, User>, id: UserId, code: Option<string>)
    requires UsernamesUnique(users)
    requires id in users && (users[id].confirmationCode == Some("") || users[id].confirmationCode == None)
    ensures ValidateTokenRequest(s, users, Some(users[id].username), code).Failure?
  {
  }

  /**
   * For an existing account with an acceptable name, an acceptable submitted code yields that
   * account exactly when it equals the stored code, and a wrong-code error otherwise.
   */
  lemma TokenRequestForKnownUser(s: Settings, users: map<UserId, User>, k: UserId, code: string)
    requires UsernamesUnique(users) && k in users
    requires UsernameAcceptable(s, Some(users[k].username)) && CodeAcceptable(s, Some(code))
    ensures ValidateTokenRequest(s, users, Some(users[k].username), Some(code))
      == if users[k].confirmationCode == Some(code) then Success(k) else Failure(WrongCode)
  {
    var r := ValidateTokenRequest(s, users, Some(users[k].username), Some(code));
    if users[k].confirmationCode == Some(code) {
      assert r.Success?;
    } else {
      assert r == Failure(WrongCode);
    }
  }

  /**
   * The "complete signup first" branch of `ObtainTokenView.post` cannot be reached: any request
   * that passes validation found a non-empty stored code.
   */
  lemma CompleteSignupBranchUnreachable(s: Settings, users: map<UserId, User>, username: Option<string>, code: Option<string>)
    requires UsernamesUnique(users)
    requires ValidateTokenRequest(s, users, username, code).Success?
    ensures var u := users[ValidateTokenRequest(s, users, username, code).value];
      u.confirmationCode.Some? && u.confirmationCode.value != ""
  {
  }

  /**
   * `ReviewSerializer` on create by `author` under URL `titleId`: the hidden `title` default
   * looks the title up first (404), then the `score` and `text` fields, then the
   * unique-together check on (author, title).
   */
  function ValidateReview(db: Tables, author: UserId, titleId: nat, score: Option<int>, text: Option<string>)
    : (r: Result<Review, ApiError>)
    ensures titleId !in db.titles ==> r == Failure(NotFound)
    ensures r.Success? <==>
      titleId in db.titles && score.Some? && ScoreInRange(score.value) && Present(text)
      && !HasReviewed(db.reviews, author, titleId)
    ensures r.Success? ==> r.value == Review(author, titleId, text.value, score.value)
    ensures r == Failure(DuplicateReview) <==>
      titleId in db.titles && score.Some? && ScoreInRange(score.value) && Present(text)
      && HasReviewed(db.reviews, author, titleId)
    ensures r.Failure? && r.error.Invalid? ==>
      titleId in db.titles
      && (ScoreField in r.error.fields <==> !(score.Some? && ScoreInRange(score.value)))
      && (TextField in r.error.fields <==> !Present(text))
  {
    if titleId !in db.titles then Failure(NotFound)
    else
      var bad := FailingIf(score.Some? && ScoreInRange(score.value), ScoreField)
               + FailingIf(Present(text), TextField);
      if bad != {} then Failure(Invalid(bad))
      else if HasReviewed(db.reviews, author, titleId) then Failure(DuplicateReview)
      else Success(Review(author, titleId, text.value, score.value))
  }

  /** The score bounds are inclusive: 1 and 10 pass, 0 and 11 fail on the score field. */
  lemma ScoreBoundsAreInclusive(db: Tables, author: UserId, titleId: TitleId, text: string)
    requires titleId in db.titles && text != "" && !HasReviewed(db.reviews, author, titleId)
    ensures ValidateReview(db, author, titleId, Some(1), Some(text)).Success?
    ensures ValidateReview(db, author, titleId, Some(10), Some(text)).Success?
    ensures ValidateReview(db, author, titleId, Some(0), Some(text)) == Failure(Invalid({ScoreField}))
    ensures ValidateReview(db, author, titleId, Some(11), Some(text)) == Failure(Invalid({ScoreField}))
    ensures ValidateReview(db, author, titleId, None, Some(text)) == Failure(Invalid({ScoreField}))
  {
    assert FailingIf(Present(Some(text)), TextField) == {};
    assert FailingIf(false, ScoreField) + {} == {ScoreField};
  }

  /** Once `author` has reviewed a title, no further review of theirs for it validates. */
  lemma SecondReviewRejected(db: Tables, k: ReviewId, score: Option<int>, text: Option<string>)
    requires k in db.reviews
    ensures ValidateReview(db, db.reviews[k].author, db.reviews[k].title, score, text).Failure?
  {
  }

  /** `CommentSerializer` on create: only `text` is writable; `author` and `review` are read-only. */
  function ValidateComment(text: Option<string>): Result<string, ApiError> {
    if Present(text) then Success(text.value) else Failure(Invalid({TextField}))
  }

  /** The row with this slug, as the `SlugRelatedField` queryset lookup. */
  function LookupSlug(m: map<nat, Taxon>, slug: string): (r: Option<nat>)
    requires TaxaUnique(m)
    ensures r.Some? ==> r.value in m && m[r.value].slug == slug
    ensures r.None? ==> !SlugTaken(m, slug)
  {
    if SlugTaken(m, slug) then
      var k :| k in m && m[k].slug == slug; Some(k)
    else None
  }

  /** `CategoriesSerializer` and `GenreSerializer` on create: both fields required and unique. */
  function ValidateTaxon(m: map<nat, Taxon>, name: Option<string>, slug: Option<string>)
    : (r: Result<Taxon, ApiError>)
    ensures r.Success? <==>
      Present(name) && Present(slug) && !NameTaken(m, name.value) && !SlugTaken(m, slug.value)
    ensures r.Success? ==> r.value == Taxon(name.value, slug.value)
    ensures r.Failure? ==>
      && r.error.Invalid?
      && (NameField in r.error.fields <==> !(Present(name) && !NameTaken(m, name.value)))
      && (SlugField in r.error.fields <==> !(Present(slug) && !SlugTaken(m, slug.value)))
  {
    var bad := FailingIf(Present(name) && !NameTaken(m, name.value), NameField)
             + FailingIf(Present(slug) && !SlugTaken(m, slug.value), SlugField);
    if bad == {} then Success(Taxon(name.value, slug.value)) else Failure(Invalid(bad))
  }

  predicate AllSlugsKnown(m: map<nat, Taxon>, slugs: seq<string>) {
    forall i :: 0 <= i < |slugs| ==> SlugTaken(m, slugs[i])
  }

  /** The genre rows named by a list of slugs; a repeated slug names its genre once. */
  function GenreIds(m: map<nat, Taxon>, slugs: seq<string>): (ids: set<GenreId>)
    requires TaxaUnique(m) && AllSlugsKnown(m, slugs)
    ensures forall g :: g in ids <==> g in m && exists i :: 0 <= i < |slugs| && m[g].slug == slugs[i]
  {
    if slugs == [] then {}
    else
      var rest := GenreIds(m, slugs[1..]);
      assert forall i :: 1 <= i < |slugs| ==> slugs[i] == slugs[1..][i - 1];
      assert forall i :: 0 <= i < |slugs[1..]| ==> slugs[1..][i] == slugs[i + 1];
      {LookupSlug(m, slugs[0]).value} + rest
  }

  /**
   * `TitleSerializer` on create: `name`, `description`, `year` (through `validate_year`), the
   * `category` slug and the list of `genre` slugs are all required; the slugs must exist.
   */
  function ValidateTitle(db: Tables, currentYear: int, name: Option<string>, year: Option<int>,
                         description: Option<string>, category: Option<string>, genres: Option<seq<string>>)
    : (r: Result<(Title, set<GenreId>), ApiError>)
    requires TaxaUnique(db.categories) && TaxaUnique(db.genres)
    ensures r.Success? <==>
      Present(name) && year.Some? && ValidateYear(year.value, currentYear) && Present(description)
      && category.Some? && SlugTaken(db.categories, category.value)
      && genres.Some? && AllSlugsKnown(db.genres, genres.value)
    ensures r.Success? ==>
      var (t, gs) := r.value;
      && t.name == name.value && t.year == year && t.description == description.value
      && t.category.Some? && t.category.value in db.categories
      && db.categories[t.category.value].slug == category.value
      && (forall g :: g in gs <==> g in db.genres && exists i :: 0 <= i < |genres.value| && db.genres[g].slug == genres.value[i])
    ensures r.Failure? ==>
      && r.error.Invalid?
      && (YearField in r.error.fields <==> !(year.Some? && ValidateYear(year.value, currentYear)))
  {
    var bad := FailingIf(Present(name), NameField)
             + FailingIf(year.Some? && ValidateYear(year.value, currentYear), YearField)
             + FailingIf(Present(description), DescriptionField)
             + FailingIf(category.Some? && SlugTaken(db.categories, category.value), CategoryField)
             + FailingIf(genres.Some? && AllSlugsKnown(db.genres, genres.value), GenreField);
    if bad != {} then Failure(Invalid(bad))
    else
      var c := LookupSlug(db.categories, category.value).value;
      Success((Title(name.value, year, description.value, Some(c)), GenreIds(db.genres, genres.value)))
  }

  /** A partial update of a user as `UserSerializer` receives it; `bio` may be set to null. */
  datatype UserPatch = UserPatch(
    username: Option<string>,
    email: Option<string>,
    firstName: Option<string>,
    lastName: Option<string>,
    bio: Option<Option<string>>,
    role: Option<string>)

  /** `username` in `UserSerializer`: the model's validators, length bound and uniqueness. */
  predicate PatchedUsernameOk(s: Settings, users: map<UserId, User>, self: UserId, v: Option<string>) {
    v.None? ||
    (UsernameAcceptable(s, v) && forall k :: k in users && k != self ==> users[k].username != v.value)
  }

  predicate PatchedEmailOk(s: Settings, users: map<UserId, User>, self: UserId, v: Option<string>) {
    v.None? ||
    (EmailAcceptable(s, v) && forall k :: k in users && k != self ==> users[k].email != v.value)
  }

  predicate PersonalNameOk(v: Option<string>) {
    v.None? || |v.value| <= PersonalNameMaxLength
  }

  /** `role` must be one of the choices even though the self-service endpoint then discards it. */
  predicate PatchedRoleOk(v: Option<string>) {
    v.None? || ParseRole(v.value).Some?
  }

  /** `UserSerializer(user, data=…, partial=True).is_valid()` for the user `self`. */
  function ValidateUserPatch(s: Settings, users: map<UserId, User>, self: UserId, p: UserPatch)
    : (r: Result<UserPatch, ApiError>)
    ensures r.Success? <==>
      PatchedUsernameOk(s, users, self, p.username) && PatchedEmailOk(s, users, self, p.email)
      && PersonalNameOk(p.firstName) && PersonalNameOk(p.lastName) && PatchedRoleOk(p.role)
    ensures r.Success? ==> r.value == p
    ensures r.Failure? ==>
      && r.error.Invalid?
      && (RoleField in r.error.fields <==> !PatchedRoleOk(p.role))
      && (UsernameField in r.error.fields <==> !PatchedUsernameOk(s, users, self, p.username))
  {
    var bad := FailingIf(PatchedUsernameOk(s, users, self, p.username), UsernameField)
             + FailingIf(PatchedEmailOk(s, users, self, p.email), EmailField)
             + FailingIf(PersonalNameOk(p.firstName), FirstNameField)
             + FailingIf(PersonalNameOk(p.lastName), LastNameField)
             + FailingIf(PatchedRoleOk(p.role), RoleField);
    if bad == {} then Success(p) else Failure(Invalid(bad))
  }

  /**
   * `serializer.save(role=request.user.role)` after a valid partial update: each submitted field
   * replaces the stored one, except `role`, which is written back with its old value.
   */
  function ApplyPatch(u: User, p: UserPatch): (r: User)
    ensures r.role == u.role
    ensures r.confirmationCode == u.confirmationCode && r.isStaff == u.isStaff && r.isSuperuser == u.isSuperuser
    ensures r.username == p.username.GetOr(u.username) && r.email == p.email.GetOr(u.email)
    ensures r.firstName == p.firstName.GetOr(u.firstName) && r.lastName == p.lastName.GetOr(u.lastName)
    ensures r.bio == p.bio.GetOr(u.bio)
    ensures IsAdmin(r) <==> IsAdmin(u)
    ensures IsModerator(r) <==> IsModerator(u)
  {
    u.(username := p.username.GetOr(u.username),
       email := p.email.GetOr(u.email),
       firstName := p.firstName.GetOr(u.firstName),
       lastName := p.lastName.GetOr(u.lastName),
       bio := p.bio.GetOr(u.bio))
  }

  /** What `UserSerializer` shows of a user; the confirmation code is not among its fields. */
  datatype Profile = Profile(username: string, email: string, firstName: string, lastName: string,
                             bio: Option<string>, role: string)

  function ProfileOf(u: User): (p: Profile)
    ensures p.username == u.username && p.email == u.email
    ensures p.firstName == u.firstName && p.lastName == u.lastName && p.bio == u.bio
    ensures ParseRole(p.role) == Some(u.role)
  {
    RoleValueRoundTrip(u.role);
    Profile(u.username, u.email, u.firstName, u.lastName, u.bio, RoleValue(u.role))
  }
}
