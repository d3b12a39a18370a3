# yamdb: accounts, permissions and the review store in Dafny

This project models the authorisation and account-state core of the yamdb REST backend. yamdb is a
catalogue of titles (grouped by category and genre), with user reviews and comments on those
reviews. The model covers:

- **Users and roles** (`UsersModels`). The `User` record and its three role choices. The derived
  `is_moderator` and `is_admin` predicates. The width of the `role` column. The uniqueness of
  usernames and emails.
- **Validators** (`Validators`). `validate_username`: a full match of `[\w.@+-]+` anchored with `\Z`,
  then the reserved name `me`. Its report lists the offending characters. `validate_year` is also
  here; the clock becomes a parameter.
- **Permissions** (`Permissions`). `AdminOrMyselfOnly`, `AdminOrReadOnly` and
  `AdminOrModeratorOrAuthor` are predicates over the method, the caller and the object's author.
  Truth-table and monotonicity lemmas go with them.
- **Catalogue and review tables** (`ReviewsModels`). The tables as one value, `Tables`, and the
  invariants the API keeps as `Consistent`: the database's unique and foreign-key constraints, plus
  the 1..10 score range, which comes from the model-field validators on `Review.score`. The
  database does not enforce that range; only writes through the API keep it. Each `on_delete` rule (CASCADE, SET_NULL) is a function on
  the tables. Lemmas show that each rule keeps the constraints and removes exactly what it should.
- **Serializers** (`Serializers`). Request validation as pure functions returning the set of
  failing fields. Also the reading validators: the hidden title default, the unique-together check
  on reviews, and `GetTokenSerializer.validate`.
- **Store** (`Store.Database`). One map field per table, the constraints as `Valid()`, and insert
  and delete methods, each proved against the table functions.
- **Code issuance** (`Utils.CreateAndSendCode`). The code is stored first and mailed second. The
  mailer is an `Outbox` object.
- **Views** (`AuthViews`, `ReviewsViews`, `CatalogueViews`):
  - signup as `get_or_create` on the exact (username, email) pair, with a field-specific conflict
    on partial collisions;
  - the single-use token exchange;
  - `/users/me`, where `role` is forced back to its old value;
  - the nested review and comment endpoints;
  - catalogue creates and deletes, and user deletion.
- **Request sequences** (`Sessions`). An immediate replay of a used code is refused, and a cleared
  code accepts nothing until signup issues a new one. After a signup, a wrong code is refused, the
  right code yields a token for the signed-up account, and its replay is refused.

The random code generator, the mail transport's success, the clock and the JWT issuer are
parameters. The code is an argument, delivery is a `bool`, the current year is an `int`, and a
token is an opaque `AccessToken(user)`.

Two behaviours of the code that are easy to misread:

- **The "complete signup first" branch is unreachable.** This is the branch of `ObtainTokenView.post`
  at `api_yamdb/api/views.py:154-158`. Its token serializer has already rejected every stored code
  that differs from the submitted one, and the submitted code cannot be blank. A request for a user
  whose code is empty or null therefore gets "wrong code", never "complete signup first"
  (`Serializers.CompleteSignupBranchUnreachable`).
- **The order of 404 and 400 differs between reviews and comments.** On review creation, the title
  lookup is a serializer default, so an unknown title gives 404 before any field error. On comment
  creation, the review lookup happens in `perform_create`, after validation, so a blank text gives
  400 even under an unknown review.

## Model

| member | source | states |
|---|---|---|
| UsersModels.ParseRole | api_yamdb/users/models.py:15-19 | a role string is accepted exactly when it is the stored value of one of the three choices |
| UsersModels.RoleValueRoundTrip | api_yamdb/users/models.py:11-19 | parsing the stored value of a role gives that role back |
| UsersModels.LongestLength | api_yamdb/users/models.py:39 | the result bounds every length in the list and is attained by one of them |
| UsersModels.RoleValues | api_yamdb/users/models.py:15-19 | the stored values are "user", "moderator", "admin" in declaration order, and a string is among them exactly when it parses as a role |
| UsersModels.RoleColumnFitsEveryChoice | api_yamdb/users/models.py:38-43 | the `role` column is exactly 9 wide (the length of "moderator"), and every role value fits in it |
| UsersModels.ModeratorIffRoleValue | api_yamdb/users/models.py:56-66 | `is_moderator` holds iff the role is 'moderator'; `is_admin` holds iff the role is 'admin' or either staff flag is set |
| UsersModels.AdminRoleExcludesModerator | api_yamdb/users/models.py:56-66 | an admin-role user is never a moderator; a staff or superuser account is an admin whatever its role; a moderator without flags is not an admin |
| UsersModels.StaffModeratorIsBoth | api_yamdb/users/models.py:56-66 | a staff account with role 'moderator' is both moderator and admin |
| UsersModels.NewUser | api_yamdb/users/models.py:38-49 | a created user has the given username and email, the default role 'user', a null code and no admin or moderator rights |
| UsersModels.LookupUsername | api_yamdb/users/models.py:20-26 | the lookup finds the one user with that username, or reports that there is none |
| Validators.Unmatched | api_yamdb/api/validators.py:10-11 | the report is no longer than the input and contains no allowed character |
| Validators.UnmatchedEmptyIffAllAllowed | api_yamdb/api/validators.py:7-11 | the report is empty iff every character of the input is allowed |
| Validators.UnmatchedCounts | api_yamdb/api/validators.py:10-11 | the report keeps every disallowed character with its multiplicity and drops every allowed one |
| Validators.UnmatchedConcat | api_yamdb/api/validators.py:10-11 | the report of a concatenation is the concatenation of the reports, so the original order is kept |
| Validators.ValidateUsername | api_yamdb/api/validators.py:6-19 | accepted iff the whole value matches the pattern and is not "me", returning the value unchanged; the pattern is checked first, and its failure reports exactly the unmatched characters |
| Validators.InvalidUsernameNamesOffenders | api_yamdb/api/validators.py:9-16 | a pattern failure lists no characters only for the empty value |
| Validators.EmptyUsernameRejected | api_yamdb/api/validators.py:7 | the empty username fails the pattern |
| Validators.TrailingNewlineRejected | api_yamdb/api/validators.py:7 | any value followed by a newline is rejected, and the newline is the last character reported |
| Validators.YearAcceptanceIsStable | api_yamdb/api/validators.py:22-25 | a year is accepted iff 0 < year <= current year: year 0, negative years and next year fail, the current year passes, and acceptance persists as the clock advances |
| Permissions.CallerResolution | api_yamdb/api/permissions.py:10 | the caller resolves the same way in any two user tables that agree on the caller's own row; an authenticated caller carries its account's current row; a refusal is 401 exactly when the request names no existing account |
| Permissions.AdminOrMyselfOnlyTruthTable | api_yamdb/api/permissions.py:9-10 | access is granted iff the caller is authenticated and an admin, for every method, so a non-admin cannot even read |
| Permissions.AdminOrReadOnlyTruthTable | api_yamdb/api/permissions.py:17-21 | a safe method is always granted; an unsafe method is granted iff the caller is an authenticated admin |
| Permissions.ObjectPermissionTruthTable | api_yamdb/api/permissions.py:24-38 | reads always pass; a write passes iff the caller is authenticated and is an admin, a moderator or the author; the inherited collection check turns away anonymous writes first |
| Permissions.PermissionsAreMonotone | api_yamdb/api/permissions.py:9-38 | a caller with at least the privileges of another is granted everything the other is, by all three classes |
| Permissions.PromotionGainsPrivilege | api_yamdb/users/models.py:60-66 | gaining the admin role, the staff flag or the superuser flag, or logging in, never loses a privilege |
| ReviewsModels.EmptyTablesConsistent | api_yamdb/reviews/models.py:142-147 | the empty database meets every constraint |
| ReviewsModels.ReplaceUserKeepsConsistency | api_yamdb/users/models.py:20-32 | rewriting a user row keeps the constraints when its username and email are nobody else's |
| ReviewsModels.InsertUserKeepsConsistency | api_yamdb/users/models.py:20-32 | a new user with an unused username and email keeps the constraints |
| ReviewsModels.InsertCategoryKeepsConsistency | api_yamdb/reviews/models.py:8-17 | a new category with an unused name and slug keeps the constraints |
| ReviewsModels.InsertGenreKeepsConsistency | api_yamdb/reviews/models.py:8-17 | a new genre with an unused name and slug keeps the constraints |
| ReviewsModels.InsertTitleKeepsConsistency | api_yamdb/reviews/models.py:81-87 | a new title whose category exists, or is null, keeps the constraints |
| ReviewsModels.InsertTitleGenreKeepsConsistency | api_yamdb/reviews/models.py:98-108 | a link between an existing title and an existing genre keeps the constraints |
| ReviewsModels.InsertReviewKeepsConsistency | api_yamdb/reviews/models.py:115-147 | a review of an existing title, by an existing author, with a score in [1,10] and no earlier review by that author of that title, keeps the constraints |
| ReviewsModels.InsertCommentKeepsConsistency | api_yamdb/reviews/models.py:150-155 | a comment by an existing user on an existing review keeps the constraints |
| ReviewsModels.GenresOfInsert | api_yamdb/reviews/models.py:73-80 | adding a link adds exactly its genre to its title's genres and changes no other title's |
| ReviewsModels.DeleteTitleKeepsConsistency | api_yamdb/reviews/models.py:98-120 | deleting a title with its cascades leaves no dangling reference |
| ReviewsModels.DeleteReviewKeepsConsistency | api_yamdb/reviews/models.py:150-155 | deleting a review with its comments leaves no dangling reference |
| ReviewsModels.DeleteCommentKeepsConsistency | api_yamdb/reviews/models.py:150-155 | deleting a comment keeps the constraints |
| ReviewsModels.DeleteCategoryKeepsConsistency | api_yamdb/reviews/models.py:81-87 | deleting a category and nulling its titles' category leaves no dangling reference |
| ReviewsModels.DeleteGenreKeepsConsistency | api_yamdb/reviews/models.py:104-108 | deleting a genre with its links leaves no dangling reference |
| ReviewsModels.DeleteUserKeepsConsistency | api_yamdb/reviews/models.py:27-32 | deleting a user with their reviews and comments, and the comments on those reviews, leaves no dangling reference |
| ReviewsModels.DeleteTitleRemovesItsSubtree | api_yamdb/reviews/models.py:98-120 | deleting a title removes exactly it, its genre links, its reviews and, transitively, exactly the comments on them; every surviving title, link, review and comment keeps its value, and users, categories and genres stay as they were |
| ReviewsModels.DeleteReviewRemovesItsComments | api_yamdb/reviews/models.py:150-155 | deleting a review removes exactly it and the comments on it; every other review and comment keeps its value, and every other table stays as it was |
| ReviewsModels.DeleteCategoryKeepsTitles | api_yamdb/reviews/models.py:81-87 | deleting a category removes only that category; every title stays, those that pointed at it now have a null category and are otherwise unchanged, the rest are untouched, and every other table stays as it was |
| ReviewsModels.DeleteGenreRemovesItsLinks | api_yamdb/reviews/models.py:104-108 | deleting a genre removes exactly it and its links; the other genres and links keep their values, and titles, reviews, comments, users and categories stay as they were |
| ReviewsModels.DeleteUserRemovesTheirWriting | api_yamdb/reviews/models.py:27-32 | deleting a user removes exactly that user, every review and comment they wrote and the comments on their reviews; other users' reviews all stay, every surviving user, review and comment keeps its value, and the catalogue tables stay as they were |
| Serializers.ValidateSignup | api_yamdb/api/serializers.py:101-121 | signup validates iff the username is present, within its length bound and passes `validate_username`, and the email is present and within its bound; each failing field is named |
| Serializers.SignupRejectsReservedAndEmptyNames | api_yamdb/api/serializers.py:101-117 | "me", the empty name and a missing name are all rejected on the username field |
| Serializers.ValidateTokenRequest | api_yamdb/api/serializers.py:124-141 | a valid request yields the user whose username matches and whose stored code equals the submitted one exactly; an unknown username gives 404, a mismatched code gives a validation error |
| Serializers.ClearedCodeRejectsEverything | api_yamdb/api/serializers.py:138-140 | a cleared or never-issued code rejects every submission |
| Serializers.TokenRequestForKnownUser | api_yamdb/api/serializers.py:130-141 | for an existing user, a submitted code yields that user iff it equals the stored code, and "wrong code" otherwise |
| Serializers.CompleteSignupBranchUnreachable | api_yamdb/api/views.py:154-158 | every request that passes validation found a non-empty stored code, so the "complete signup" branch is dead |
| Serializers.ValidateReview | api_yamdb/api/serializers.py:57-86 | an unknown title gives 404 first; otherwise a review validates iff the score is in [1,10], the text is present and the author has not reviewed the title, with the author and title taken from the request, not the payload |
| Serializers.ScoreBoundsAreInclusive | api_yamdb/api/serializers.py:74-76 | scores 1 and 10 are accepted; 0, 11 and a missing score fail on the score field alone |
| Serializers.SecondReviewRejected | api_yamdb/api/serializers.py:81-86 | an author who has reviewed a title cannot get a second review of it through validation |
| Serializers.LookupSlug | api_yamdb/reviews/models.py:14-17 | the lookup finds the one row with that slug, or reports that there is none |
| Serializers.ValidateTaxon | api_yamdb/api/serializers.py:16-29 | a category or genre validates iff its name and slug are present and unused; each failing field is named |
| Serializers.GenreIds | api_yamdb/api/serializers.py:38-42 | the ids are exactly the genres whose slug is among those submitted |
| Serializers.ValidateTitle | api_yamdb/api/serializers.py:32-48 | a title validates iff the name, description, category slug and genre slugs are present and known and the year passes `validate_year`; the title takes the category with that slug and exactly the named genres |
| Serializers.ValidateUserPatch | api_yamdb/api/serializers.py:144-148 | a partial update validates iff every submitted field passes its checks: username validator and uniqueness, email uniqueness, name lengths, and role among the choices |
| Serializers.ApplyPatch | api_yamdb/api/views.py:111-117 | each submitted field (username, email, first and last name, bio) replaces the stored one and each omitted one is kept; the role, the code and the staff flags are kept, so admin and moderator rights are unchanged |
| Serializers.ProfileOf | api_yamdb/api/serializers.py:144-148 | the profile shows the user's username, email, first and last name and bio as stored, and a role string that parses back to the user's role; the confirmation code is not shown |
| Store.Database.FreshId | api_yamdb/reviews/models.py:61-161 | the id is unused in every table |
| Store.Database.InsertUser | api_yamdb/api/views.py:129-131 | the user table gains exactly the new row under a fresh id, and the constraints still hold |
| Store.Database.InsertCategory | api_yamdb/api/views.py:55-57 | the category table gains exactly the new row, and the constraints still hold |
| Store.Database.InsertGenre | api_yamdb/api/views.py:50-52 | the genre table gains exactly the new row, and the constraints still hold |
| Store.Database.InsertTitle | api_yamdb/api/views.py:40-47 | the title table gains exactly the new row, and the constraints still hold |
| Store.Database.InsertTitleGenre | api_yamdb/reviews/models.py:98-108 | the link table gains exactly the new row, and the constraints still hold |
| Store.Database.LinkGenres | api_yamdb/reviews/models.py:73-80 | after the loop, the title's genres are its old genres plus exactly the given ones; only the link table changed, and it only gained links for this title |
| Store.Database.LinkGenre | api_yamdb/reviews/models.py:98-108 | one new link adds exactly its genre to the title's genres |
| Store.Database.InsertReview | api_yamdb/api/views.py:69-75 | the review table gains exactly the new row, and the constraints still hold |
| Store.Database.InsertComment | api_yamdb/api/views.py:87-92 | the comment table gains exactly the new row, and the constraints still hold |
| Store.Database.DeleteTitle | api_yamdb/reviews/models.py:98-120 | the tables become the title cascade of the old tables, and the constraints still hold |
| Store.Database.DeleteReview | api_yamdb/reviews/models.py:150-155 | the tables become the review cascade of the old tables, and the constraints still hold |
| Store.Database.DeleteComment | api_yamdb/reviews/models.py:150-155 | only the comment is removed |
| Store.Database.DeleteCategory | api_yamdb/reviews/models.py:81-87 | the tables become the SET_NULL result, and the constraints still hold |
| Store.Database.DeleteGenre | api_yamdb/reviews/models.py:104-108 | the tables become the genre cascade of the old tables, and the constraints still hold |
| Store.Database.DeleteUser | api_yamdb/reviews/models.py:27-32 | the tables become the user cascade of the old tables, and the constraints still hold |
| Utils.ConfirmationBody | api_yamdb/api/utils.py:16 | the code can be read back from the body, between the fixed prefix and the final period |
| Utils.ConfirmationMail | api_yamdb/api/utils.py:14-20 | the mail goes to exactly one recipient, the given address, from the configured sender, and carries the code |
| Utils.CreateAndSendCode | api_yamdb/api/utils.py:9-20 | an unknown username gives 404 and changes nothing; otherwise the new code is stored first, then either the mail carrying that same code to the user's email is sent, or delivery fails with the code still stored and nothing sent |
| AuthViews.ClassifySignup | api_yamdb/api/views.py:128-141 | an exact (username, email) match finds that user; otherwise a taken email gives the email conflict, a taken username the username conflict, and only when neither is taken is a user created |
| AuthViews.PartialCollisionIsRefused | api_yamdb/api/views.py:132-141 | a pair that matches an existing user in only one field is refused, on the email when the email is the one taken |
| AuthViews.Signup | api_yamdb/api/views.py:122-143 | invalid input changes nothing; a partial collision gives 400, adds no user and sends no mail; an exact repeat adds no user and re-issues a code; a new pair adds exactly one default user; a code is then issued and mailed, and on success the account holds that code |
| AuthViews.ObtainToken | api_yamdb/api/views.py:146-163 | a failed validation changes nothing; a valid request returns a token for that user and sets only its stored code to '' |
| AuthViews.RetrievePatchMe | api_yamdb/api/views.py:103-119 | needs only authentication; GET shows the caller's profile; PATCH applies a valid partial update and leaves the caller's role as it was, whatever the payload |
| AuthViews.DestroyUser | api_yamdb/api/views.py:95-101 | only an authenticated admin may delete; an unknown username gives 404; otherwise the user cascade runs |
| ReviewsViews.ReviewListingsPartition | api_yamdb/api/views.py:64-67 | an unknown title gives 404; every review is listed under its own title, and the listings of two distinct titles share no review |
| ReviewsViews.CommentListingsPartition | api_yamdb/api/views.py:82-85 | an unknown review gives 404; every comment is listed under its own review whatever the route's title, and the listings of two distinct reviews share no comment |
| ReviewsViews.CommentRoutesIgnoreTitle | api_yamdb/api/views.py:82-92 | a review listed under one title also lists its comments under any other title's route |
| ReviewsViews.FindReview | api_yamdb/api/views.py:64-67 | a detail route finds a review iff it is in its title's listing |
| ReviewsViews.FindComment | api_yamdb/api/views.py:82-85 | a detail route finds a comment iff it is in its review's listing |
| ReviewsViews.CreateReview | api_yamdb/api/views.py:60-75 | anonymous callers get 401; invalid or duplicate reviews change nothing; otherwise exactly the validated review by the caller on the route's title is added |
| ReviewsViews.CreateComment | api_yamdb/api/views.py:78-92 | anonymous callers get 401, a blank text 400 (only the text is taken from the payload), an unknown review 404; otherwise exactly one comment by the caller on that review, with the submitted text, is added |
| ReviewsViews.DestroyReview | api_yamdb/api/views.py:60-67 | 401 for anonymous callers, 404 outside the title's listing, 403 for anyone other than an admin, a moderator or the author; otherwise the review cascade runs |
| ReviewsViews.DestroyComment | api_yamdb/api/views.py:78-85 | as for a review, with the lookup scoped to the review only; otherwise only the comment is removed |
| CatalogueViews.CreateCategory | api_yamdb/api/views.py:28-37 | non-admin writes are denied and change nothing; an invalid category changes nothing; otherwise exactly the validated category is added |
| CatalogueViews.CreateGenre | api_yamdb/api/views.py:50-52 | as for a category, on the genre table |
| CatalogueViews.DestroyCategory | api_yamdb/api/views.py:28-37 | non-admin writes are denied; an unknown slug gives 404; otherwise the SET_NULL deletion runs |
| CatalogueViews.DestroyGenre | api_yamdb/api/views.py:50-52 | non-admin writes are denied; an unknown slug gives 404; otherwise the genre cascade runs |
| CatalogueViews.CreateTitle | api_yamdb/api/views.py:40-47 | non-admin writes are denied; an invalid title changes nothing; otherwise the title is added and linked to exactly the validated genres, and nothing else changes |
| CatalogueViews.DestroyTitle | api_yamdb/api/views.py:40-47 | non-admin writes are denied; an unknown id gives 404; otherwise the title cascade runs |
| Sessions.ExchangeTwice | api_yamdb/api/views.py:159-162 | after a successful exchange, the same request again is refused as a wrong code |
| Sessions.ConfirmationFlow | api_yamdb/api/views.py:122-163 | after a successful signup, a wrong code is refused, the mailed code yields a token for that account, and replaying it is refused |

## Left out

- The title `rating` (an average score over the title's reviews) is a database float aggregate, so it is not modelled.
- Listing of categories, genres, titles and users is not modelled, and neither are search, filtering (`TitleFilter`), ordering or pagination. Only the scoping of the review and comment listings is modelled.
- Updating reviews, comments and titles (PUT/PATCH) is not modelled. The same goes for the admin's list, create, retrieve and update of users by username. These are the framework's generic update actions on the serializers modelled here; the permission they check is covered by the truth tables and `AuthViews.DestroyUser`.
- Validators.IsWordChar: `\w` is taken as the ASCII letters, digits and `_`. Python's Unicode `\w` also accepts other letters and digits.
- Serializers.ValidateSignup: the email is checked for presence and length only. The syntax check of `EmailField` is not modelled.
- Serializers.ValidateUserPatch: a submitted email is checked for presence, length and uniqueness only. The syntax check of the model's `EmailField` is not modelled, so `AuthViews.RetrievePatchMe` stores an email such as "x" that the API would refuse with 400.
- Serializers.ValidateTaxon: the length limits on name and slug and the slug character check are not modelled. Their values are in the settings module, which is not part of this model.
- Serializers.ValidateTitle: the length limit of the title name is not modelled, for the same reason.
- ReviewsModels.Consistent: the title year's model validator is not a stored invariant, because it depends on the clock. Its stability over time is `Validators.YearAcceptanceIsStable`.
- Whitespace stripping of text fields is not modelled. String inputs are taken as already stripped, so a blank field is the empty string.
- Error messages are not modelled. Field errors are the set of failing fields, except for the offending-character report of `validate_username`.
- The review score default (`DEFAULT_SCORE_VALUE`) is not modelled: the serializer requires a score, so the default is never used through the API.
- `pub_date`, the ordering of rows, and the `__str__` truncations are not modelled.
- The JWT token is opaque: only the user it is issued for is modelled.
- Permissions.PrincipalOf: a token naming a user that no longer exists is treated as no token. The JWT authenticator instead answers 401 on every request, including reads.
- AuthViews.Signup and AuthViews.ObtainToken: both views declare no permission classes, so they fall back to the project's default permission setting, which is not part of this model. The model assumes the default lets any caller in, anonymous ones included.
- The random code, the mail transport's outcome and the current year are parameters.
- The database uses one id per table; the model uses a single counter for all tables. Only freshness of ids matters here.
- Concurrency and transaction atomicity are not modelled. Requests are not atomic, so a failed mail delivery after signup leaves the new user and the stored code in place.
- The 16-bit width of `PositiveSmallIntegerField` (year, score) is not modelled. The validators keep both far inside it.
- `create_and_send_code` receives the user object and looks the user up by its string form, which is the username. The model looks the user up by username.
- The CSV import script, the admin site configuration and the URL routing are not modelled. The digit-only ids of the routes are modelled as naturals.
