/** The outcomes a request can end with other than success, as the REST framework reports them. */
module Errors {

  /** The request fields that carry a field-level validation error. */
  datatype Field =
    | UsernameField | EmailField | CodeField | RoleField | FirstNameField | LastNameField
    | ScoreField | TextField | NameField | SlugField | YearField | DescriptionField
    | CategoryField | GenreField

  datatype ApiError =
    | Invalid(fields: set<Field>)   // 400 with one entry per failing field
    | WrongCode                     // 400: stored confirmation code differs from the submitted one
    | DuplicateReview               // 400: the (author, title) pair already has a review
    | EmailExists                   // 400: ERR_EMAIL_EXISTS at signup
    | UsernameExists                // 400: ERR_USERNAME_EXISTS at signup
    | CompleteSignupFirst           // 400: no confirmation code is stored
    | NotAuthenticated              // 401
    | PermissionDenied              // 403
    | NotFound                      // 404
    | MailDeliveryFailed            // 500: send_mail raised after the code was stored
}
