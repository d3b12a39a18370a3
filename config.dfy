/**
 * The values the core reads from the project settings module. That module is not part of
 * this model, so its constants are carried as one value that every operation receives.
 */
module Config {

  datatype Settings = Settings(
    usernameMaxLength: nat,    // AUTH_USERNAME_MAXLENGTH
    emailMaxLength: nat,       // AUTH_EMAIL_MAXLENGTH
    codeLength: nat,           // AUTH_CONF_CODE_MAXLENGTH: stored-code bound and generated-code length
    confirmationSender: string // EMAIL_CONFIRMATION: the From address of confirmation mails
  )

  /** `max_length` of `first_name` and `last_name` on Django's `AbstractUser`. */
  const PersonalNameMaxLength: nat := 150
}
