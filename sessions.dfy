/**
 * Sequences of requests a client makes against the account views, and what the code state
 * machine guarantees across them: a used code is refused on replay until a new one is issued.
 */
module Sessions {
  import opened Wrappers
  import opened Errors
  import opened UsersModels
  import opened Serializers
  import opened Store
  import opened Utils
  import opened AuthViews

  /**
   * Two token requests in a row with the same username and code: whenever the first yields a
   * token, the second is refused as a wrong code, because the first cleared the stored code.
   */
  method ExchangeTwice(db: Database, username: Option<string>, code: Option<string>)
    returns (first: Result<Token, ApiError>, second: Result<Token, ApiError>)
    requires db.Valid()
    modifies db
    ensures db.Valid()
    ensures first.Success? ==> second == Failure(WrongCode)
    ensures first.Failure? ==> second == first && db.users == old(db.users)
  {
    first := ObtainToken(db, username, code);
    if first.Success? {
      ghost var id := first.value.user;
      assert db.users[id].username == username.value && db.users[id].confirmationCode == Some("");
    }
    second := ObtainToken(db, username, code);
  }

  /**
   * The signup-and-confirm flow: sign up with a delivered code, try a wrong code, use the right
   * one, then replay it. The wrong code and the replay are refused; the right code yields a token
   * for the account the signup named. A client whose signup fails stops there.
   */
  method ConfirmationFlow(db: Database, outbox: Outbox, username: string, email: string, code: string, wrong: string)
    returns (signup: Result<(string, string), ApiError>, rejected: Result<Token, ApiError>,
             token: Result<Token, ApiError>, replay: Result<Token, ApiError>)
    requires db.Valid()
    requires |code| == db.settings.codeLength && code != ""
    requires wrong != code && wrong != "" && |wrong| <= db.settings.codeLength
    modifies db, outbox
    ensures db.Valid()
    ensures signup.Success? ==>
      && rejected == Failure(WrongCode)
      && token.Success? && token.value.user in db.users
      && db.users[token.value.user].username == username && db.users[token.value.user].email == email
      && replay == Failure(WrongCode)
  {
    signup := Signup(db, outbox, Some(username), Some(email), code, true);
    if signup.Failure? {
      rejected, token, replay := Failure(signup.error), Failure(signup.error), Failure(signup.error);
      return;
    }
    ghost var k :| k in db.users && db.users[k].username == username && db.users[k].email == email
      && db.users[k].confirmationCode == Some(code);
    TokenRequestForKnownUser(db.settings, db.users, k, wrong);
    rejected := ObtainToken(db, Some(username), Some(wrong));
    TokenRequestForKnownUser(db.settings, db.users, k, code);
    token := ObtainToken(db, Some(username), Some(code));
    TokenRequestForKnownUser(db.settings, db.users, k, code);
    replay := ObtainToken(db, Some(username), Some(code));
  }
}
