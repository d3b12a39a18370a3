/**
 * Issuing a confirmation code: store a freshly generated code on the user, then mail that same
 * code to the user's address. The generator and the mail transport are parameters: the code is
 * what the random generator returned, and `delivered` is whether `send_mail` succeeded.
 */
module Utils {
  import opened Wrappers
  import opened Config
  import opened Errors
  import opened UsersModels
  import opened ReviewsModels
  import opened Store

  datatype Mail = Mail(subject: string, body: string, sender: string, recipients: seq<string>)

  const ConfirmationSubject: string := "Код подтверждения"
  const ConfirmationBodyPrefix: string := "Ваш код подтверждения для получения токена: "

  /** The body of the confirmation mail; the code sits between the fixed prefix and the final period. */
  function ConfirmationBody(code: string): (body: string)
    ensures |body| == |ConfirmationBodyPrefix| + |code| + 1
    ensures body[|ConfirmationBodyPrefix|..|body| - 1] == code
  {
    var body := ConfirmationBodyPrefix + code + ".";
    assert body[|ConfirmationBodyPrefix|..|body| - 1] == code;
    body
  }

  /** The message `create_and_send_code` passes to `send_mail`: one recipient, the user's address. */
  function ConfirmationMail(s: Settings, email: string, code: string): (m: Mail)
    ensures m.recipients == [email] && m.sender == s.confirmationSender
    ensures |m.body| == |ConfirmationBodyPrefix| + |code| + 1
    ensures m.body[|ConfirmationBodyPrefix|..|m.body| - 1] == code
  {
    Mail(ConfirmationSubject, ConfirmationBody(code), s.confirmationSender, [email])
  }

  /** The mail transport: the messages it has delivered, in order. */
  class Outbox {
    var sent: seq<Mail>

    constructor ()
      ensures sent == []
    {
      sent := [];
    }
  }

  /** The tables other than `users` are as before. */
  ghost predicate OnlyUsersDiffer(before: Tables, after: Tables) {
    after == before.(users := after.users)
  }

  /**
   * `create_and_send_code(username)`: 404 for an unknown user; otherwise the code is saved
   * first and mailed second, so a failed delivery leaves a stored code that was never sent.
   */
  method CreateAndSendCode(db: Database, outbox: Outbox, username: string, code: string, delivered: bool)
    returns (r: Result<UserId, ApiError>)
    requires db.Valid()
    requires |code| == db.settings.codeLength  // get_random_string(length=AUTH_CONF_CODE_MAXLENGTH)
    modifies db, outbox
    ensures db.Valid() && db.nextId == old(db.nextId)
    ensures OnlyUsersDiffer(old(db.Snapshot()), db.Snapshot())
    ensures LookupUsername(old(db.users), username).None? ==>
      r == Failure(NotFound) && db.users == old(db.users) && outbox.sent == old(outbox.sent)
    ensures LookupUsername(old(db.users), username).Some? ==>
      var id := LookupUsername(old(db.users), username).value;
      && db.users == old(db.users)[id := old(db.users)[id].(confirmationCode := Some(code))]
      && (delivered ==>
            r == Success(id)
            && outbox.sent == old(outbox.sent) + [ConfirmationMail(db.settings, old(db.users)[id].email, code)])
      && (!delivered ==> r == Failure(MailDeliveryFailed) && outbox.sent == old(outbox.sent))
  {
    var found := LookupUsername(db.users, username);
    if found.None? {
      return Failure(NotFound);
    }
    var id := found.value;
    var user := db.users[id];
    ReplaceUserKeepsConsistency(db.Snapshot(), id, user.(confirmationCode := Some(code)));
    db.users := db.users[id := user.(confirmationCode := Some(code))];
    if !delivered {
      return Failure(MailDeliveryFailed);
    }
    outbox.sent := outbox.sent + [ConfirmationMail(db.settings, user.email, code)];
    r := Success(id);
  }
}
