/**
 * The preference requests sent from the web site (`preferences-pause`,
 * `preferences-resume`, `preferences-request-data`). Each checks its JSON body in a
 * fixed order and looks the user up by email; pause and resume then issue a one-shot
 * token and mail its confirmation link, and a data request mails a notification and an
 * acknowledgement. Sending goes through the mail provider; a send that throws ends the
 * request with 500.
 */
module PreferenceRequests {
  import opened Common
  import opened Text
  import opened EmailShape
  import opened Tables
  import PreferenceConfirm

  /** The status and the `error` or `message` of a JSON reply. */
  datatype Reply = Reply(status: int, message: string)

  const METHOD_NOT_ALLOWED := Reply(405, "Method not allowed")
  /** The reply of the handlers' `catch`: a body that is not JSON, or a send that throws. */
  const SERVER_ERROR := Reply(500, "Internal server error")
  const INVALID_EMAIL := Reply(400, "Invalid email format")
  const TOKEN_FAILED := Reply(500, "Failed to generate confirmation token")
  const CONFIRMATION_SENT := Reply(200, "Confirmation email sent")

  /** The fields `name` and `email` of the JSON body. */
  datatype Body = Body(name: Option<string>, email: Option<string>)

  /** An e-mail handed to the provider: the recipient (`None` when the address is an unset
      environment value), the subject, and the lines of the text that depend on the request. */
  datatype Mail = Mail(to: Option<string>, subject: string, lines: seq<string>)

  // ---------------------------------------------------------------- validation

  /** The checks before the database is queried. */
  datatype Check = Stop(reply: Reply) | Go(name: Option<string>, email: string)

  /** The method, then the body's JSON, then the required fields, then the email's shape.
      `nameRequired` is the rule of `preferences-resume`; the others need only the email. */
  function Validate(verb: string, body: Option<Body>, nameRequired: bool): (c: Check)
    ensures verb != "POST" ==> c == Stop(METHOD_NOT_ALLOWED)
    ensures verb == "POST" && body.None? ==> c == Stop(SERVER_ERROR)
    ensures c.Go? <==> && verb == "POST" && body.Some? && Truthy(body.value.email)
                       && (nameRequired ==> Truthy(body.value.name)) && IsEmail(body.value.email.value)
    ensures c.Go? ==> c.email == body.value.email.value && c.name == body.value.name
    ensures verb == "POST" && body.Some? && c.Stop? ==>
              && c.reply.status == 400
              && (c.reply == INVALID_EMAIL <==> Truthy(body.value.email) && (nameRequired ==> Truthy(body.value.name)))
    ensures verb == "POST" && body.Some? && nameRequired && (!Truthy(body.value.name) || !Truthy(body.value.email)) ==>
              c == Stop(Reply(400, "Missing required parameters"))
    ensures verb == "POST" && body.Some? && !nameRequired && !Truthy(body.value.email) ==>
              c == Stop(Reply(400, "Missing email parameter"))
  {
    if verb != "POST" then Stop(METHOD_NOT_ALLOWED)
    else if body.None? then Stop(SERVER_ERROR)
    else
      var Body(name, email) := body.value;
      if nameRequired && (!Truthy(name) || !Truthy(email)) then Stop(Reply(400, "Missing required parameters"))
      else if !Truthy(email) then Stop(Reply(400, "Missing email parameter"))
      else if !IsEmail(email.value) then Stop(INVALID_EMAIL)
      else Go(name, email.value)
  }

  /** `name || user.name || "there"`. */
  function DisplayName(given: Option<string>, stored: Option<string>): (n: string)
    ensures n != ""
    ensures Truthy(given) ==> n == given.value
    ensures !Truthy(given) && Truthy(stored) ==> n == stored.value
    ensures !Truthy(given) && !Truthy(stored) ==> n == "there"
  {
    if Truthy(given) then given.value else if Truthy(stored) then stored.value else "there"
  }

  /** `user.name?.toLowerCase() !== name.toLowerCase()` is false: the stored name is
      present and equal to the given one up to case. */
  predicate NamesMatch(stored: Option<string>, given: string) {
    stored.Some? && Lower(stored.value) == Lower(given)
  }

  /** The comparison ignores case both ways, and a missing stored name never matches. */
  lemma NamesMatchIgnoresCase(s: string, t: string)
    ensures NamesMatch(Some(s), Lower(s)) && NamesMatch(Some(Lower(s)), s)
    ensures NamesMatch(Some(s), t) <==> NamesMatch(Some(t), s)
    ensures !NamesMatch(None, t)
  {
    LowerKeepsLowerCase(s);
  }

  /** `${SUPABASE_URL}/functions/v1/${page}?token=${token}`. */
  function ConfirmationUrl(base: string, page: string, token: string): string {
    base + "/functions/v1/" + page + "?token=" + token
  }

  /** The link names its token: two links to the same page differ for different tokens. */
  lemma ConfirmationUrlCarriesToken(base: string, page: string, t1: string, t2: string)
    requires ConfirmationUrl(base, page, t1) == ConfirmationUrl(base, page, t2)
    ensures t1 == t2
  {
    var prefix := base + "/functions/v1/" + page + "?token=";
    assert ConfirmationUrl(base, page, t1) == prefix + t1;
    assert ConfirmationUrl(base, page, t2) == prefix + t2;
    assert t1 == (prefix + t1)[|prefix|..];
    assert t2 == (prefix + t2)[|prefix|..];
  }

  // ---------------------------------------------------------------- pause and resume

  /** What a pause or resume request does before its token is stored: refuse, or issue a
      token for the user with the greeting name and the recipient. */
  datatype Decision = Refuse(reply: Reply) | Issue(userId: UserId, greeting: string, email: string)

  /** `preferences-pause`: the email is required; the greeting falls back from the given
      name to the stored one. */
  function PauseDecision(users: map<UserId, User>, verb: string, body: Option<Body>, lookupFails: bool): (d: Decision)
    requires UniqueEmails(users)
    ensures var c := Validate(verb, body, false);
            && (c.Stop? ==> d == Refuse(c.reply))
            && (c.Go? && FindUser(users, c.email, lookupFails).None? ==> d == Refuse(Reply(404, "User not found")))
            && (c.Go? && FindUser(users, c.email, lookupFails).Some? ==>
                  var u := FindUser(users, c.email, lookupFails).value;
                  d == Issue(u, DisplayName(c.name, users[u].name), c.email))
  {
    match Validate(verb, body, false)
    case Stop(reply) => Refuse(reply)
    case Go(name, email) =>
      match FindUser(users, email, lookupFails)
      case None => Refuse(Reply(404, "User not found"))
      case Some(u) => Issue(u, DisplayName(name, users[u].name), email)
  }

  /** `preferences-resume`: the name and the email are required, and the name must match the
      stored one up to case; the greeting is the given name. */
  function ResumeDecision(users: map<UserId, User>, verb: string, body: Option<Body>, lookupFails: bool): (d: Decision)
    requires UniqueEmails(users)
    ensures var c := Validate(verb, body, true);
            && (c.Stop? ==> d == Refuse(c.reply))
            && (c.Go? && FindUser(users, c.email, lookupFails).None? ==>
                  d == Refuse(Reply(404, "User not found or invalid parameters")))
            && (c.Go? && FindUser(users, c.email, lookupFails).Some? ==>
                  var u := FindUser(users, c.email, lookupFails).value;
                  && (NamesMatch(users[u].name, c.name.value) ==> d == Issue(u, c.name.value, c.email))
                  && (!NamesMatch(users[u].name, c.name.value) ==> d == Refuse(Reply(400, "Name does not match"))))
  {
    match Validate(verb, body, true)
    case Stop(reply) => Refuse(reply)
    case Go(name, email) =>
      match FindUser(users, email, lookupFails)
      case None => Refuse(Reply(404, "User not found or invalid parameters"))
      case Some(u) =>
        if !NamesMatch(users[u].name, name.value) then Refuse(Reply(400, "Name does not match"))
        else Issue(u, name.value, email)
  }

  /** The token row a request stores: `used` and `expires_at` take the table's defaults
      (unused, and the expiry the database gives it). */
  function TokenRow(userId: UserId, action: string, expiresAtMs: int): (t: PreferenceToken)
    ensures t.userId == userId && t.action == action && !t.used && t.expiresAtMs == expiresAtMs
  {
    PreferenceToken(userId, action, expiresAtMs, false)
  }

  /** A token a pause request stored is accepted by the pause confirmation until it
      expires, and by no other confirmation. */
  lemma IssuedTokenConfirms(tokens: map<string, PreferenceToken>, users: map<UserId, User>, t: string,
                            u: UserId, action: string, expiresAtMs: int, now: int, other: string)
    requires t != "" && u in users && now <= expiresAtMs && other != action
    ensures var issued := tokens[t := TokenRow(u, action, expiresAtMs)];
            && PreferenceConfirm.Accept(issued, users, Some(t), action, false, now) == PreferenceConfirm.Accepted(t, u)
            && PreferenceConfirm.Accept(issued, users, Some(t), other, false, now)
                 == PreferenceConfirm.Refused(PreferenceConfirm.INVALID_TOKEN)
  {
    var issued := tokens[t := TokenRow(u, action, expiresAtMs)];
    assert PreferenceConfirm.FindToken(issued, users, t, action) == Some(issued[t]);
    assert PreferenceConfirm.FindToken(issued, users, t, other).None?;
  }

  /** Stores the token and mails the link to `page` with it. `token` is the fresh value of
      `crypto.randomUUID()`; the insert fails on a database error (`insertFails`) or when the
      token is taken. `sendThrows` is a send that throws. */
  method IssueToken(db: Store, d: Decision, action: string, page: string, subject: string, base: string,
                    token: string, expiresAtMs: int, insertFails: bool, sendThrows: bool)
      returns (reply: Reply, mail: Option<Mail>)
    requires db.Valid()
    modifies db`tokens
    ensures db.Valid()
    ensures d.Refuse? ==> reply == d.reply && mail == None && db.tokens == old(db.tokens)
    ensures d.Issue? && (insertFails || token in old(db.tokens)) ==>
              reply == TOKEN_FAILED && mail == None && db.tokens == old(db.tokens)
    ensures d.Issue? && !insertFails && token !in old(db.tokens) ==>
              && db.tokens == old(db.tokens)[token := TokenRow(d.userId, action, expiresAtMs)]
              && mail == Some(Mail(Some(d.email), subject, ["G'day " + d.greeting + ",", ConfirmationUrl(base, page, token)]))
              && reply == (if sendThrows then SERVER_ERROR else CONFIRMATION_SENT)
  {
    if d.Refuse? {
      return d.reply, None;
    }
    if insertFails || token in db.tokens {
      return TOKEN_FAILED, None;
    }
    db.tokens := db.tokens[token := TokenRow(d.userId, action, expiresAtMs)];
    mail := Some(Mail(Some(d.email), subject, ["G'day " + d.greeting + ",", ConfirmationUrl(base, page, token)]));
    reply := if sendThrows then SERVER_ERROR else CONFIRMATION_SENT;
  }

  /** `preferences-pause`. */
  method RequestPause(db: Store, verb: string, body: Option<Body>, lookupFails: bool, base: string,
                      token: string, expiresAtMs: int, insertFails: bool, sendThrows: bool)
      returns (reply: Reply, mail: Option<Mail>)
    requires db.Valid()
    modifies db`tokens
    ensures db.Valid()
    ensures var d := PauseDecision(old(db.users), verb, body, lookupFails);
            && (d.Refuse? ==> reply == d.reply && mail == None && db.tokens == old(db.tokens))
            && (d.Issue? && (insertFails || token in old(db.tokens)) ==>
                  reply == TOKEN_FAILED && mail == None && db.tokens == old(db.tokens))
            && (d.Issue? && !insertFails && token !in old(db.tokens) ==>
                  && db.tokens == old(db.tokens)[token := TokenRow(d.userId, "pause", expiresAtMs)]
                  && mail == Some(Mail(Some(d.email), "Confirm: Pause Reggie's emails",
                                       ["G'day " + d.greeting + ",", ConfirmationUrl(base, "preferences-confirm-pause", token)]))
                  && reply == (if sendThrows then SERVER_ERROR else CONFIRMATION_SENT))
  {
    var d := PauseDecision(db.users, verb, body, lookupFails);
    reply, mail := IssueToken(db, d, "pause", "preferences-confirm-pause", "Confirm: Pause Reggie's emails", base,
                              token, expiresAtMs, insertFails, sendThrows);
  }

  /** `preferences-resume`. */
  method RequestResume(db: Store, verb: string, body: Option<Body>, lookupFails: bool, base: string,
                       token: string, expiresAtMs: int, insertFails: bool, sendThrows: bool)
      returns (reply: Reply, mail: Option<Mail>)
    requires db.Valid()
    modifies db`tokens
    ensures db.Valid()
    ensures var d := ResumeDecision(old(db.users), verb, body, lookupFails);
            && (d.Refuse? ==> reply == d.reply && mail == None && db.tokens == old(db.tokens))
            && (d.Issue? && (insertFails || token in old(db.tokens)) ==>
                  reply == TOKEN_FAILED && mail == None && db.tokens == old(db.tokens))
            && (d.Issue? && !insertFails && token !in old(db.tokens) ==>
                  && db.tokens == old(db.tokens)[token := TokenRow(d.userId, "resume", expiresAtMs)]
                  && mail == Some(Mail(Some(d.email), "Confirm: Resume Reggie's emails",
                                       ["G'day " + d.greeting + ",", ConfirmationUrl(base, "preferences-confirm-resume", token)]))
                  && reply == (if sendThrows then SERVER_ERROR else CONFIRMATION_SENT))
  {
    var d := ResumeDecision(db.users, verb, body, lookupFails);
    reply, mail := IssueToken(db, d, "resume", "preferences-confirm-resume", "Confirm: Resume Reggie's emails", base,
                              token, expiresAtMs, insertFails, sendThrows);
  }

  // ---------------------------------------------------------------- data requests

  /** A value interpolated into a template literal: `null` prints as `"null"`. */
  function Interpolated(v: Option<string>): string {
    v.GetOr("null")
  }

  /** The lines of the notification that carry the user's data. */
  function NotificationLines(displayName: string, u: User): (lines: seq<string>)
    ensures |lines| == 4
    ensures lines[0] == "User: " + displayName + " (" + u.email + ")"
    ensures lines[1] == "Timezone: " + Interpolated(u.timezone)
    ensures lines[2] == "Account Created: " + u.createdAt
    ensures lines[3] == if u.isActive then "Active: Yes" else "Active: No"
  {
    ["User: " + displayName + " (" + u.email + ")",
     "Timezone: " + Interpolated(u.timezone),
     "Account Created: " + u.createdAt,
     "Active: " + (if u.isActive then "Yes" else "No")]
  }

  /** The notification says `Active: Yes` exactly for an active user. */
  lemma ActiveLine(displayName: string, u: User)
    ensures "Active: Yes" in NotificationLines(displayName, u) <==> u.isActive
  {
    var lines := NotificationLines(displayName, u);
    assert lines[0][0] == 'U' && lines[1][0] == 'T' && lines[2][1] == 'c';
    assert "Active: Yes"[0] == 'A' && "Active: Yes"[1] == 'c';
    if !u.isActive {
      assert lines[3] != "Active: Yes" by { assert lines[3][8] == 'N'; }
    }
  }

  /** `preferences-request-data`: the reply, and the mails handed to the provider in order
      (the notification to `assistance`, then the acknowledgement to the user). A mail that
      throws ends the request at that mail. Nothing is stored. */
  function RequestData(users: map<UserId, User>, verb: string, body: Option<Body>, lookupFails: bool,
                       assistance: Option<string>, firstThrows: bool, secondThrows: bool): (r: (Reply, seq<Mail>))
    requires UniqueEmails(users)
    ensures var c := Validate(verb, body, false);
            && (c.Stop? ==> r == (c.reply, []))
            && (c.Go? && FindUser(users, c.email, lookupFails).None? ==> r == (Reply(404, "User not found"), []))
            && (c.Go? && FindUser(users, c.email, lookupFails).Some? ==>
                  var u := users[FindUser(users, c.email, lookupFails).value];
                  var name := DisplayName(c.name, u.name);
                  && |r.1| == (if firstThrows then 1 else 2)
                  && r.1[0] == Mail(assistance, "Data Access Request - " + Interpolated(u.name), NotificationLines(name, u))
                  && (!firstThrows ==> r.1[1] == Mail(Some(c.email), "Data Access Request Received", ["G'day " + name + ","]))
                  && r.0 == if firstThrows || secondThrows then SERVER_ERROR
                            else Reply(200, "Data request submitted successfully"))
  {
    match Validate(verb, body, false)
    case Stop(reply) => (reply, [])
    case Go(given, email) =>
      match FindUser(users, email, lookupFails)
      case None => (Reply(404, "User not found"), [])
      case Some(id) =>
        var u := users[id];
        var name := DisplayName(given, u.name);
        var notification := Mail(assistance, "Data Access Request - " + Interpolated(u.name), NotificationLines(name, u));
        if firstThrows then (SERVER_ERROR, [notification])
        else
          var acknowledgement := Mail(Some(email), "Data Access Request Received", ["G'day " + name + ","]);
          (if secondThrows then SERVER_ERROR else Reply(200, "Data request submitted successfully"),
           [notification, acknowledgement])
  }

  /** Only a request for a known user mails anything, and then the notification goes first. */
  lemma DataRequestMailsKnownUsersOnly(users: map<UserId, User>, verb: string, body: Option<Body>, lookupFails: bool,
                                       assistance: Option<string>, firstThrows: bool, secondThrows: bool)
    requires UniqueEmails(users)
    ensures var r := RequestData(users, verb, body, lookupFails, assistance, firstThrows, secondThrows);
            r.1 != [] <==> verb == "POST" && body.Some? && Validate(verb, body, false).Go?
                           && WithEmail(users, body.value.email.value) != {} && !lookupFails
    ensures var r := RequestData(users, verb, body, lookupFails, assistance, firstThrows, secondThrows);
            r.1 != [] ==> r.1[0].to == assistance
  {
  }
}
