/**
 * The one-shot confirmation links of the preference e-mails (`preferences-confirm-pause`
 * and `preferences-confirm-disconnect`). A link carries a token; a token is accepted
 * once, for its own action, before its expiry, and only while its user exists. An
 * accepted token is marked used before anything else happens, so a later failure still
 * consumes it.
 */
module PreferenceConfirm {
  import opened Common
  import opened Tables
  import opened Pages

  const MISSING_TOKEN := "Missing confirmation token"
  const INVALID_TOKEN := "Invalid or expired confirmation token"
  const EXPIRED_TOKEN := "Confirmation token has expired"
  const PROCESS_FAILED := "Failed to process confirmation"
  const UPDATE_FAILED := "Failed to update preferences"
  const DELETE_FAILED := "Failed to delete account data"

  /** A plain reply with its status and body, a 302 redirect to a page, or a 302 redirect
      to the error page with a message. */
  datatype Reply = Plain(status: int, body: string) | Redirect(location: string) | ErrorRedirect(message: string)

  /** The row that `.eq("token", t).eq("action", action).eq("used", false)`, joined with
      `users!inner` and read with `.single()`, returns: the token's own row, when it is for
      this action, unused, and its user still exists. */
  function FindToken(tokens: map<string, PreferenceToken>, users: map<UserId, User>, token: string, action: string)
    : (r: Option<PreferenceToken>)
    ensures r.Some? <==> token in tokens && tokens[token].action == action && !tokens[token].used
                         && tokens[token].userId in users
    ensures r.Some? ==> r.value == tokens[token]
  {
    if token in tokens && tokens[token].action == action && !tokens[token].used && tokens[token].userId in users
    then Some(tokens[token])
    else None
  }

  /** `now > expiresAt`: a token is still good at the very millisecond of its expiry. */
  function Expired(now: int, expiresAtMs: int): (b: bool)
    ensures b <==> expiresAtMs < now
  {
    now > expiresAtMs
  }

  /** The outcome of the checks before any write. */
  datatype Acceptance = Refused(message: string) | Accepted(token: string, userId: UserId)

  /** The checks, in their order: the token parameter, the token row (`lookupFails` is a
      database error of the query), the expiry. */
  function Accept(tokens: map<string, PreferenceToken>, users: map<UserId, User>, token: Option<string>,
                  action: string, lookupFails: bool, now: int): (a: Acceptance)
    ensures a.Accepted? <==> && Truthy(token) && !lookupFails && FindToken(tokens, users, token.value, action).Some?
                             && !Expired(now, tokens[token.value].expiresAtMs)
    ensures a.Accepted? ==> a.token == token.value && a.token in tokens && a.userId == tokens[a.token].userId
                            && a.userId in users
    ensures !Truthy(token) ==> a == Refused(MISSING_TOKEN)
    ensures Truthy(token) && (lookupFails || FindToken(tokens, users, token.value, action).None?) ==>
              a == Refused(INVALID_TOKEN)
    ensures a.Refused? ==> a.message in {MISSING_TOKEN, INVALID_TOKEN, EXPIRED_TOKEN}
    ensures (&& Truthy(token) && !lookupFails && FindToken(tokens, users, token.value, action).Some?
             && Expired(now, tokens[token.value].expiresAtMs)) ==>
              a == Refused(EXPIRED_TOKEN)
  {
    if !Truthy(token) then Refused(MISSING_TOKEN)
    else match (if lookupFails then None else FindToken(tokens, users, token.value, action))
      case None => Refused(INVALID_TOKEN)
      case Some(row) =>
        if Expired(now, row.expiresAtMs) then Refused(EXPIRED_TOKEN)
        else Accepted(token.value, row.userId)
  }

  /** `.update({ used: true }).eq("id", …)` on the token's row. */
  function MarkUsed(tokens: map<string, PreferenceToken>, t: string): (r: map<string, PreferenceToken>)
    requires t in tokens
    ensures r.Keys == tokens.Keys && r[t].used
    ensures r[t].userId == tokens[t].userId && r[t].action == tokens[t].action
    ensures forall k :: k in tokens && k != t ==> r[k] == tokens[k]
  {
    tokens[t := tokens[t].(used := true)]
  }

  /** A consumed token is refused ever after, whatever the users and the time. */
  lemma ConsumedTokenRefused(tokens: map<string, PreferenceToken>, users: map<UserId, User>, t: string,
                             action: string, later: map<UserId, User>, now: int, lookupFails: bool)
    requires Accept(tokens, users, Some(t), action, false, now).Accepted?
    ensures Accept(MarkUsed(tokens, t), later, Some(t), action, lookupFails, now) == Refused(INVALID_TOKEN)
  {
    assert FindToken(MarkUsed(tokens, t), later, t, action).None?;
  }

  /** The expiry is strict: a token is accepted at its expiry and refused one millisecond
      later, with the message that says so. */
  lemma ExpiryIsStrict(tokens: map<string, PreferenceToken>, users: map<UserId, User>, t: string, action: string)
    requires t != "" && FindToken(tokens, users, t, action).Some?
    ensures Accept(tokens, users, Some(t), action, false, tokens[t].expiresAtMs).Accepted?
    ensures Accept(tokens, users, Some(t), action, false, tokens[t].expiresAtMs + 1) == Refused(EXPIRED_TOKEN)
  {
  }

  /** A token confirms only the action it was issued for. */
  lemma ActionIsBound(tokens: map<string, PreferenceToken>, users: map<UserId, User>, token: Option<string>,
                      action: string, other: string, now: int)
    requires action != other && Accept(tokens, users, token, action, false, now).Accepted?
    ensures Accept(tokens, users, token, other, false, now) == Refused(INVALID_TOKEN)
  {
  }

  /** The `Location` header of a redirect. */
  function Location(r: Reply): (loc: Option<string>)
    ensures r.Plain? <==> loc.None?
    ensures r.ErrorRedirect? ==> loc == Some(WithError(PREFERENCES_ERROR, r.message))
  {
    match r
    case Plain(_, _) => None
    case Redirect(l) => Some(l)
    case ErrorRedirect(m) => Some(WithError(PREFERENCES_ERROR, m))
  }

  /** `preferences-confirm-pause`: `markFails` and `updateFails` are database errors of
      the token update and of the user update. */
  method ConfirmPause(db: Store, verb: string, token: Option<string>, lookupFails: bool, now: int,
                      markFails: bool, updateFails: bool)
      returns (reply: Reply)
    requires db.Valid()
    modifies db`tokens, db`users
    ensures db.Valid()
    ensures var a := Accept(old(db.tokens), old(db.users), token, "pause", lookupFails, now);
            && (verb != "GET" ==>
                  reply == Plain(405, "Method not allowed") && db.tokens == old(db.tokens) && db.users == old(db.users))
            && (verb == "GET" && a.Refused? ==>
                  reply == ErrorRedirect(a.message) && db.tokens == old(db.tokens) && db.users == old(db.users))
            && (verb == "GET" && a.Accepted? && markFails ==>
                  reply == ErrorRedirect(PROCESS_FAILED) && db.tokens == old(db.tokens) && db.users == old(db.users))
            && (verb == "GET" && a.Accepted? && !markFails ==> db.tokens == MarkUsed(old(db.tokens), a.token))
            && (verb == "GET" && a.Accepted? && !markFails && updateFails ==>
                  reply == ErrorRedirect(UPDATE_FAILED) && db.users == old(db.users))
            && (verb == "GET" && a.Accepted? && !markFails && !updateFails ==>
                  && reply == Redirect(PREFERENCES_PAUSED)
                  && db.users == old(db.users)[a.userId := old(db.users)[a.userId].(isActive := false)])
  {
    if verb != "GET" {
      return Plain(405, "Method not allowed");
    }
    var a := Accept(db.tokens, db.users, token, "pause", lookupFails, now);
    if a.Refused? {
      return ErrorRedirect(a.message);
    }
    if markFails {
      return ErrorRedirect(PROCESS_FAILED);
    }
    db.MarkTokenUsed(a.token);
    if updateFails {
      return ErrorRedirect(UPDATE_FAILED);
    }
    db.UpdateUser(a.userId, db.users[a.userId].(isActive := false));
    reply := Redirect(PREFERENCES_PAUSED);
  }

  /** `preferences-confirm-disconnect`. `deauthorized` is the access token sent to the
      provider's deauthorization endpoint, if the call is made; its outcome does not
      matter. `deleteFails` is a database error of the user delete. */
  method ConfirmDisconnect(db: Store, verb: string, token: Option<string>, lookupFails: bool, now: int,
                           markFails: bool, deleteFails: bool)
      returns (reply: Reply, deauthorized: Option<string>)
    requires db.Valid()
    modifies db`tokens, db`users, db`runs, db`conversations, db`messages, db`pendingReplies
    ensures db.Valid()
    ensures var a := Accept(old(db.tokens), old(db.users), token, "disconnect", lookupFails, now);
            && (!(verb == "GET" && a.Accepted? && !markFails) ==>
                  && deauthorized == None
                  && db.tokens == old(db.tokens) && db.users == old(db.users) && db.runs == old(db.runs)
                  && db.conversations == old(db.conversations) && db.messages == old(db.messages)
                  && db.pendingReplies == old(db.pendingReplies))
            && (verb != "GET" ==> reply == Plain(405, "Method not allowed"))
            && (verb == "GET" && a.Refused? ==> reply == ErrorRedirect(a.message))
            && (verb == "GET" && a.Accepted? && markFails ==> reply == ErrorRedirect(PROCESS_FAILED))
            && (verb == "GET" && a.Accepted? && !markFails ==>
                  var access := old(db.users)[a.userId].creds.accessToken;
                  deauthorized == (if Truthy(access) then access else None))
            && (verb == "GET" && a.Accepted? && !markFails && deleteFails ==>
                  && reply == ErrorRedirect(DELETE_FAILED)
                  && db.tokens == MarkUsed(old(db.tokens), a.token) && db.users == old(db.users)
                  && db.runs == old(db.runs) && db.conversations == old(db.conversations)
                  && db.messages == old(db.messages) && db.pendingReplies == old(db.pendingReplies))
            && (verb == "GET" && a.Accepted? && !markFails && !deleteFails ==>
                  && reply == Redirect(PREFERENCES_DISCONNECTED)
                  && db.users == old(db.users) - {a.userId}
                  && db.tokens == Without(MarkUsed(old(db.tokens), a.token), TokenOwner, a.userId)
                  && db.runs == Without(old(db.runs), RunOwner, a.userId)
                  && db.conversations == Without(old(db.conversations), ConversationOwner, a.userId)
                  && db.messages == Without(old(db.messages), MessageOwner, a.userId)
                  && db.pendingReplies == RepliesWithout(old(db.pendingReplies), old(db.messages), a.userId))
  {
    deauthorized := None;
    if verb != "GET" {
      return Plain(405, "Method not allowed"), deauthorized;
    }
    var a := Accept(db.tokens, db.users, token, "disconnect", lookupFails, now);
    if a.Refused? {
      return ErrorRedirect(a.message), deauthorized;
    }
    if markFails {
      return ErrorRedirect(PROCESS_FAILED), deauthorized;
    }
    db.MarkTokenUsed(a.token);
    var access := db.users[a.userId].creds.accessToken;
    if Truthy(access) {
      deauthorized := access;
    }
    if deleteFails {
      return ErrorRedirect(DELETE_FAILED), deauthorized;
    }
    db.DeleteUserCascade(a.userId);
    reply := Redirect(PREFERENCES_DISCONNECTED);
  }
}
