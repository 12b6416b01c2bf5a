/**
 * The reply job (`outbound-reply`): every pending reply not yet sent is answered. A sender
 * who is not active yet gets the link that connects their Strava account; an active user
 * gets an acknowledgement, and the assistant a notification. A reply is marked sent only
 * after its mail has been handed to the provider; a failure on one reply never stops the
 * others.
 */
module OutboundReply {
  import opened Common
  import opened Text
  import opened Uri
  import opened Tables

  /** The environment values the mails interpolate (`None` when unset). */
  datatype Env = Env(clientId: Option<string>, supabaseUrl: Option<string>, reggieUrl: Option<string>,
                     assistance: Option<string>)

  /** What the database and the mail provider do while one reply is handled. A send of the
      notification that throws is not a field: it comes after `sent` is written, and the
      `catch` only logs it, so it changes nothing the model states. */
  datatype ReplyFeed = ReplyFeed(
    lookupFails: bool,     // the user query errs
    replyThrows: bool,     // the send of the reply throws
    markFails: bool,       // the update of `sent` errs (the error is not looked at)
    messageFails: bool)    // the message query errs (logged only)

  /** A mail the handler passes to the provider's send call, listed whether or not that
      call then throws: the recipient, the subject, and the parts of the content that
      depend on the reply. */
  datatype Mail = Mail(to: Option<string>, subject: string, parts: seq<string>)

  /** A value interpolated into a template literal: an unset value prints as `"undefined"`. */
  function Interp(v: Option<string>): string {
    v.GetOr("undefined")
  }

  // ---------------------------------------------------------------- the authorize link

  const AUTHORIZE := "https://www.strava.com/oauth/authorize?client_id="

  /** Everything of the authorize link before the value of `state`. */
  function AuthorizePrefix(env: Env): string {
    AUTHORIZE + Interp(env.clientId) + "&response_type=code&redirect_uri="
      + EncodeURIComponent(Interp(env.supabaseUrl) + "/functions/v1/strava-callback")
      + "&scope=read,activity:read_all&state="
  }

  /** The authorization request of section 4.1.1 of RFC 6749: `response_type=code`, the
      callback as `redirect_uri`, the scopes, and the sender's email as `state`. The value
      of `state` runs to the end of the link, holds no delimiter, and decodes back to the
      email, which the callback then looks the user up by. */
  function AuthorizeUrl(env: Env, email: string): (url: string)
    ensures |url| >= |AuthorizePrefix(env)| && url[..|AuthorizePrefix(env)|] == AuthorizePrefix(env)
    ensures DecodeURIComponent(url[|AuthorizePrefix(env)|..]) == Some(email)
    ensures '&' !in url[|AuthorizePrefix(env)|..] && '#' !in url[|AuthorizePrefix(env)|..]
  {
    EncodeURIComponentRoundTrip(email);
    EncodedHasNoDelimiter(email);
    var url := AuthorizePrefix(env) + EncodeURIComponent(email);
    assert url[|AuthorizePrefix(env)|..] == EncodeURIComponent(email);
    url
  }

  /** Links for different senders differ. */
  lemma AuthorizeUrlInjective(env: Env, e1: string, e2: string)
    requires AuthorizeUrl(env, e1) == AuthorizeUrl(env, e2)
    ensures e1 == e2
  {
    var n := |AuthorizePrefix(env)|;
    assert Some(e1) == DecodeURIComponent(AuthorizeUrl(env, e1)[n..]) == Some(e2);
  }

  // ---------------------------------------------------------------- one reply

  /** `!user.is_active`. */
  function IsNewUser(u: User): (b: bool)
    ensures b <==> !u.isActive
  {
    !u.isActive
  }

  /** `a || "fallback"` for an optional string. */
  function OrText(a: Option<string>, fallback: string): string {
    if Truthy(a) then a.value else fallback
  }

  /** The reply mail: the connect link for a new user, otherwise the greeting and the link
      to the preferences page. */
  function ReplyMail(u: User, email: string, env: Env): (m: Mail)
    ensures m.to == Some(email) && m.subject == "Got it"
    ensures IsNewUser(u) ==> m.parts == [AuthorizeUrl(env, email)]
    ensures !IsNewUser(u) ==> |m.parts| == 2 && m.parts[0] == "Hey " + OrText(u.name, "mate") + ", confirming that I got your email."
    ensures !IsNewUser(u) ==>
              m.parts[1] == Interp(env.reggieUrl) + "/preferences?name=" + u.name.GetOr("null") + "&email=" + email
  {
    if IsNewUser(u) then Mail(Some(email), "Got it", [AuthorizeUrl(env, email)])
    else Mail(Some(email), "Got it",
              ["Hey " + OrText(u.name, "mate") + ", confirming that I got your email.",
               Interp(env.reggieUrl) + "/preferences?name=" + u.name.GetOr("null") + "&email=" + email])
  }

  /** The notification to the assistant; `message` is the message row, if its query found it. */
  function NotificationMail(u: User, email: string, messageId: nat, message: Option<Message>, env: Env): (m: Mail)
    ensures m.to == env.assistance && m.subject == "New reply from " + OrText(u.name, email)
    ensures |m.parts| == 5 && m.parts[1] == "Email: " + email
    ensures m.parts[0] == "Name: " + (if Truthy(u.name) then u.name.value else "No name")
    ensures message.None? ==>
              && m.parts[2] == "Message ID: undefined" && m.parts[3] == "Subject: No subject"
              && m.parts[4] == "Body: No content"
    ensures message.Some? ==>
              && m.parts[2] == "Message ID: " + NatToString(messageId)
              && m.parts[3] == "Subject: " + (if Truthy(message.value.subject) then message.value.subject.value else "No subject")
              && m.parts[4] == "Body: " + (if Truthy(message.value.body) then message.value.body.value else "No content")
  {
    var name := "Name: " + OrText(u.name, "No name");
    var parts := match message
      case None => [name, "Email: " + email, "Message ID: undefined", "Subject: No subject", "Body: No content"]
      case Some(msg) =>
        [name, "Email: " + email, "Message ID: " + NatToString(messageId),
         "Subject: " + OrText(msg.subject, "No subject"), "Body: " + OrText(msg.body, "No content")];
    Mail(env.assistance, "New reply from " + OrText(u.name, email), parts)
  }

  /** The reply's mail was handed to the provider and `sent` was written: the user query
      found the sender, the send did not throw, and the update did not err. */
  function Delivered(users: map<UserId, User>, reply: PendingReply, f: ReplyFeed): (b: bool)
    ensures b ==> !f.replyThrows && !f.markFails && !f.lookupFails
    ensures b ==> WithEmail(users, reply.email) != {}
  {
    !f.lookupFails && WithEmail(users, reply.email) != {} && !f.replyThrows && !f.markFails
  }

  /** The message row the notification shows: none when its query errs or finds no row
      (`.single()`), so that `message?.…` reads `undefined`. */
  function FetchedMessage(messages: map<nat, Message>, reply: PendingReply, f: ReplyFeed): (m: Option<Message>)
    ensures m.Some? <==> !f.messageFails && reply.messageId in messages
    ensures m.Some? ==> m.value == messages[reply.messageId]
  {
    if f.messageFails || reply.messageId !in messages then None else Some(messages[reply.messageId])
  }

  /** What handling one reply does: the mails handed to the provider, and whether `sent`
      becomes true. */
  datatype Outcome = Outcome(mails: seq<Mail>, markSent: bool)

  /** The body of the loop for one reply. The user query is `.single()`, so a sender with no
      user row is skipped like a failed query. */
  function Process(users: map<UserId, User>, messages: map<nat, Message>, reply: PendingReply,
                   f: ReplyFeed, env: Env): (o: Outcome)
    requires UniqueEmails(users)
    ensures o.markSent == Delivered(users, reply, f)
    ensures o.mails == [] <==> FindUser(users, reply.email, f.lookupFails).None?
    ensures |o.mails| <= 2
    ensures var found := FindUser(users, reply.email, f.lookupFails);
            && (found.Some? ==> o.mails[0] == ReplyMail(users[found.value], reply.email, env))
            && (|o.mails| == 2 ==> found.Some? && !IsNewUser(users[found.value]) && o.mails[1].to == env.assistance)
  {
    match FindUser(users, reply.email, f.lookupFails)
    case None => Outcome([], false)
    case Some(id) =>
      var u := users[id];
      var first := ReplyMail(u, reply.email, env);
      if f.replyThrows then Outcome([first], false)
      else if IsNewUser(u) then Outcome([first], !f.markFails)
      else
        Outcome([first, NotificationMail(u, reply.email, reply.messageId, FetchedMessage(messages, reply, f), env)],
                !f.markFails)
  }

  /** A found user whose reply throws, or who is not active yet, gets the reply alone; an
      active user whose reply went through also gets the assistant notified, with the
      message row the query found. */
  lemma ProcessNotifies(users: map<UserId, User>, messages: map<nat, Message>, reply: PendingReply,
                        f: ReplyFeed, env: Env)
    requires UniqueEmails(users) && FindUser(users, reply.email, f.lookupFails).Some?
    ensures var u := users[FindUser(users, reply.email, f.lookupFails).value];
            var o := Process(users, messages, reply, f, env);
            && (f.replyThrows || IsNewUser(u) ==> |o.mails| == 1)
            && (!f.replyThrows && !IsNewUser(u) ==>
                  && |o.mails| == 2
                  && o.mails[1] == NotificationMail(u, reply.email, reply.messageId, FetchedMessage(messages, reply, f), env))
  {
  }

  /** A reply whose mail did not go out stays pending, and the assistant hears only about
      active users. */
  lemma SentOnlyAfterSend(users: map<UserId, User>, messages: map<nat, Message>, reply: PendingReply,
                          f: ReplyFeed, env: Env)
    requires UniqueEmails(users)
    ensures f.replyThrows || f.lookupFails || f.markFails ==> !Process(users, messages, reply, f, env).markSent
    ensures f.replyThrows ==> |Process(users, messages, reply, f, env).mails| <= 1
    ensures forall u :: u in WithEmail(users, reply.email) && IsNewUser(users[u]) ==>
              |Process(users, messages, reply, f, env).mails| <= 1
  {
    var o := Process(users, messages, reply, f, env);
    forall u | u in WithEmail(users, reply.email) && IsNewUser(users[u])
      ensures |o.mails| <= 1
    {
      WithEmailAtMostOne(users, reply.email, u);
    }
  }

  // ---------------------------------------------------------------- the job

  /** The replies `.eq("sent", false)` selects. */
  function Unsent(pending: map<nat, PendingReply>): (r: set<nat>)
    ensures forall k :: k in r <==> k in pending && !pending[k].sent
  {
    set k | k in pending && !pending[k].sent
  }

  predicate DistinctIds(s: seq<nat>) {
    forall i, j :: 0 <= i < j < |s| ==> s[i] != s[j]
  }

  /** The mails of the replies handled in `order`. */
  function MailsOf(users: map<UserId, User>, messages: map<nat, Message>, pending: map<nat, PendingReply>,
                   order: seq<nat>, feeds: nat -> ReplyFeed, env: Env): seq<Mail>
    requires UniqueEmails(users) && forall k :: k in order ==> k in pending
  {
    if order == [] then []
    else
      var last := order[|order| - 1];
      MailsOf(users, messages, pending, order[..|order| - 1], feeds, env)
        + Process(users, messages, pending[last], feeds(last), env).mails
  }

  /** The pending replies after the replies in `handled` were handled. */
  function AfterRun(users: map<UserId, User>, messages: map<nat, Message>, pending: map<nat, PendingReply>,
                    handled: set<nat>, feeds: nat -> ReplyFeed, env: Env): (r: map<nat, PendingReply>)
    requires UniqueEmails(users)
    ensures r.Keys == pending.Keys
    ensures forall k :: k in pending ==>
              r[k] == if k in handled && Delivered(users, pending[k], feeds(k))
                      then pending[k].(sent := true) else pending[k]
  {
    map k | k in pending :: if k in handled && Delivered(users, pending[k], feeds(k))
                            then pending[k].(sent := true) else pending[k]
  }

  /** A run sets `sent` only on replies it handled and sent, and never clears it: a reply it
      could not send is handled again by the next run. */
  lemma AfterRunOnlySets(users: map<UserId, User>, messages: map<nat, Message>, pending: map<nat, PendingReply>,
                         feeds: nat -> ReplyFeed, env: Env)
    requires UniqueEmails(users)
    ensures var r := AfterRun(users, messages, pending, Unsent(pending), feeds, env);
            && (forall k :: k in pending && pending[k].sent ==> r[k] == pending[k])
            && (forall k :: k in Unsent(pending) && !Delivered(users, pending[k], feeds(k)) ==>
                  k in Unsent(r))
            && (forall k :: k in pending ==> r[k].email == pending[k].email && r[k].messageId == pending[k].messageId)
  {
  }

  /** One step of the loop: handling reply `k`, not handled before, extends the mails and
      the handled set. */
  lemma HandleExtends(users: map<UserId, User>, messages: map<nat, Message>, pending: map<nat, PendingReply>,
                      order: seq<nat>, k: nat, feeds: nat -> ReplyFeed, env: Env)
    requires UniqueEmails(users) && k in pending && forall j :: j in order ==> j in pending
    ensures MailsOf(users, messages, pending, order + [k], feeds, env)
              == MailsOf(users, messages, pending, order, feeds, env) + Process(users, messages, pending[k], feeds(k), env).mails
  {
    assert (order + [k])[..|order|] == order;
  }

  /** One step of the loop on the table: handling reply `k`, not handled before, sets its
      `sent` when its outcome says so. */
  lemma AfterRunStep(users: map<UserId, User>, messages: map<nat, Message>, pending: map<nat, PendingReply>,
                     handled: set<nat>, k: nat, feeds: nat -> ReplyFeed, env: Env)
    requires UniqueEmails(users) && k in pending && k !in handled
    ensures var before := AfterRun(users, messages, pending, handled, feeds, env);
            var after := AfterRun(users, messages, pending, handled + {k}, feeds, env);
            && before[k] == pending[k]
            && after == if Delivered(users, pending[k], feeds(k))
                        then before[k := before[k].(sent := true)] else before
  {
  }

  /** The loop body for reply `k`: its mails are appended, `k` joins the order, and `sent`
      is written when the reply was delivered. */
  method HandleOne(db: Store, k: nat, feeds: nat -> ReplyFeed, env: Env,
                   ghost pending0: map<nat, PendingReply>, ghost handled: set<nat>,
                   order: seq<nat>, mails: seq<Mail>)
      returns (order': seq<nat>, mails': seq<Mail>)
    requires db.Valid() && k in pending0 && k !in handled
    requires forall j :: j in order ==> j in pending0
    requires DistinctIds(order) && forall j :: j in handled <==> j in order
    requires mails == MailsOf(db.users, db.messages, pending0, order, feeds, env)
    requires db.pendingReplies == AfterRun(db.users, db.messages, pending0, handled, feeds, env)
    modifies db`pendingReplies
    ensures db.Valid()
    ensures order' == order + [k]
    ensures DistinctIds(order') && forall j :: j in handled + {k} <==> j in order'
    ensures mails' == MailsOf(db.users, db.messages, pending0, order', feeds, env)
    ensures db.pendingReplies == AfterRun(db.users, db.messages, pending0, handled + {k}, feeds, env)
  {
    AfterRunStep(db.users, db.messages, pending0, handled, k, feeds, env);
    HandleExtends(db.users, db.messages, pending0, order, k, feeds, env);
    var o := Process(db.users, db.messages, db.pendingReplies[k], feeds(k), env);
    if o.markSent {
      db.MarkReplySent(k);
    }
    order', mails' := order + [k], mails + o.mails;
  }

  /** The loop over the unsent replies: each is handled once, in an order the database
      chooses, which is returned as `order`. */
  method HandleAll(db: Store, feeds: nat -> ReplyFeed, env: Env) returns (order: seq<nat>, mails: seq<Mail>)
    requires db.Valid()
    modifies db`pendingReplies
    ensures db.Valid()
    ensures forall k :: k in order <==> k in Unsent(old(db.pendingReplies))
    ensures DistinctIds(order) && forall k :: k in order ==> k in old(db.pendingReplies)
    ensures mails == MailsOf(old(db.users), old(db.messages), old(db.pendingReplies), order, feeds, env)
    ensures db.pendingReplies == AfterRun(old(db.users), old(db.messages), old(db.pendingReplies),
                                          Unsent(old(db.pendingReplies)), feeds, env)
  {
    order, mails := [], [];
    ghost var pending0 := db.pendingReplies;
    ghost var users0, messages0 := db.users, db.messages;
    ghost var handled: set<nat> := {};
    var remaining := Unsent(db.pendingReplies);
    ghost var unsent0 := remaining;
    while remaining != {}
      invariant db.Valid() && db.users == users0 && db.messages == messages0
      invariant remaining == unsent0 - handled
      invariant handled <= unsent0
      invariant forall k :: k in handled <==> k in order
      invariant forall k :: k in order ==> k in pending0
      invariant DistinctIds(order)
      invariant mails == MailsOf(users0, messages0, pending0, order, feeds, env)
      invariant db.pendingReplies == AfterRun(users0, messages0, pending0, handled, feeds, env)
      decreases remaining
    {
      var k :| k in remaining;
      assert k in unsent0 && k !in handled;
      assert k in pending0;
      order, mails := HandleOne(db, k, feeds, env, pending0, handled, order, mails);
      handled := handled + {k};
      remaining := remaining - {k};
    }
    assert handled == unsent0;
  }

  /** The job. `fetchFails` is an error of the query of pending replies (500); otherwise
      every unsent reply is handled once, in an order the database chooses, which is
      returned as `order`, and the answer is 200. */
  method Run(db: Store, fetchFails: bool, feeds: nat -> ReplyFeed, env: Env)
      returns (status: int, order: seq<nat>, mails: seq<Mail>)
    requires db.Valid()
    modifies db`pendingReplies
    ensures db.Valid()
    ensures fetchFails ==> status == 500 && order == [] && mails == [] && db.pendingReplies == old(db.pendingReplies)
    ensures !fetchFails ==> status == 200 && (forall k :: k in order <==> k in Unsent(old(db.pendingReplies)))
    ensures DistinctIds(order) && forall k :: k in order ==> k in old(db.pendingReplies)
    ensures mails == MailsOf(old(db.users), old(db.messages), old(db.pendingReplies), order, feeds, env)
    ensures !fetchFails ==>
              db.pendingReplies == AfterRun(old(db.users), old(db.messages), old(db.pendingReplies),
                                            Unsent(old(db.pendingReplies)), feeds, env)
  {
    if fetchFails {
      return 500, [], [];
    }
    order, mails := HandleAll(db, feeds, env);
    status := 200;
  }
}
