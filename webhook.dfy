/**
 * The provider's webhook endpoint: the subscription handshake (`GET`), and the event
 * deliveries (`POST`) for activities (create, update, delete) and athletes
 * (deauthorization). Every delivery is acknowledged with 200, whatever its handling
 * does, so the provider never retries.
 */
module StravaWebhook {
  import opened Common
  import opened Text
  import opened Activity
  import opened TokenRefresh
  import opened Tables

  /** The JSON value of `updates.authorized`, as far as `=== false` can tell them apart. */
  datatype Flag = FlagAbsent | FlagBool(b: bool) | FlagText(s: string) | FlagOther

  /** The fields of an event the handler reads. `ownerId` and `objectId` are numbers and
      are compared with the text of the `id` column; `aspectType` is the provider's string. */
  datatype WebhookEvent = WebhookEvent(objectType: string, objectId: int, aspectType: string, authorized: Flag, ownerId: int)

  /** A request: `GET` with its three `hub.*` query parameters (`None` when absent), `POST`
      with its body (`None` when it is not JSON), or any other method. */
  datatype Request =
    | Get(mode: Option<string>, challenge: Option<string>, verifyToken: Option<string>)
    | Post(body: Option<WebhookEvent>)
    | OtherMethod(name: string)

  /** `{"hub.challenge": challenge}` with status 200, or a text body with a status. */
  datatype Response = Echo(challenge: Option<string>) | Text(status: int, body: string)

  function Status(r: Response): int {
    if r.Echo? then 200 else r.status
  }

  /** `a === b` between a query parameter (`null` when absent) and an environment value
      (`undefined` when unset): never true when either is missing. */
  predicate StrictEquals(param: Option<string>, env: Option<string>) {
    param.Some? && env.Some? && param.value == env.value
  }

  /** The subscription handshake. */
  function Handshake(mode: Option<string>, challenge: Option<string>, token: Option<string>,
                     configured: Option<string>): (r: Response)
    ensures r.Echo? <==> mode == Some("subscribe") && token.Some? && token == configured
    ensures r.Echo? ==> r.challenge == challenge
    ensures !r.Echo? ==> r == Text(403, "Forbidden")
  {
    if mode == Some("subscribe") && StrictEquals(token, configured) then Echo(challenge)
    else Text(403, "Forbidden")
  }

  /** With no verify token configured, no handshake succeeds. */
  lemma HandshakeNeedsConfiguredToken(mode: Option<string>, challenge: Option<string>, token: Option<string>)
    ensures Status(Handshake(mode, challenge, token, None)) == 403
  {
  }

  // ---------------------------------------------------------------- activity events

  /** What the provider and the database do while an activity event is handled. */
  datatype EventFeed = EventFeed(
    lookupFails: bool,               // the user query errs
    deleteFails: bool,               // the delete of the run errs (logged only)
    reply: TokenReply,               // the token endpoint's answer, if a refresh is requested
    writeFails: bool,                // the write of refreshed credentials errs
    activity: Option<RawActivity>,   // the activity fetched, or `None` for a non-2xx reply
    upsertFails: bool)               // the upsert errs (logged only)

  /** The user id an event's owner is looked up by. */
  function Owner(e: WebhookEvent): (u: UserId)
    ensures u != ""
  {
    IntToString(e.ownerId)
  }

  /** The tables after `handleActivityEvent`: a delete removes the run; a create or an
      update refreshes the owner's token when due, fetches the activity and upserts it
      when it is a run. Every failure ends the handling where it happens. */
  function ActivityEvent(users: map<UserId, User>, runs: map<int, RunRow>, e: WebhookEvent, now: int, f: EventFeed)
    : (r: (map<UserId, User>, map<int, RunRow>))
    ensures r.0.Keys == users.Keys
    ensures f.lookupFails || Owner(e) !in users ==> r == (users, runs)
    ensures e.aspectType == "delete" ==> r.0 == users
    ensures e.aspectType == "delete" && !f.lookupFails && Owner(e) in users && !f.deleteFails ==> r.1 == DeleteRun(runs, e.objectId)
    ensures e.aspectType == "delete" && f.deleteFails ==> r.1 == runs
    ensures e.aspectType != "delete" ==> runs.Keys <= r.1.Keys
    ensures forall u :: u in users && u != Owner(e) ==> r.0[u] == users[u]
    ensures e.aspectType != "delete" && !f.lookupFails && Owner(e) in users ==>
              var o := Owner(e);
              var step := WebhookRefresh(users[o].creds, now, f.reply, f.writeFails);
              && r.0 == users[o := users[o].(creds := step.creds)]
              && (step.outcome.Failed? || f.activity.None? || f.activity.value.kind != "Run" || f.upsertFails ==>
                    r.1 == runs)
              && (step.outcome.UseToken? && f.activity.Some? && f.activity.value.kind == "Run" && !f.upsertFails ==>
                    var row := WebhookRow(f.activity.value, o);
                    r.1 == runs[row.stravaId := row])
  {
    var o := Owner(e);
    if f.lookupFails || o !in users then (users, runs)
    else if e.aspectType == "delete" then
      (users, if f.deleteFails then runs else DeleteRun(runs, e.objectId))
    else
      var step := WebhookRefresh(users[o].creds, now, f.reply, f.writeFails);
      var users' := users[o := users[o].(creds := step.creds)];
      if step.outcome.Failed? || f.activity.None? || f.activity.value.kind != "Run" || f.upsertFails then (users', runs)
      else
        var row := WebhookRow(f.activity.value, o);
        assert !HasDuplicateIds([row]);
        UpsertOne(runs, row);
        (users', UpsertBatch(runs, [row]).value)
  }

  /** Refreshing from what a refresh left behind leaves the same credentials. */
  lemma WebhookRefreshSettles(c: Credentials, now: int, reply: TokenReply, writeFails: bool)
    ensures var s := WebhookRefresh(c, now, reply, writeFails);
            var s2 := WebhookRefresh(s.creds, now, reply, writeFails);
            s2.creds == s.creds && (s2.outcome.Failed? <==> s.outcome.Failed?)
  {
    var s := WebhookRefresh(c, now, reply, writeFails);
    if NeedsRefresh(c.expiresAtMs, now) && s.outcome.UseToken? {
      assert s.creds == Stored(reply);
    }
  }

  /** The provider may deliver an event more than once: a second delivery with the same
      answers from the provider and the database leaves the tables as the first left them. */
  lemma ActivityEventIdempotent(users: map<UserId, User>, runs: map<int, RunRow>, e: WebhookEvent, now: int, f: EventFeed)
    requires RunsKeyed(runs)
    ensures var r := ActivityEvent(users, runs, e, now, f);
            ActivityEvent(r.0, r.1, e, now, f) == r
  {
    var o := Owner(e);
    var r := ActivityEvent(users, runs, e, now, f);
    if f.lookupFails || o !in users {
    } else if e.aspectType == "delete" {
      if !f.deleteFails {
        DeleteRunKeyed(runs, e.objectId);
        var d := DeleteRun(runs, e.objectId);
        DeleteRunKeyed(d, e.objectId);
      }
    } else {
      var step := WebhookRefresh(users[o].creds, now, f.reply, f.writeFails);
      WebhookRefreshSettles(users[o].creds, now, f.reply, f.writeFails);
      var users' := users[o := users[o].(creds := step.creds)];
      assert users'[o := users'[o].(creds := step.creds)] == users';
      if !(step.outcome.Failed? || f.activity.None? || f.activity.value.kind != "Run" || f.upsertFails) {
        UpsertBatchIdempotent(runs, [WebhookRow(f.activity.value, o)]);
      }
    }
  }

  // ---------------------------------------------------------------- athlete events

  /** `aspect_type === "update" && updates?.authorized === false`: only the boolean `false`
      counts, so a textual `"false"` deletes nothing. */
  function Deauthorizes(e: WebhookEvent): (b: bool)
    ensures b <==> e.aspectType == "update" && e.authorized.FlagBool? && !e.authorized.b
  {
    e.aspectType == "update" && e.authorized == FlagBool(false)
  }

  lemma TextualFalseKeepsUser(e: WebhookEvent)
    requires e.authorized == FlagText("false")
    ensures !Deauthorizes(e)
  {
  }

  // ---------------------------------------------------------------- the endpoint

  /** The store lost the user `u` and, by the cascade, the rows that reference it. */
  twostate predicate CascadedFrom(db: Store, u: UserId)
    reads db
  {
    && db.users == old(db.users) - {u}
    && db.runs == Without(old(db.runs), RunOwner, u)
    && db.tokens == Without(old(db.tokens), TokenOwner, u)
    && db.conversations == Without(old(db.conversations), ConversationOwner, u)
    && db.messages == Without(old(db.messages), MessageOwner, u)
    && db.pendingReplies == RepliesWithout(old(db.pendingReplies), old(db.messages), u)
  }

  /** Nothing a webhook delivery may touch has changed. */
  twostate predicate KeptFrom(db: Store)
    reads db
  {
    && db.users == old(db.users) && db.runs == old(db.runs) && db.tokens == old(db.tokens)
    && db.conversations == old(db.conversations) && db.messages == old(db.messages)
    && db.pendingReplies == old(db.pendingReplies)
  }

  /** `handleActivityEvent`, on the store. */
  method HandleActivityEvent(db: Store, e: WebhookEvent, now: int, f: EventFeed)
    requires db.Valid()
    modifies db`users, db`runs
    ensures db.Valid()
    ensures (db.users, db.runs) == ActivityEvent(old(db.users), old(db.runs), e, now, f)
  {
    var o := Owner(e);
    if f.lookupFails || o !in db.users {
      return;
    }
    if e.aspectType == "delete" {
      if !f.deleteFails {
        DeleteRunKeyed(db.runs, e.objectId);
        db.runs := DeleteRun(db.runs, e.objectId);
      }
      return;
    }
    var step := WebhookRefresh(db.users[o].creds, now, f.reply, f.writeFails);
    db.UpdateUser(o, db.users[o].(creds := step.creds));
    if step.outcome.Failed? || f.activity.None? || f.activity.value.kind != "Run" {
      return;
    }
    if !f.upsertFails {
      var ok := db.UpsertRuns([WebhookRow(f.activity.value, o)]);
    }
  }

  /** `handleAthleteEvent`: a deauthorization deletes the user `object_id` with the rows
      that reference it, unless the delete errs. */
  method HandleAthleteEvent(db: Store, e: WebhookEvent, deleteFails: bool)
    requires db.Valid()
    modifies db`users, db`runs, db`tokens, db`conversations, db`messages, db`pendingReplies
    ensures db.Valid()
    ensures Deauthorizes(e) && !deleteFails ==> CascadedFrom(db, IntToString(e.objectId))
    ensures !(Deauthorizes(e) && !deleteFails) ==> KeptFrom(db)
  {
    if Deauthorizes(e) && !deleteFails {
      db.DeleteUserCascade(IntToString(e.objectId));
    }
  }

  /** The endpoint. `configured` is the verify token of the environment; `deleteFails` is
      an error of the user delete of an athlete event. */
  method Handle(db: Store, req: Request, configured: Option<string>, now: int, f: EventFeed, deleteFails: bool)
      returns (resp: Response)
    requires db.Valid()
    modifies db`users, db`runs, db`tokens, db`conversations, db`messages, db`pendingReplies
    ensures db.Valid()
    ensures req.Get? ==> resp == Handshake(req.mode, req.challenge, req.verifyToken, configured)
    ensures req.Post? ==> resp == Text(200, "OK")
    ensures req.OtherMethod? ==> resp == Text(405, "Method not allowed")
    ensures var touched := req.Post? && req.body.Some? && req.body.value.objectType in {"activity", "athlete"};
            !touched ==> KeptFrom(db)
    ensures req.Post? && req.body.Some? && req.body.value.objectType == "activity" ==>
              && (db.users, db.runs) == ActivityEvent(old(db.users), old(db.runs), req.body.value, now, f)
              && db.tokens == old(db.tokens) && db.conversations == old(db.conversations)
              && db.messages == old(db.messages) && db.pendingReplies == old(db.pendingReplies)
    ensures req.Post? && req.body.Some? && req.body.value.objectType == "athlete" ==>
              var e := req.body.value;
              && (Deauthorizes(e) && !deleteFails ==> CascadedFrom(db, IntToString(e.objectId)))
              && (!(Deauthorizes(e) && !deleteFails) ==> KeptFrom(db))
  {
    match req
    case Get(mode, challenge, token) =>
      resp := Handshake(mode, challenge, token, configured);
    case Post(body) =>
      if body.Some? {
        if body.value.objectType == "activity" {
          HandleActivityEvent(db, body.value, now, f);
        } else if body.value.objectType == "athlete" {
          HandleAthleteEvent(db, body.value, deleteFails);
        }
      }
      resp := Text(200, "OK");
    case OtherMethod(_) =>
      resp := Text(405, "Method not allowed");
  }
}
