/**
 * The inbound-mail endpoint: a received e-mail (`from`, `subject`, `body`) is filed under
 * its sender. The sender's user and conversation are found or created, the message is
 * stored, a pending reply is queued for the reply job, and the conversation's
 * `last_message_at` is set. The endpoint speaks to the database's REST interface; its
 * helpers read every response body the same way.
 */
module Inbound {
  import opened Common
  import opened Uri
  import opened Tables

  // ---------------------------------------------------------------- response bodies

  /** A JSON value. */
  datatype Json =
    | JNull
    | JBool(b: bool)
    | JNumber(n: real)
    | JString(s: string)
    | JArray(items: seq<Json>)
    | JObject(fields: map<string, Json>)

  /** JavaScript truthiness of a JSON value: arrays and objects are always truthy. */
  predicate JsTruthy(v: Json) {
    match v
    case JNull => false
    case JBool(b) => b
    case JNumber(n) => n != 0.0
    case JString(s) => s != ""
    case JArray(_) => true
    case JObject(_) => true
  }

  /** `parseBody`: `null` for an empty text, the parsed value when the text is JSON (`parsed`
      is what `JSON.parse` gives, `None` when it throws), and the text itself otherwise. */
  function ParseBody(text: string, parsed: Option<Json>): (v: Json)
    ensures text == "" ==> v == JNull
    ensures text != "" && parsed.Some? ==> v == parsed.value
    ensures text != "" && parsed.None? ==> v == JString(text)
  {
    if text == "" then JNull
    else if parsed.Some? then parsed.value
    else JString(text)
  }

  /** Text that is not JSON is never taken for an empty body. */
  lemma RawTextIsTruthy(text: string)
    ensures JsTruthy(ParseBody(text, None)) <==> text != ""
  {
  }

  /** The row `create` returns: `None` when it throws (a falsy body), otherwise the first
      element of an array (`None` inside: `undefined`, for an empty array) or the value. */
  function CreateResult(body: Json): (r: Option<Option<Json>>)
    ensures r.None? <==> !JsTruthy(body)
    ensures r.Some? && body.JArray? ==> r.value == (if body.items == [] then None else Some(body.items[0]))
    ensures r.Some? && !body.JArray? ==> r.value == Some(body)
  {
    if !JsTruthy(body) then None
    else match body
      case JArray(items) => if items == [] then Some(None) else Some(Some(items[0]))
      case _ => Some(Some(body))
  }

  /** An empty response body makes `create` throw; the representation of one inserted row is
      that row. */
  lemma CreateOfRepresentation(text: string, parsed: Option<Json>, row: Json)
    ensures CreateResult(ParseBody("", parsed)).None?
    ensures text != "" ==> CreateResult(ParseBody(text, Some(JArray([row])))) == Some(Some(row))
  {
  }

  /** The `id` field of a returned row, if it has one. */
  function IdOf(row: Option<Json>): Option<Json> {
    if row.Some? && row.value.JObject? && "id" in row.value.fields then Some(row.value.fields["id"]) else None
  }

  /** `!createdUser || !createdUser.id`: a user row is refused unless its id is truthy. */
  predicate UserRowAccepted(row: Option<Json>) {
    row.Some? && JsTruthy(row.value) && IdOf(row).Some? && JsTruthy(IdOf(row).value)
  }

  /** `!createdConv || createdConv.id == null`: a conversation row needs only an id that is
      not `null`. */
  predicate ConversationRowAccepted(row: Option<Json>) {
    row.Some? && JsTruthy(row.value) && IdOf(row).Some? && IdOf(row).value != JNull
  }

  /** The two checks differ: a returned id `0` is refused for a user and accepted for a
      conversation. */
  lemma IdChecksDiffer()
    ensures var row := Some(JObject(map["id" := JNumber(0.0)]));
            !UserRowAccepted(row) && ConversationRowAccepted(row)
  {
    var row := Some(JObject(map["id" := JNumber(0.0)]));
    assert IdOf(row) == Some(JNumber(0.0));
  }

  // ---------------------------------------------------------------- lookups

  /** `${column}=eq.${encodeURIComponent(value)}`: the value the filter compares with,
      after the server decodes the query, is the value itself. */
  function EqFilter(column: string, value: string): (f: string)
    ensures |f| >= |column| + 4 && f[..|column| + 4] == column + "=eq."
    ensures DecodeURIComponent(f[|column| + 4..]) == Some(value)
  {
    EncodeURIComponentRoundTrip(value);
    var f := column + "=eq." + EncodeURIComponent(value);
    assert f[|column| + 4..] == EncodeURIComponent(value);
    f
  }

  /** The conversations of a user. */
  function ConversationsOf(cs: map<nat, Conversation>, u: UserId): (r: set<nat>)
    ensures forall k :: k in r <==> k in cs && cs[k].userId == u
  {
    set k | k in cs && cs[k].userId == u
  }

  // ---------------------------------------------------------------- the endpoint

  /** The fields of the JSON body. */
  datatype InboundMail = InboundMail(from: Option<string>, subject: Option<string>, body: Option<string>)

  /** `!from || (!subject && !body)` is false: a sender, and a subject or a body. */
  function Accepts(m: InboundMail): (b: bool)
    ensures !b <==> !Truthy(m.from) || (!Truthy(m.subject) && !Truthy(m.body))
  {
    Truthy(m.from) && (Truthy(m.subject) || Truthy(m.body))
  }

  /** The database call that fails (throws), if it is made: a lookup or a create that gets a
      non-2xx reply, or the final `patch`. */
  datatype Fault =
    | NoFault
    | UserLookupFails
    | UserCreateFails
    | ConversationLookupFails
    | ConversationCreateFails
    | MessageCreateFails
    | PendingCreateFails
    | PatchFails

  /** Step 1: the user with the sender's email, or a new one under `newUser`. */
  method FindOrCreateUser(db: Store, from: string, newUser: UserId, createdAt: string, fault: Fault)
      returns (userId: Option<UserId>)
    requires db.Valid()
    modifies db`users
    ensures db.Valid()
    ensures userId.None? <==> || fault == UserLookupFails
                              || (WithEmail(old(db.users), from) == {} &&
                                  (fault == UserCreateFails || newUser == "" || newUser in old(db.users)))
    ensures userId.None? ==> db.users == old(db.users)
    ensures userId.Some? && WithEmail(old(db.users), from) != {} ==>
              db.users == old(db.users) && WithEmail(old(db.users), from) == {userId.value}
    ensures userId.Some? && WithEmail(old(db.users), from) == {} ==>
              userId.value == newUser && db.users == old(db.users)[newUser := NewUser(from, createdAt)]
  {
    if fault == UserLookupFails {
      return None;
    }
    var found := WithEmail(db.users, from);
    if found != {} {
      var u :| u in found;
      WithEmailAtMostOne(db.users, from, u);
      return Some(u);
    }
    if fault == UserCreateFails {
      return None;
    }
    var ok := db.CreateUser(newUser, NewUser(from, createdAt));
    userId := if ok then Some(newUser) else None;
  }

  /** Step 2: a conversation of the user, or a new one. */
  method FindOrCreateConversation(db: Store, u: UserId, fault: Fault) returns (conversationId: Option<nat>)
    requires db.Valid()
    modifies db`conversations, db`nextId
    ensures db.Valid()
    ensures conversationId.None? <==> || fault == ConversationLookupFails
                                      || (ConversationsOf(old(db.conversations), u) == {} &&
                                          fault == ConversationCreateFails)
    ensures conversationId.None? ==> db.conversations == old(db.conversations)
    ensures conversationId.Some? && ConversationsOf(old(db.conversations), u) != {} ==>
              conversationId.value in ConversationsOf(old(db.conversations), u)
              && db.conversations == old(db.conversations)
    ensures conversationId.Some? && ConversationsOf(old(db.conversations), u) == {} ==>
              conversationId.value !in old(db.conversations)
              && db.conversations == old(db.conversations)[conversationId.value := Conversation(u, None)]
  {
    if fault == ConversationLookupFails {
      return None;
    }
    var convs := ConversationsOf(db.conversations, u);
    if convs != {} {
      var cid :| cid in convs;
      return Some(cid);
    }
    if fault == ConversationCreateFails {
      return None;
    }
    var cid := db.CreateConversation(Conversation(u, None));
    conversationId := Some(cid);
  }

  /** Steps 3 and 4: the message, its pending reply, and the conversation's timestamp. */
  method FileMessage(db: Store, u: UserId, cid: nat, mail: InboundMail, now: int, fault: Fault)
      returns (status: int, messageId: Option<nat>)
    requires db.Valid() && mail.from.Some?
    modifies db`conversations, db`messages, db`pendingReplies, db`nextId
    ensures db.Valid()
    ensures messageId.None? <==> fault == MessageCreateFails
    ensures messageId.None? ==> db.messages == old(db.messages)
    ensures messageId.Some? ==>
              messageId.value !in old(db.messages)
              && db.messages == old(db.messages)[messageId.value := Message(u, "inbound", mail.subject, mail.body)]
    ensures messageId.None? || fault == PendingCreateFails ==> db.pendingReplies == old(db.pendingReplies)
    ensures messageId.Some? && fault != PendingCreateFails ==>
              exists p: nat :: p !in old(db.pendingReplies)
                               && db.pendingReplies == old(db.pendingReplies)[p := PendingReply(mail.from.value, messageId.value, false)]
    ensures status == 200 <==> messageId.Some? && fault != PendingCreateFails && fault != PatchFails
    ensures status != 200 ==> status == 500
    ensures db.conversations ==
              if status == 200 && cid in old(db.conversations)
              then old(db.conversations)[cid := old(db.conversations)[cid].(lastMessageAt := Some(now))]
              else old(db.conversations)
  {
    if fault == MessageCreateFails {
      return 500, None;
    }
    var mid := db.CreateMessage(Message(u, "inbound", mail.subject, mail.body));
    messageId := Some(mid);
    if fault == PendingCreateFails {
      return 500, messageId;
    }
    var pid := db.CreatePendingReply(PendingReply(mail.from.value, mid, false));
    if fault == PatchFails {
      return 500, messageId;
    }
    db.TouchConversation(cid, now);
    status := 200;
  }

  /** The endpoint. `request` is the JSON body (`None` when it is not JSON); `newUser` the id
      the database gives a created user; `now` the time written to `last_message_at`.
      Returns the status, and the user, conversation and message the mail was filed under as
      far as the handling got. Rows written before a failing call stay. */
  method Receive(db: Store, verb: string, request: Option<InboundMail>, newUser: UserId, createdAt: string,
                 now: int, fault: Fault)
      returns (status: int, userId: Option<UserId>, conversationId: Option<nat>, messageId: Option<nat>)
    requires db.Valid()
    modifies db`users, db`conversations, db`messages, db`pendingReplies, db`nextId
    ensures db.Valid()
    ensures !(verb == "POST" && request.Some? && Accepts(request.value)) ==>
              && status == (if verb != "POST" then 405 else if request.None? then 500 else 400)
              && userId == None
    // the user
    ensures userId.None? ==>
              && db.users == old(db.users) && db.conversations == old(db.conversations)
              && db.messages == old(db.messages) && db.pendingReplies == old(db.pendingReplies)
    ensures verb == "POST" && request.Some? && Accepts(request.value) ==>
              var from := request.value.from.value;
              (userId.None? <==> || fault == UserLookupFails
                                 || (WithEmail(old(db.users), from) == {} &&
                                     (fault == UserCreateFails || newUser == "" || newUser in old(db.users))))
    ensures userId.Some? ==>
              && verb == "POST" && request.Some? && Accepts(request.value)
              && var from := request.value.from.value;
                 && (WithEmail(old(db.users), from) != {} ==>
                       db.users == old(db.users) && WithEmail(old(db.users), from) == {userId.value})
                 && (WithEmail(old(db.users), from) == {} ==>
                       userId.value == newUser && db.users == old(db.users)[newUser := NewUser(from, createdAt)])
    // the conversation
    ensures conversationId.Some? ==> userId.Some?
    ensures userId.Some? ==>
              (conversationId.None? <==> || fault == ConversationLookupFails
                                         || (ConversationsOf(old(db.conversations), userId.value) == {} &&
                                             fault == ConversationCreateFails))
    ensures userId.Some? && conversationId.None? ==>
              && db.conversations == old(db.conversations) && db.messages == old(db.messages)
              && db.pendingReplies == old(db.pendingReplies)
    ensures conversationId.Some? ==>
              var u := userId.value;
              var cid := conversationId.value;
              var filed := if ConversationsOf(old(db.conversations), u) != {} then old(db.conversations)
                           else old(db.conversations)[cid := Conversation(u, None)];
              && (ConversationsOf(old(db.conversations), u) != {} ==> cid in ConversationsOf(old(db.conversations), u))
              && (ConversationsOf(old(db.conversations), u) == {} ==> cid !in old(db.conversations))
              && cid in filed
              && db.conversations == if status == 200 then filed[cid := filed[cid].(lastMessageAt := Some(now))] else filed
    // the message and the pending reply
    ensures messageId.Some? ==> conversationId.Some?
    ensures conversationId.Some? ==> (messageId.None? <==> fault == MessageCreateFails)
    ensures conversationId.Some? && messageId.None? ==>
              db.messages == old(db.messages) && db.pendingReplies == old(db.pendingReplies) && status == 500
    ensures messageId.Some? ==>
              && messageId.value !in old(db.messages)
              && db.messages == old(db.messages)[messageId.value :=
                   Message(userId.value, "inbound", request.value.subject, request.value.body)]
    ensures messageId.Some? && fault == PendingCreateFails ==> db.pendingReplies == old(db.pendingReplies)
    ensures messageId.Some? && fault != PendingCreateFails ==>
              exists p: nat :: p !in old(db.pendingReplies)
                          && db.pendingReplies == old(db.pendingReplies)[p :=
                               PendingReply(request.value.from.value, messageId.value, false)]
    ensures status == 200 <==> messageId.Some? && fault != PendingCreateFails && fault != PatchFails
    ensures status != 200 ==> status in {400, 405, 500}
  {
    userId, conversationId, messageId := None, None, None;
    if verb != "POST" {
      return 405, userId, conversationId, messageId;
    }
    if request.None? {
      return 500, userId, conversationId, messageId;
    }
    var mail := request.value;
    if !Accepts(mail) {
      return 400, userId, conversationId, messageId;
    }
    userId := FindOrCreateUser(db, mail.from.value, newUser, createdAt, fault);
    if userId.None? {
      return 500, userId, conversationId, messageId;
    }
    conversationId := FindOrCreateConversation(db, userId.value, fault);
    if conversationId.None? {
      return 500, userId, conversationId, messageId;
    }
    status, messageId := FileMessage(db, userId.value, conversationId.value, mail, now, fault);
  }
}
