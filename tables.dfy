/**
 * The database the edge functions share: one `Store` object whose fields are the
 * tables, and the table operations the handlers perform on it (upsert on
 * `strava_id`, delete by column, the cascade from a user to the rows that reference
 * it, and lookup by email).
 */
module Tables {
  import opened Common
  import opened Activity
  import opened TokenRefresh

  type UserId = string

  /** A row of `users`. */
  datatype User = User(
    email: string,
    name: Option<string>,
    timezone: Option<string>,
    isActive: bool,
    creds: Credentials,
    frequency: Option<string>,
    trainingPlan: Option<string>,
    createdAt: string)

  /** A row of `preference_tokens` (the table is keyed here by its unique `token` column). */
  datatype PreferenceToken = PreferenceToken(userId: UserId, action: string, expiresAtMs: int, used: bool)

  /** A row of `pending_replies`. */
  datatype PendingReply = PendingReply(email: string, messageId: nat, sent: bool)

  /** A row of `messages`. */
  datatype Message = Message(userId: UserId, direction: string, subject: Option<string>, body: Option<string>)

  /** A row of `conversations`. */
  datatype Conversation = Conversation(userId: UserId, lastMessageAt: Option<int>)

  // ---------------------------------------------------------------- table invariants

  /** `runs` is keyed by the strava id of each row: the unique constraint upserts rely on. */
  predicate RunsKeyed(runs: map<int, RunRow>) {
    forall k :: k in runs ==> runs[k].stravaId == k
  }

  /** No two users share an email, so `.eq("email", e).single()` finds at most one. */
  predicate UniqueEmails(users: map<UserId, User>) {
    forall u, v :: u in users && v in users && users[u].email == users[v].email ==> u == v
  }

  /** The users whose email is `email`. */
  function WithEmail(users: map<UserId, User>, email: string): (r: set<UserId>)
    ensures forall u :: u in r <==> u in users && users[u].email == email
  {
    set u | u in users && users[u].email == email
  }

  lemma WithEmailAtMostOne(users: map<UserId, User>, email: string, u: UserId)
    requires UniqueEmails(users) && u in WithEmail(users, email)
    ensures WithEmail(users, email) == {u}
  {
  }
  /** `.from("users").select(…).eq("email", email).single()`: the user with the email, or
      none when the query errs (`lookupFails`) or no user has it. */
  function FindUser(users: map<UserId, User>, email: string, lookupFails: bool): (r: Option<UserId>)
    requires UniqueEmails(users)
    ensures r.Some? <==> !lookupFails && WithEmail(users, email) != {}
    ensures r.Some? ==> WithEmail(users, email) == {r.value}
  {
    var found := WithEmail(users, email);
    if lookupFails || found == {} then None
    else
      var u :| u in found;
      WithEmailAtMostOne(users, email, u);
      Some(u)
  }


  // ---------------------------------------------------------------- runs

  /** Two rows of a batch share a strava id. */
  predicate HasDuplicateIds(rows: seq<RunRow>) {
    exists i, j :: 0 <= i < j < |rows| && rows[i].stravaId == rows[j].stravaId
  }

  /** Some row of the batch has strava id `k`. */
  predicate InBatch(rows: seq<RunRow>, k: int) {
    exists i :: 0 <= i < |rows| && rows[i].stravaId == k
  }

  /** `upsert(rows, { onConflict: "strava_id" })`: every row replaces the one with its strava
      id or is added; a batch that names one strava id twice is refused as a whole. */
  function UpsertBatch(runs: map<int, RunRow>, rows: seq<RunRow>): (r: Option<map<int, RunRow>>)
    ensures r.None? <==> HasDuplicateIds(rows)
    ensures r.Some? ==> forall k :: k in r.value <==> k in runs || InBatch(rows, k)
    ensures r.Some? ==> forall i :: 0 <= i < |rows| ==> rows[i].stravaId in r.value && r.value[rows[i].stravaId] == rows[i]
    ensures r.Some? ==> forall k :: k in runs && !InBatch(rows, k) ==> r.value[k] == runs[k]
  {
    if HasDuplicateIds(rows) then None else Some(PutAll(runs, rows))
  }

  function PutAll(runs: map<int, RunRow>, rows: seq<RunRow>): (m: map<int, RunRow>)
    requires !HasDuplicateIds(rows)
    ensures forall k :: k in m <==> k in runs || InBatch(rows, k)
    ensures forall i :: 0 <= i < |rows| ==> rows[i].stravaId in m && m[rows[i].stravaId] == rows[i]
    ensures forall k :: k in runs && !InBatch(rows, k) ==> m[k] == runs[k]
  {
    if rows == [] then runs
    else
      var rest := rows[1..];
      assert forall i :: 0 <= i < |rest| ==> rest[i] == rows[i + 1];
      assert !HasDuplicateIds(rest) by {
        forall i, j | 0 <= i < j < |rest|
          ensures rest[i].stravaId != rest[j].stravaId
        {
          assert rest[i] == rows[i + 1] && rest[j] == rows[j + 1];
        }
      }
      var m := PutAll(runs, rest)[rows[0].stravaId := rows[0]];
      assert forall k :: InBatch(rows, k) <==> k == rows[0].stravaId || InBatch(rest, k) by {
        forall k | InBatch(rows, k) && k != rows[0].stravaId
          ensures InBatch(rest, k)
        {
          var i :| 0 <= i < |rows| && rows[i].stravaId == k;
          assert rest[i - 1].stravaId == k;
        }
        forall k | InBatch(rest, k)
          ensures InBatch(rows, k)
        {
          var i :| 0 <= i < |rest| && rest[i].stravaId == k;
          assert rows[i + 1].stravaId == k;
        }
      }
      m
  }

  /** Upserting keeps the table keyed by strava id. */
  lemma UpsertKeepsKeyed(runs: map<int, RunRow>, rows: seq<RunRow>)
    requires RunsKeyed(runs) && UpsertBatch(runs, rows).Some?
    ensures RunsKeyed(UpsertBatch(runs, rows).value)
  {
    var m := UpsertBatch(runs, rows).value;
    forall k | k in m
      ensures m[k].stravaId == k
    {
      if i :| 0 <= i < |rows| && rows[i].stravaId == k {
        assert m[k] == rows[i];
      } else {
        assert k in runs;
      }
    }
  }

  /** Repeating a batch leaves the table as the first upsert left it. */
  lemma UpsertBatchIdempotent(runs: map<int, RunRow>, rows: seq<RunRow>)
    requires UpsertBatch(runs, rows).Some?
    ensures UpsertBatch(UpsertBatch(runs, rows).value, rows) == UpsertBatch(runs, rows)
  {
    var m := UpsertBatch(runs, rows).value;
    var m2 := UpsertBatch(m, rows).value;
    assert forall k :: InBatch(rows, k) ==> k in m;
    assert forall k :: k in m2 <==> k in m;
    forall k | k in m
      ensures m2[k] == m[k]
    {
      if i :| 0 <= i < |rows| && rows[i].stravaId == k {
        assert m2[k] == rows[i] == m[k];
      } else {
        assert !InBatch(rows, k);
      }
    }
    assert m2 == m;
  }

  /** `.delete().eq("strava_id", id)`: every run with that strava id goes, nothing else. */
  function DeleteRun(runs: map<int, RunRow>, id: int): (r: map<int, RunRow>)
    ensures forall k :: k in r <==> k in runs && runs[k].stravaId != id
    ensures forall k :: k in r ==> r[k] == runs[k]
  {
    map k | k in runs && runs[k].stravaId != id :: runs[k]
  }

  /** With the table keyed by strava id, that is removing one key (or none). */
  lemma DeleteRunKeyed(runs: map<int, RunRow>, id: int)
    requires RunsKeyed(runs)
    ensures DeleteRun(runs, id) == runs - {id}
    ensures RunsKeyed(DeleteRun(runs, id))
    ensures id !in runs ==> DeleteRun(runs, id) == runs
  {
    assert forall k :: k in runs && k != id ==> runs[k].stravaId != id;
  }

  /** Upserting a single row puts it under its strava id. */
  lemma UpsertOne(runs: map<int, RunRow>, row: RunRow)
    ensures UpsertBatch(runs, [row]) == Some(runs[row.stravaId := row])
  {
    assert !HasDuplicateIds([row]);
    var up := UpsertBatch(runs, [row]).value;
    var want := runs[row.stravaId := row];
    forall k ensures k in up <==> k in want {
      if k == row.stravaId { assert [row][0].stravaId == k; }
    }
    assert [row][0] == row;
    forall k | k in up ensures up[k] == want[k] {
      if k == row.stravaId {
        assert up[[row][0].stravaId] == [row][0];
      } else {
        assert !InBatch([row], k);
      }
    }
    assert up == want;
  }

  /** The rows of a table whose owner, as `owner` reads it off a row, is not `u`: what a
      foreign key on `user_id` with `on delete cascade` leaves of the table. */
  function Without<K(!new), V>(rows: map<K, V>, owner: V -> UserId, u: UserId): (r: map<K, V>)
    ensures forall k :: k in r <==> k in rows && owner(rows[k]) != u
    ensures forall k :: k in r ==> r[k] == rows[k]
  {
    map k | k in rows && owner(rows[k]) != u :: rows[k]
  }

  function RunOwner(r: RunRow): UserId { r.userId }
  function TokenOwner(t: PreferenceToken): UserId { t.userId }
  function ConversationOwner(c: Conversation): UserId { c.userId }
  function MessageOwner(m: Message): UserId { m.userId }

  /** The pending replies left once the messages of `u` go: a reply is keyed to its
      message by `message_id`, so the replies to a message of `u` go with it. */
  function RepliesWithout(pending: map<nat, PendingReply>, messages: map<nat, Message>, u: UserId)
    : (r: map<nat, PendingReply>)
    ensures forall k :: k in r <==> k in pending && !RepliesTo(pending[k], messages, u)
    ensures forall k :: k in r ==> r[k] == pending[k]
  {
    map k | k in pending && !RepliesTo(pending[k], messages, u) :: pending[k]
  }

  /** The reply answers a message of `u`. */
  predicate RepliesTo(p: PendingReply, messages: map<nat, Message>, u: UserId) {
    p.messageId in messages && messages[p.messageId].userId == u
  }

  /** The row `.insert({ email })` creates: every other column takes its default. */
  function NewUser(email: string, createdAt: string): (u: User)
    ensures u.email == email && !u.isActive && u.name == None && u.timezone == None
    ensures u.creds == Credentials(None, None, None) && u.frequency == None && u.trainingPlan == None
  {
    User(email, None, None, false, Credentials(None, None, None), None, None, createdAt)
  }

  // ---------------------------------------------------------------- the store

  class Store {
    var users: map<UserId, User>
    var runs: map<int, RunRow>
    /** The singleton row `id = 1` of `strava_webhook_subscription`: its `subscription_id`. */
    var subscription: Option<int>
    var tokens: map<string, PreferenceToken>
    var pendingReplies: map<nat, PendingReply>
    var messages: map<nat, Message>
    var conversations: map<nat, Conversation>
    /** The next value of the serial ids of `conversations`, `messages` and `pending_replies`. */
    var nextId: nat

    ghost predicate Valid()
      reads this
    {
      && RunsKeyed(runs)
      && UniqueEmails(users)
      && "" !in users
      && nextId >= 1
      && (forall k :: k in pendingReplies ==> 0 < k < nextId)
      && (forall k :: k in messages ==> 0 < k < nextId)
      && (forall k :: k in conversations ==> 0 < k < nextId)
    }

    constructor()
      ensures Valid()
      ensures users == map[] && runs == map[] && subscription == None && tokens == map[]
      ensures pendingReplies == map[] && messages == map[] && conversations == map[] && nextId == 1
    {
      users := map[];
      runs := map[];
      subscription := None;
      tokens := map[];
      pendingReplies := map[];
      messages := map[];
      conversations := map[];
      nextId := 1;
    }

    /** `.from("runs").upsert(rows, { onConflict: "strava_id" })`; `false` when refused. */
    method UpsertRuns(rows: seq<RunRow>) returns (ok: bool)
      requires Valid()
      modifies this`runs
      ensures Valid()
      ensures ok <==> UpsertBatch(old(runs), rows).Some?
      ensures ok ==> runs == UpsertBatch(old(runs), rows).value
      ensures !ok ==> runs == old(runs)
    {
      var r := UpsertBatch(runs, rows);
      if r.Some? {
        UpsertKeepsKeyed(runs, rows);
        runs := r.value;
        ok := true;
      } else {
        ok := false;
      }
    }

    /** `.from("users").delete().eq("id", u)`, with the rows that reference the user by
        `user_id` going with it, and the pending replies to its messages with those. */
    method DeleteUserCascade(u: UserId)
      requires Valid()
      modifies this`users, this`runs, this`tokens, this`conversations, this`messages, this`pendingReplies
      ensures Valid()
      ensures users == old(users) - {u}
      ensures runs == Without(old(runs), RunOwner, u)
      ensures tokens == Without(old(tokens), TokenOwner, u)
      ensures conversations == Without(old(conversations), ConversationOwner, u)
      ensures messages == Without(old(messages), MessageOwner, u)
      ensures pendingReplies == RepliesWithout(old(pendingReplies), old(messages), u)
    {
      users := users - {u};
      runs := Without(runs, RunOwner, u);
      tokens := Without(tokens, TokenOwner, u);
      conversations := Without(conversations, ConversationOwner, u);
      pendingReplies := RepliesWithout(pendingReplies, messages, u);
      messages := Without(messages, MessageOwner, u);
    }

    /** `.update({ used: true }).eq("id", …)` on a token's row. */
    method MarkTokenUsed(t: string)
      requires Valid() && t in tokens
      modifies this`tokens
      ensures Valid()
      ensures tokens == old(tokens)[t := old(tokens)[t].(used := true)]
    {
      tokens := tokens[t := tokens[t].(used := true)];
    }

    /** Inserts a user under a new id; refused (`false`) when the id is taken or empty, or when
        the email is already someone's. */
    method CreateUser(id: UserId, row: User) returns (ok: bool)
      requires Valid()
      modifies this`users
      ensures Valid()
      ensures ok <==> id != "" && id !in old(users) && WithEmail(old(users), row.email) == {}
      ensures ok ==> users == old(users)[id := row]
      ensures !ok ==> users == old(users)
    {
      ok := id != "" && id !in users && WithEmail(users, row.email) == {};
      if ok {
        users := users[id := row];
      }
    }

    /** Inserts a conversation under the next serial id. */
    method CreateConversation(c: Conversation) returns (id: nat)
      requires Valid()
      modifies this`conversations, this`nextId
      ensures Valid()
      ensures id == old(nextId) && id !in old(conversations) && nextId == id + 1
      ensures conversations == old(conversations)[id := c]
    {
      id := nextId;
      conversations := conversations[id := c];
      nextId := nextId + 1;
    }

    /** Inserts a message under the next serial id. */
    method CreateMessage(m: Message) returns (id: nat)
      requires Valid()
      modifies this`messages, this`nextId
      ensures Valid()
      ensures id == old(nextId) && id !in old(messages) && nextId == id + 1
      ensures messages == old(messages)[id := m]
    {
      id := nextId;
      messages := messages[id := m];
      nextId := nextId + 1;
    }

    /** Inserts a pending reply under the next serial id. */
    method CreatePendingReply(p: PendingReply) returns (id: nat)
      requires Valid()
      modifies this`pendingReplies, this`nextId
      ensures Valid()
      ensures id == old(nextId) && id !in old(pendingReplies) && nextId == id + 1
      ensures pendingReplies == old(pendingReplies)[id := p]
    {
      id := nextId;
      pendingReplies := pendingReplies[id := p];
      nextId := nextId + 1;
    }

    /** `patch("conversations", "id=eq.…", { last_message_at })`: a filter that matches no row
        changes nothing. */
    method TouchConversation(id: nat, at: int)
      requires Valid()
      modifies this`conversations
      ensures Valid()
      ensures id in old(conversations) ==>
                conversations == old(conversations)[id := old(conversations)[id].(lastMessageAt := Some(at))]
      ensures id !in old(conversations) ==> conversations == old(conversations)
    {
      if id in conversations {
        conversations := conversations[id := conversations[id].(lastMessageAt := Some(at))];
      }
    }

    /** `.update({ sent: true }).eq("id", id)` on a pending reply. */
    method MarkReplySent(id: nat)
      requires Valid()
      modifies this`pendingReplies
      ensures Valid()
      ensures id in old(pendingReplies) ==>
                pendingReplies == old(pendingReplies)[id := old(pendingReplies)[id].(sent := true)]
      ensures id !in old(pendingReplies) ==> pendingReplies == old(pendingReplies)
    {
      if id in pendingReplies {
        pendingReplies := pendingReplies[id := pendingReplies[id].(sent := true)];
      }
    }

    /** `.update(fields).eq("id", u)` for a row that exists, when the email is kept. */
    method UpdateUser(u: UserId, row: User)
      requires Valid() && u in users && row.email == users[u].email
      modifies this`users
      ensures Valid()
      ensures users == old(users)[u := row]
    {
      users := users[u := row];
    }
  }

  /** After a cascade no run, token, conversation or message of the user remains, no
      pending reply answers a message that is gone, and every row of any other user is kept. */
  lemma CascadeLeavesNothing(runs: map<int, RunRow>, messages: map<nat, Message>,
                             pending: map<nat, PendingReply>, u: UserId, v: UserId)
    requires u != v
    ensures forall k :: k in Without(runs, RunOwner, u) ==> Without(runs, RunOwner, u)[k].userId != u
    ensures forall k :: k in runs && runs[k].userId == v ==> k in Without(runs, RunOwner, u)
    ensures var left := Without(messages, MessageOwner, u);
            forall k :: k in RepliesWithout(pending, messages, u) && pending[k].messageId in messages ==>
              pending[k].messageId in left
    ensures forall k :: k in pending && pending[k].messageId in messages && messages[pending[k].messageId].userId == v ==>
              k in RepliesWithout(pending, messages, u)
  {
  }
}
