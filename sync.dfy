/**
 * The scheduled sync job: every user with a stored refresh token gets a turn in which
 * the access token is refreshed when due, the latest page of activities is fetched,
 * and its runs are upserted. A turn that fails is logged and the loop moves on to the
 * next user.
 */
module StravaSync {
  import opened Common
  import opened Activity
  import opened TokenRefresh
  import opened Tables

  /** What the provider and the database do during one user's turn. */
  datatype UserFeed = UserFeed(
    reply: TokenReply,               // the token endpoint's answer, if a refresh is requested
    writeFails: bool,                // the write of refreshed credentials fails
    page: Option<seq<RawActivity>>,  // the activity page, or `None` for a non-2xx reply
    upsertFails: bool)               // the upsert fails for a reason of the database's own

  /** How a turn ends: runs stored, skipped for a falsy access token, or an error caught
      and logged by the loop. */
  datatype UserOutcome = Synced(count: nat) | Skipped | Errored

  datatype Turn = Turn(refresh: RefreshStep, rows: seq<RunRow>, outcome: UserOutcome)

  /** One user's turn, from the credentials stored when it starts. */
  function TurnOf(u: UserId, c: Credentials, now: int, f: UserFeed): (t: Turn)
    ensures t.refresh == SyncRefresh(c, now, f.reply, f.writeFails)
    ensures t.outcome.Skipped? <==> t.refresh.outcome.UseToken? && !Truthy(t.refresh.outcome.token)
    ensures t.outcome.Synced? <==>
              && t.refresh.outcome.UseToken? && Truthy(t.refresh.outcome.token)
              && f.page.Some? && !HasDuplicateIds(SyncBatch(f.page.value, u)) && !f.upsertFails
    ensures t.outcome.Synced? ==> t.rows == SyncBatch(f.page.value, u) && t.outcome.count == |t.rows|
    ensures t.refresh.outcome.Failed? ==> t.outcome.Errored?
  {
    var step := SyncRefresh(c, now, f.reply, f.writeFails);
    match step.outcome
    case Failed => Turn(step, [], Errored)
    case UseToken(tok) =>
      if !Truthy(tok) then Turn(step, [], Skipped)
      else if f.page.None? then Turn(step, [], Errored)
      else
        var rows := SyncBatch(f.page.value, u);
        if HasDuplicateIds(rows) || f.upsertFails then Turn(step, [], Errored)
        else Turn(step, rows, Synced(|rows|))
  }

  /** The runs table after a turn. */
  function AfterTurn(runs: map<int, RunRow>, t: Turn): (r: map<int, RunRow>)
    requires t.outcome.Synced? ==> !HasDuplicateIds(t.rows)
    ensures !t.outcome.Synced? ==> r == runs
    ensures forall k :: k in runs ==> k in r
  {
    if t.outcome.Synced? then UpsertBatch(runs, t.rows).value else runs
  }

  /** The query's rows: each user with a stored refresh token, once. */
  ghost predicate Linked(users: map<UserId, User>, order: seq<UserId>) {
    && Distinct(order)
    && (forall u :: u in order <==> u in users && users[u].creds.refreshToken.Some?)
  }

  /** The users table once the users in `done` have had their turns. */
  function UsersAfter(users: map<UserId, User>, done: seq<UserId>, feeds: map<UserId, UserFeed>, now: int): (r: map<UserId, User>)
    requires forall u :: u in done ==> u in feeds
    ensures r.Keys == users.Keys
    ensures forall u :: u in users && u !in done ==> r[u] == users[u]
  {
    map u | u in users ::
      if u in done then users[u].(creds := SyncRefresh(users[u].creds, now, feeds[u].reply, feeds[u].writeFails).creds)
      else users[u]
  }

  /** The runs table once the users in `done` have had their turns, in that order. */
  function RunsAfter(runs: map<int, RunRow>, users: map<UserId, User>, done: seq<UserId>,
                     feeds: map<UserId, UserFeed>, now: int): map<int, RunRow>
    requires forall u :: u in done ==> u in feeds && u in users
    decreases |done|
  {
    if done == [] then runs
    else
      var u := done[|done| - 1];
      assert forall v :: v in done[..|done| - 1] ==> v in done;
      AfterTurn(RunsAfter(runs, users, done[..|done| - 1], feeds, now), TurnOf(u, users[u].creds, now, feeds[u]))
  }

  /** What the turns of the users in `done` report, in that order. */
  function Outcomes(users: map<UserId, User>, done: seq<UserId>, feeds: map<UserId, UserFeed>, now: int)
    : (r: seq<UserOutcome>)
    requires forall u :: u in done ==> u in feeds && u in users
    ensures |r| == |done|
    ensures forall j :: 0 <= j < |done| ==> r[j] == TurnOf(done[j], users[done[j]].creds, now, feeds[done[j]]).outcome
  {
    seq(|done|, j requires 0 <= j < |done| => TurnOf(done[j], users[done[j]].creds, now, feeds[done[j]]).outcome)
  }

  /** The job never deletes a run, whatever the turns do. */
  lemma {:induction false} SyncKeepsRuns(runs: map<int, RunRow>, users: map<UserId, User>, done: seq<UserId>,
                                         feeds: map<UserId, UserFeed>, now: int)
    requires forall u :: u in done ==> u in feeds && u in users
    ensures runs.Keys <= RunsAfter(runs, users, done, feeds, now).Keys
    decreases |done|
  {
    if done != [] {
      assert forall v :: v in done[..|done| - 1] ==> v in done;
      SyncKeepsRuns(runs, users, done[..|done| - 1], feeds, now);
    }
  }

  /** The last turn that stores a batch decides the rows of its strava ids. */
  lemma LastTurnWins(runs: map<int, RunRow>, users: map<UserId, User>, done: seq<UserId>,
                     feeds: map<UserId, UserFeed>, now: int)
    requires done != [] && forall u :: u in done ==> u in feeds && u in users
    requires TurnOf(done[|done| - 1], users[done[|done| - 1]].creds, now, feeds[done[|done| - 1]]).outcome.Synced?
    ensures var t := TurnOf(done[|done| - 1], users[done[|done| - 1]].creds, now, feeds[done[|done| - 1]]);
            forall i :: 0 <= i < |t.rows| ==> RunsAfter(runs, users, done, feeds, now)[t.rows[i].stravaId] == t.rows[i]
  {
  }

  lemma UsersAfterStep(users: map<UserId, User>, done: seq<UserId>, u: UserId, feeds: map<UserId, UserFeed>, now: int)
    requires forall v :: v in done ==> v in feeds
    requires u in feeds && u in users && u !in done
    ensures UsersAfter(users, done + [u], feeds, now)
         == UsersAfter(users, done, feeds, now)[u := users[u].(creds := TurnOf(u, users[u].creds, now, feeds[u]).refresh.creds)]
  {
    assert forall v :: v in done + [u] <==> v in done || v == u;
  }

  lemma RunsAfterStep(runs: map<int, RunRow>, users: map<UserId, User>, done: seq<UserId>, u: UserId,
                      feeds: map<UserId, UserFeed>, now: int)
    requires forall v :: v in done ==> v in feeds && v in users
    requires u in feeds && u in users
    ensures RunsAfter(runs, users, done + [u], feeds, now)
         == AfterTurn(RunsAfter(runs, users, done, feeds, now), TurnOf(u, users[u].creds, now, feeds[u]))
  {
    assert (done + [u])[..|done|] == done;
  }

  /** The tables after one more turn extend the loop's invariant to `order[..i + 1]`. */
  lemma TurnExtends(users0: map<UserId, User>, runs0: map<int, RunRow>, order: seq<UserId>, i: nat,
                    feeds: map<UserId, UserFeed>, now: int, users1: map<UserId, User>, runs1: map<int, RunRow>)
    requires i < |order| && Distinct(order)
    requires forall u :: u in order ==> u in feeds && u in users0
    requires users1 == UsersAfter(users0, order[..i], feeds, now)
    requires runs1 == RunsAfter(runs0, users0, order[..i], feeds, now)
    ensures order[i] in users1 && users1[order[i]] == users0[order[i]]
    ensures var u := order[i];
            var t := TurnOf(u, users0[u].creds, now, feeds[u]);
            && users1[u := users1[u].(creds := t.refresh.creds)] == UsersAfter(users0, order[..i + 1], feeds, now)
            && AfterTurn(runs1, t) == RunsAfter(runs0, users0, order[..i + 1], feeds, now)
  {
    var u := order[i];
    var done := order[..i];
    assert u !in done;
    assert forall v :: v in done ==> v in order;
    assert order[..i + 1] == done + [u];
    UsersAfterStep(users0, done, u, feeds, now);
    RunsAfterStep(runs0, users0, done, u, feeds, now);
  }

  /** One turn, as the loop body of the job performs it. */
  method TakeTurn(db: Store, u: UserId, f: UserFeed, now: int) returns (outcome: UserOutcome)
    requires db.Valid() && u in db.users
    modifies db`users, db`runs
    ensures db.Valid()
    ensures var t := TurnOf(u, old(db.users)[u].creds, now, f);
            && outcome == t.outcome
            && db.users == old(db.users)[u := old(db.users)[u].(creds := t.refresh.creds)]
            && db.runs == AfterTurn(old(db.runs), t)
  {
    var c := db.users[u].creds;
    // refreshTokenIfNeeded, with its write of the new credentials
    var step := SyncRefresh(c, now, f.reply, f.writeFails);
    db.UpdateUser(u, db.users[u].(creds := step.creds));
    if step.outcome.Failed? {
      outcome := Errored;
    } else if !Truthy(step.outcome.token) {
      outcome := Skipped;
    } else if f.page.None? {
      outcome := Errored;
    } else {
      // fetchAndStoreRuns
      var rows := SyncBatch(f.page.value, u);
      var ok := false;
      if !f.upsertFails {
        ok := db.UpsertRuns(rows);
      }
      outcome := if ok then Synced(|rows|) else Errored;
    }
  }

  lemma OutcomesStep(users: map<UserId, User>, order: seq<UserId>, i: nat, feeds: map<UserId, UserFeed>, now: int)
    requires i < |order| && forall u :: u in order ==> u in feeds && u in users
    ensures Outcomes(users, order[..i + 1], feeds, now)
         == Outcomes(users, order[..i], feeds, now) + [TurnOf(order[i], users[order[i]].creds, now, feeds[order[i]]).outcome]
  {
    assert forall v :: v in order[..i + 1] ==> v in order;
    assert forall v :: v in order[..i] ==> v in order;
  }

  /** The turn of `order[i]`, taking the tables from `order[..i]` to `order[..i + 1]`. */
  method NextTurn(db: Store, order: seq<UserId>, i: nat, feeds: map<UserId, UserFeed>, now: int,
                  ghost users0: map<UserId, User>, ghost runs0: map<int, RunRow>)
      returns (outcome: UserOutcome)
    requires i < |order| && Distinct(order)
    requires forall u :: u in order ==> u in feeds && u in users0
    requires db.Valid()
    requires db.users == UsersAfter(users0, order[..i], feeds, now)
    requires db.runs == RunsAfter(runs0, users0, order[..i], feeds, now)
    modifies db`users, db`runs
    ensures db.Valid()
    ensures outcome == TurnOf(order[i], users0[order[i]].creds, now, feeds[order[i]]).outcome
    ensures Outcomes(users0, order[..i + 1], feeds, now) == Outcomes(users0, order[..i], feeds, now) + [outcome]
    ensures db.users == UsersAfter(users0, order[..i + 1], feeds, now)
    ensures db.runs == RunsAfter(runs0, users0, order[..i + 1], feeds, now)
  {
    TurnExtends(users0, runs0, order, i, feeds, now, db.users, db.runs);
    OutcomesStep(users0, order, i, feeds, now);
    outcome := TakeTurn(db, order[i], feeds[order[i]], now);
  }

  /** Distinct user ids. */
  predicate Distinct(order: seq<UserId>) {
    forall i, j :: 0 <= i < j < |order| ==> order[i] != order[j]
  }

  /** The loop of the job: every user of `order` has a turn, whatever the earlier turns did. */
  method TakeTurns(db: Store, order: seq<UserId>, feeds: map<UserId, UserFeed>, now: int)
      returns (outcomes: seq<UserOutcome>)
    requires db.Valid() && Distinct(order)
    requires forall u :: u in order ==> u in feeds && u in db.users
    modifies db`users, db`runs
    ensures db.Valid()
    ensures outcomes == Outcomes(old(db.users), order, feeds, now)
    ensures db.users == UsersAfter(old(db.users), order, feeds, now)
    ensures db.runs == RunsAfter(old(db.runs), old(db.users), order, feeds, now)
  {
    outcomes := [];
    ghost var users0 := db.users;
    ghost var runs0 := db.runs;
    var i := 0;
    assert order[..0] == [];
    assert UsersAfter(users0, [], feeds, now) == users0;
    while i < |order|
      invariant 0 <= i <= |order|
      invariant db.Valid()
      invariant db.users == UsersAfter(users0, order[..i], feeds, now)
      invariant db.runs == RunsAfter(runs0, users0, order[..i], feeds, now)
      invariant |outcomes| == i
      invariant outcomes == Outcomes(users0, order[..i], feeds, now)
    {
      var outcome := NextTurn(db, order, i, feeds, now, users0, runs0);
      outcomes := outcomes + [outcome];
      i := i + 1;
    }
    assert order[..i] == order;
  }

  /** The job: `queryFails` is an error of the users query, `order` the rows it returns. */
  method Sync(db: Store, queryFails: bool, order: seq<UserId>, feeds: map<UserId, UserFeed>, now: int)
      returns (status: int, outcomes: seq<UserOutcome>)
    requires db.Valid()
    requires !queryFails ==> Linked(db.users, order)
    requires forall u :: u in order ==> u in feeds && u in db.users
    modifies db`users, db`runs
    ensures db.Valid()
    ensures status == 500 || status == 200
    ensures status == 500 <==> queryFails || order == []
    ensures status == 500 ==> db.users == old(db.users) && db.runs == old(db.runs) && outcomes == []
    ensures status == 200 ==>
              && |outcomes| == |order|
              && (forall i :: 0 <= i < |order| ==>
                    outcomes[i] == TurnOf(order[i], old(db.users)[order[i]].creds, now, feeds[order[i]]).outcome)
              && db.users == UsersAfter(old(db.users), order, feeds, now)
              && db.runs == RunsAfter(old(db.runs), old(db.users), order, feeds, now)
  {
    if queryFails || order == [] {
      return 500, [];
    }
    outcomes := TakeTurns(db, order, feeds, now);
    status := 200;
  }
}
