/**
 * The OAuth 2.0 redirect endpoint (RFC 6749, section 4.1.2): the provider sends the
 * user back with `code` and `state` (the user's email) or with `error`. A valid code
 * is exchanged for tokens (section 4.1.3), the timezone is read from the most recent
 * activity, and the user found by email is linked and activated. Every path ends in a
 * redirect to the web site.
 */
module StravaCallback {
  import opened Common
  import opened Text
  import opened EmailShape
  import opened Activity
  import opened TokenRefresh
  import opened Tables
  import opened Pages

  const USER_NOT_FOUND := "User not found. Please email Reggie first to get started."
  const MISSING_PARAMETERS := "Missing authorization code or email"
  const INVALID_EMAIL := "Invalid email format"
  const INVALID_TOKENS := "Invalid token response from Strava"

  /** The token endpoint's answer to the code exchange: a non-2xx reply with its body text,
      or the JSON fields read (`expiresAt` in seconds; `firstname` of `athlete`). */
  datatype CodeExchange =
    | ExchangeRejected(errText: string)
    | ExchangeOk(accessToken: Option<string>, refreshToken: Option<string>, expiresAt: Option<int>, firstname: Option<string>)

  /** The answer to the request for the most recent activity: a failure (a non-2xx reply
      or a network error), an empty list, or the first activity's `timezone` field. */
  datatype RecentActivity = ListFailed | NoActivities | First(timezone: Option<string>)

  /** The redirect decided from the query parameters alone, if any. */
  function Precheck(code: Option<string>, state: Option<string>, error: Option<string>): (r: Option<string>)
    ensures Truthy(error) ==> r == Some(error.value)
    ensures r.None? <==> !Truthy(error) && Truthy(code) && Truthy(state) && IsEmail(state.value)
    ensures r.Some? && !Truthy(error) ==> r.value in {MISSING_PARAMETERS, INVALID_EMAIL}
    ensures !Truthy(error) && (!Truthy(code) || !Truthy(state)) ==> r == Some(MISSING_PARAMETERS)
    ensures !Truthy(error) && Truthy(code) && Truthy(state) && !IsEmail(state.value) ==> r == Some(INVALID_EMAIL)
  {
    if Truthy(error) then Some(error.value)
    else if !Truthy(code) || !Truthy(state) then Some(MISSING_PARAMETERS)
    else if !IsEmail(state.value) then Some(INVALID_EMAIL)
    else None
  }

  /** The message of the error the exchange throws, if it does. */
  function ExchangeError(x: CodeExchange): (r: Option<string>)
    ensures x.ExchangeRejected? ==> r == Some("Failed to exchange code: " + x.errText)
    ensures x.ExchangeOk? ==> (r.None? <==> && Truthy(x.accessToken) && Truthy(x.refreshToken) && x.expiresAt.Some?
                                            && x.expiresAt.value != 0 && IsoFormattable(x.expiresAt.value * 1000))
    ensures x.ExchangeOk? && r.Some? ==>
              (r.value == INVALID_TOKENS <==> !Truthy(x.accessToken) || !Truthy(x.refreshToken) || x.expiresAt.None? || x.expiresAt.value == 0)
    ensures x.ExchangeOk? && r.Some? && r.value != INVALID_TOKENS ==> r.value == INVALID_TIME
  {
    match x
    case ExchangeRejected(t) => Some("Failed to exchange code: " + t)
    case ExchangeOk(a, rt, e, _) =>
      if !Truthy(a) || !Truthy(rt) || e.None? || e.value == 0 then Some(INVALID_TOKENS)
      else if !IsoFormattable(e.value * 1000) then Some(INVALID_TIME)
      else None
  }

  /** `getUserTimezoneFromRecentActivity`: the zone named in the first activity's label. */
  function DetectTimezone(r: RecentActivity): (tz: Option<string>)
    ensures tz.Some? <==> r.First? && Truthy(r.timezone) && Timezone(r.timezone).Some?
    ensures tz.Some? ==> tz == Timezone(r.timezone) && tz.value != ""
  {
    match r
    case ListFailed => None
    case NoActivities => None
    case First(t) => if !Truthy(t) then None else Timezone(t)
  }

  /** The timezone stored: the detected zone, or `"UTC"` when none was found. */
  function CallbackTimezone(r: RecentActivity): (tz: string)
    ensures tz != ""
    ensures DetectTimezone(r).Some? ==> tz == DetectTimezone(r).value
    ensures DetectTimezone(r).None? ==> tz == "UTC"
  {
    DetectTimezone(r).GetOr("UTC")
  }

  /** The user row after linking: the three credential columns, the first name
      (`firstname ?? null`, so an empty name is kept), the timezone, and `is_active`. */
  function Linked(u: User, x: CodeExchange, r: RecentActivity): (v: User)
    requires x.ExchangeOk? && ExchangeError(x).None?
    ensures v.email == u.email && v.isActive
    ensures v.creds == Credentials(x.accessToken, x.refreshToken, Some(x.expiresAt.value * 1000))
    ensures v.name == x.firstname && v.timezone == Some(CallbackTimezone(r))
    ensures v.frequency == u.frequency && v.trainingPlan == u.trainingPlan && v.createdAt == u.createdAt
  {
    u.(creds := Credentials(x.accessToken, x.refreshToken, Some(x.expiresAt.value * 1000)),
       name := x.firstname, timezone := Some(CallbackTimezone(r)), isActive := true)
  }

  /** The update of the one user with the email, once the exchange went through. */
  method LinkUser(db: Store, email: string, x: CodeExchange, recent: RecentActivity)
    requires db.Valid() && WithEmail(db.users, email) != {}
    requires ExchangeError(x).None?
    modifies db`users
    ensures db.Valid()
    ensures exists u :: WithEmail(old(db.users), email) == {u}
                     && db.users == old(db.users)[u := Linked(old(db.users)[u], x, recent)]
  {
    var u :| u in WithEmail(db.users, email);
    WithEmailAtMostOne(db.users, email, u);
    db.UpdateUser(u, Linked(db.users[u], x, recent));
  }

  /** The endpoint. `lookupFails` is a database error of the user query; `updateError`
      the message of an error of the update. Returns the `Location` of the 302 reply and
      whether the code was sent to the token endpoint. */
  method HandleCallback(db: Store, code: Option<string>, state: Option<string>, error: Option<string>,
                        x: CodeExchange, recent: RecentActivity, lookupFails: bool, updateError: Option<string>)
      returns (location: string, exchanged: bool)
    requires db.Valid()
    modifies db`users
    ensures db.Valid()
    ensures var pre := Precheck(code, state, error);
            pre.Some? ==> location == WithError(STRAVA_ERROR, pre.value) && !exchanged && db.users == old(db.users)
    ensures exchanged <==> Precheck(code, state, error).None?
    ensures exchanged && ExchangeError(x).Some? ==>
              location == WithError(STRAVA_ERROR, ExchangeError(x).value) && db.users == old(db.users)
    ensures exchanged && ExchangeError(x).None? && (lookupFails || WithEmail(old(db.users), state.value) == {}) ==>
              location == WithError(STRAVA_ERROR, USER_NOT_FOUND) && db.users == old(db.users)
    ensures exchanged && ExchangeError(x).None? && !lookupFails && WithEmail(old(db.users), state.value) != {} ==>
              && (updateError.Some? ==>
                    location == WithError(STRAVA_ERROR, "Failed to update user: " + updateError.value) && db.users == old(db.users))
              && (updateError.None? ==>
                    && location == STRAVA_SUCCESS
                    && exists u :: WithEmail(old(db.users), state.value) == {u}
                                && db.users == old(db.users)[u := Linked(old(db.users)[u], x, recent)])
  {
    var pre := Precheck(code, state, error);
    if pre.Some? {
      return WithError(STRAVA_ERROR, pre.value), false;
    }
    exchanged := true;
    var failure := ExchangeError(x);
    if failure.Some? {
      return WithError(STRAVA_ERROR, failure.value), exchanged;
    }
    var email := state.value;
    var found := WithEmail(db.users, email);
    if lookupFails || found == {} {
      return WithError(STRAVA_ERROR, USER_NOT_FOUND), exchanged;
    }
    if updateError.Some? {
      return WithError(STRAVA_ERROR, "Failed to update user: " + updateError.value), exchanged;
    }
    LinkUser(db, email, x, recent);
    location := STRAVA_SUCCESS;
  }
}
