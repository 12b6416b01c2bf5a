/**
 * `refreshTokenIfNeeded`, in its two copies (the sync job's and the webhook's): the
 * 60-second expiry rule and the OAuth 2.0 refresh-token grant (RFC 6749, section 6)
 * sent to the provider's token endpoint. The provider's reply and the outcome of the
 * write to the `users` row are inputs; the result is the request made (if any), the
 * credentials to keep, and the access token handed back or an error.
 */
module TokenRefresh {
  import opened Common

  /** The stored credential columns of a user. `expiresAtMs` is the expiry in milliseconds
      since the epoch; `None` stands for a missing or unparseable value. */
  datatype Credentials = Credentials(accessToken: Option<string>, refreshToken: Option<string>, expiresAtMs: Option<int>)

  /** A refresh is due this many milliseconds before the expiry. */
  const REFRESH_MARGIN_MS: int := 60_000

  /** `!expiresAt || expiresAt - now < 60_000`: an unset (0 or NaN) expiry, or one less
      than a minute away, needs a refresh. */
  function NeedsRefresh(expiresAtMs: Option<int>, now: int): (b: bool)
    ensures !b <==> expiresAtMs.Some? && expiresAtMs.value != 0 && expiresAtMs.value >= now + REFRESH_MARGIN_MS
  {
    expiresAtMs.None? || expiresAtMs.value == 0 || expiresAtMs.value - now < REFRESH_MARGIN_MS
  }

  /** The body of a token request: the refresh-token grant of section 6, or the
      authorization-code grant of section 4.1.3 of RFC 6749 (the client id and secret are
      configuration and are sent with both). */
  datatype TokenGrant = RefreshGrant(refreshToken: Option<string>) | CodeGrant(code: string)

  /** The `grant_type` parameter of a grant. */
  function GrantType(g: TokenGrant): (t: string)
    ensures g.RefreshGrant? <==> t == "refresh_token"
  {
    match g
    case RefreshGrant(_) => "refresh_token"
    case CodeGrant(_) => "authorization_code"
  }

  /** What the token endpoint answers: a non-2xx status, or the three token fields
      (`expires_at` in seconds since the epoch, `None` when the field is missing). */
  datatype TokenReply = Rejected(status: int) | Tokens(accessToken: string, refreshToken: string, expiresAt: Option<int>)

  /** A 2xx reply whose expiry `new Date(expires_at * 1000).toISOString()` can print; a
      missing `expires_at` gives NaN and, like one out of range, throws before the write. */
  function Storable(r: TokenReply): (b: bool)
    ensures b ==> r.Tokens? && r.expiresAt.Some?
    ensures r.Tokens? && r.expiresAt.Some? ==> (b <==> IsoFormattable(r.expiresAt.value * 1000))
  {
    r.Tokens? && r.expiresAt.Some? && IsoFormattable(r.expiresAt.value * 1000)
  }

  /** How the call ends: with the access token to use (possibly `undefined`), or by throwing. */
  datatype Outcome = UseToken(token: Option<string>) | Failed

  /** One call of `refreshTokenIfNeeded`. */
  datatype RefreshStep = RefreshStep(request: Option<TokenGrant>, creds: Credentials, outcome: Outcome)

  /** The credentials written after a successful refresh. */
  function Stored(r: TokenReply): (c: Credentials)
    requires Storable(r)
    ensures c.accessToken == Some(r.accessToken) && c.refreshToken == Some(r.refreshToken)
    ensures c.expiresAtMs == Some(r.expiresAt.value * 1000)
  {
    Credentials(Some(r.accessToken), Some(r.refreshToken), Some(r.expiresAt.value * 1000))
  }

  /** The request made once a refresh is decided, and what follows from the reply and the
      write of the user row. */
  function Refresh(c: Credentials, reply: TokenReply, writeFails: bool): (s: RefreshStep)
    ensures s.request == Some(RefreshGrant(c.refreshToken))
    ensures s.outcome.Failed? <==> reply.Rejected? || !Storable(reply) || writeFails
    ensures reply.Tokens? && reply.expiresAt.None? ==> s.outcome.Failed?
    ensures s.outcome.Failed? ==> s.creds == c
    ensures s.outcome.UseToken? ==> s.creds == Stored(reply) && s.outcome.token == Some(reply.accessToken)
  {
    var req := Some(RefreshGrant(c.refreshToken));
    if !Storable(reply) || writeFails then RefreshStep(req, c, Failed)
    else RefreshStep(req, Stored(reply), UseToken(Some(reply.accessToken)))
  }

  /** The sync job's copy: a refresh without a refresh token throws before any request. */
  function SyncRefresh(c: Credentials, now: int, reply: TokenReply, writeFails: bool): (s: RefreshStep)
    ensures s.request.Some? <==> NeedsRefresh(c.expiresAtMs, now) && Truthy(c.refreshToken)
    ensures !NeedsRefresh(c.expiresAtMs, now) ==> s == RefreshStep(None, c, UseToken(c.accessToken))
    ensures NeedsRefresh(c.expiresAtMs, now) && !Truthy(c.refreshToken) ==> s == RefreshStep(None, c, Failed)
    ensures NeedsRefresh(c.expiresAtMs, now) && Truthy(c.refreshToken) ==> s == Refresh(c, reply, writeFails)
    ensures s.outcome.Failed? ==> s.creds == c
  {
    if !NeedsRefresh(c.expiresAtMs, now) then RefreshStep(None, c, UseToken(c.accessToken))
    else if !Truthy(c.refreshToken) then RefreshStep(None, c, Failed)
    else Refresh(c, reply, writeFails)
  }

  /** The webhook's copy: no guard on the refresh token. */
  function WebhookRefresh(c: Credentials, now: int, reply: TokenReply, writeFails: bool): (s: RefreshStep)
    ensures s.request.Some? <==> NeedsRefresh(c.expiresAtMs, now)
    ensures !NeedsRefresh(c.expiresAtMs, now) ==> s == RefreshStep(None, c, UseToken(c.accessToken))
    ensures NeedsRefresh(c.expiresAtMs, now) ==> s == Refresh(c, reply, writeFails)
    ensures s.outcome.Failed? ==> s.creds == c
  {
    if !NeedsRefresh(c.expiresAtMs, now) then RefreshStep(None, c, UseToken(c.accessToken))
    else Refresh(c, reply, writeFails)
  }

  /** At exactly one minute before the expiry the stored token is used as it is; a
      millisecond later a refresh is due. */
  lemma RefreshBoundary(c: Credentials, now: int, reply: TokenReply, writeFails: bool)
    requires c.expiresAtMs == Some(now + REFRESH_MARGIN_MS) && now + REFRESH_MARGIN_MS != 0
    ensures SyncRefresh(c, now, reply, writeFails) == RefreshStep(None, c, UseToken(c.accessToken))
    ensures WebhookRefresh(c, now, reply, writeFails) == RefreshStep(None, c, UseToken(c.accessToken))
    ensures NeedsRefresh(c.expiresAtMs, now + 1)
  {
  }

  /** The copies differ only when a refresh is due and no refresh token is stored: the
      sync job then fails without a request, while the webhook sends the grant anyway. */
  lemma RefreshCopiesDiffer(c: Credentials, now: int, reply: TokenReply, writeFails: bool)
    ensures SyncRefresh(c, now, reply, writeFails) != WebhookRefresh(c, now, reply, writeFails)
        <==> NeedsRefresh(c.expiresAtMs, now) && !Truthy(c.refreshToken)
  {
    if NeedsRefresh(c.expiresAtMs, now) && !Truthy(c.refreshToken) {
      assert SyncRefresh(c, now, reply, writeFails).request.None?;
      assert WebhookRefresh(c, now, reply, writeFails).request.Some?;
    }
  }

  /** A refresh that went through leaves credentials that need no refresh for as long as
      the new expiry is more than a minute away, and a second call then makes no request. */
  lemma RefreshSettles(c: Credentials, now: int, reply: TokenReply, writeFails: bool, reply2: TokenReply)
    requires Storable(reply) && reply.expiresAt.value * 1000 - now >= REFRESH_MARGIN_MS && reply.expiresAt.value != 0
    requires NeedsRefresh(c.expiresAtMs, now) && Truthy(c.refreshToken) && !writeFails
    ensures SyncRefresh(SyncRefresh(c, now, reply, writeFails).creds, now, reply2, writeFails).request.None?
  {
    var s := SyncRefresh(c, now, reply, writeFails);
    assert s.creds == Stored(reply);
  }
}
