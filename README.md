# Reggie's edge functions, modelled in Dafny

Reggie is a running coach that works by e-mail. A set of Supabase edge functions, written in TypeScript, does the work:

- They link a runner's Strava account (the OAuth 2.0 authorization-code flow of RFC 6749).
- They keep the runner's runs in the `runs` table, fed both by a scheduled sync and by Strava's webhook.
- They manage the single webhook subscription.
- They file inbound e-mail and queue an acknowledgement for each message.
- They send a morning review to each active runner inside a 3–6 a.m. local window.
- They handle the preference requests: pause, resume, data request, frequency, and the one-shot confirmation links for pause and disconnect.

This project models the decision logic of those functions and proves what it promises. Every call to the outside world is an input of the model:

- the database's answers and errors;
- Strava's, the mail service's and the language model's replies;
- the clock, the local hour, and the random draws.

The database is one `Store` object whose fields are the tables. Each handler that writes to the database is a method on it. Each handler that only computes is a function.

The modules follow the functions:

- `Common`, `Text`, `Uri`, `EmailShape` (common, text, uri, email): JavaScript truthiness; `trim`, `toLowerCase`, `split` and `join`; `encodeURIComponent` over UTF-8 with its inverse; the email regex `^[^\s@]+@[^\s@]+\.[^\s@]+$` as a one-pass automaton proved equal to the regex
- `Activity`, `TokenRefresh` (activity, refresh): the two copies of the activity normaliser and of `refreshTokenIfNeeded` (in `strava-sync` and in `strava-webhook`) and how they differ
- `Tables` (tables): the rows, the `Store` class, upsert on `strava_id`, and the cascade from a user to the rows that reference it
- `StravaSync`, `StravaWebhook`, `WebhookSetup`, `StravaCallback`, `Pages` (sync, webhook, setup, callback, pages): `strava-sync`, `strava-webhook`, `strava-webhook-setup`, `strava-callback`, and the redirect targets
- `Frequency`, `PreferenceConfirm`, `PreferenceRequests` (frequency, confirm, preferences): `preferences-update-frequency`; `preferences-confirm-pause` and `-disconnect`; `preferences-pause`, `-resume` and `-request-data`
- `Inbound`, `OutboundReply`, `MorningReview` (inbound, outbound, morning): `inbound`, `outbound-reply`, `outbound-morning-review`

Notes where the model reads the code rather than its comments:

- In `outbound-morning-review`, a comment speaks of a window from 2 a.m. The code tests `hour >= 3 && hour < 6`, and the model follows the code (`MorningReview.MorningHours`).
- `preferences-resume` mails a link to a `preferences-confirm-resume` function. That function is not among these sources, so the model issues and mails the resume token but has no member that confirms it.
- The sync job's code hands every listed user a turn whatever happened to the previous ones. This is what its loop does, and it is what `StravaSync.TakeTurns` states.

## Model

| member | source | states |
|---|---|---|
| Activity.Round | supabase/functions/strava-sync/index.ts:46 | `Math.round`: the integer within half of the value, halves going up |
| Activity.ParseFloat | supabase/functions/strava-sync/index.ts:48-49 | `parseFloat` on decimal text: a number only when the text holds a digit (NaN otherwise); the value read is pinned down by `ParseFloatOfNat` and `ParseFloatSkipsBlanks` |
| Activity.ParseFloatOfNat | supabase/functions/strava-sync/index.ts:48 | the decimal text of a whole number parses back to that number |
| Activity.ParseFloatSkipsBlanks | supabase/functions/strava-sync/index.ts:48 | a leading blank does not change what `parseFloat` reads |
| Activity.ParseStravaNumber | supabase/functions/strava-sync/index.ts:42-52 | never fails; null, undefined and non-numeric values give null; a number gives its rounding; a string gives the rounded parse, or null when the parse is NaN |
| Activity.ParseStravaNumberStringOrNumber | supabase/functions/strava-sync/index.ts:46-49 | a whole number reads the same sent as a number or as its decimal string |
| Activity.CloseParen | supabase/functions/strava-sync/index.ts:139 | the `[^)]+\)` part of the timezone pattern: the first `)` after the opening one |
| Activity.LeadingSpaces | supabase/functions/strava-sync/index.ts:139 | the `\s*` part of the pattern: the blanks at the head of the rest |
| Activity.CaptureStart | supabase/functions/strava-sync/index.ts:139 | where the capture `(.+)` starts once `\s*` gives back characters, or none when only line terminators are left |
| Activity.LineRun | supabase/functions/strava-sync/index.ts:139 | the greedy `.+`: the longest prefix with no line terminator |
| Activity.MatchFrom | supabase/functions/strava-sync/index.ts:139 | the leftmost match: a non-empty, one-line capture, and none when no `(` follows |
| Activity.Timezone | supabase/functions/strava-sync/index.ts:139-140 | the capture of `/\([^)]+\)\s*(.+)/` or null: non-empty when present, null when the text has no `(` |
| Activity.TimezoneOfLabel | supabase/functions/strava-sync/index.ts:138-140 | an offset in parentheses, blanks, then a one-line name gives exactly that name (the `"(GMT-08:00) America/Los_Angeles"` shape) |
| Activity.StripZ | supabase/functions/strava-sync/index.ts:143-145 | a start time ending in `Z` loses that last character; any other value is kept |
| Activity.StripZOnce | supabase/functions/strava-sync/index.ts:144-145 | only one trailing `Z` goes |
| Activity.Pace | supabase/functions/strava-sync/index.ts:136 | a pace only for a positive distance, and then pace times distance is the duration |
| Activity.BaseRow | supabase/functions/strava-sync/index.ts:133-186 | km times 1000 is the distance, minutes times 60 the moving time, plus the pace, zone, start time, notes and ids of the row |
| Activity.SyncRow | supabase/functions/strava-sync/index.ts:152-186 | the sync row of an activity: its strava id and the user's id, with elevation, heart rates and suffer score parsed and rounded, and every other column that of `BaseRow` |
| Activity.WebhookRow | supabase/functions/strava-webhook/index.ts:76-110 | the webhook row of an activity: its strava id and the user's id, with elevation, heart rates and suffer score stored as given or `null`, and every other column that of `BaseRow` |
| Activity.SyncAndWebhookShareBase | supabase/functions/strava-webhook/index.ts:76-108 | the two normalisers agree on every column except the four metrics |
| Activity.MetricCopiesAgree | supabase/functions/strava-webhook/index.ts:104-107 | a metric column is stored the same by both copies iff it is absent or a whole number sent as a number |
| Activity.MetricCopiesDiffer | supabase/functions/strava-sync/index.ts:152-155 | 150.6 is stored as 151 by the sync job and as 150.6 by the webhook; the string "12" as 12 and as "12" |
| Activity.SyncBatch | supabase/functions/strava-sync/index.ts:132-187 | the rows are the normalised activities of type `Run` in the page, and every run in the page yields one |
| Activity.SyncBatchAtMostOnePage | supabase/functions/strava-sync/index.ts:117 | a page of at most 30 activities stores at most 30 rows |
| Activity.SyncBatchIds | supabase/functions/strava-sync/index.ts:174-175 | every row carries the user's id and the strava id of a run of the page |
| TokenRefresh.GrantType | supabase/functions/strava-sync/index.ts:77 | the grant is the refresh-token grant exactly when `grant_type` is `refresh_token` |
| TokenRefresh.NeedsRefresh | supabase/functions/strava-sync/index.ts:56-60 | no refresh is due exactly when an expiry is stored, it is not 0, and at least a minute is left |
| TokenRefresh.Stored | supabase/functions/strava-sync/index.ts:97-101 | the new access and refresh tokens are stored, and the expiry as `expires_at * 1000` ms |
| TokenRefresh.Storable | supabase/functions/strava-sync/index.ts:94-100 | a 2xx reply can be stored only with an `expires_at`, and then exactly when `expires_at * 1000` ms is a valid date for `toISOString` |
| TokenRefresh.Refresh | supabase/functions/strava-sync/index.ts:69-103 | the grant carries the refresh token; a rejected reply, a reply whose `expires_at` is missing or beyond the range of a `Date`, or a failed write fails and keeps the credentials; otherwise the reply's tokens are stored and its access token is used |
| TokenRefresh.SyncRefresh | supabase/functions/strava-sync/index.ts:54-108 | a request is made iff a refresh is due and a refresh token exists; when none is due the stored token is used unchanged; a due refresh without a refresh token fails and keeps the credentials; a due refresh with one is `Refresh` |
| TokenRefresh.WebhookRefresh | supabase/functions/strava-webhook/index.ts:24-59 | a request is made iff a refresh is due, with no guard on the refresh token; a failure keeps the credentials; a due refresh is `Refresh` |
| TokenRefresh.RefreshBoundary | supabase/functions/strava-sync/index.ts:56-60 | with exactly 60000 ms left the stored token is used without a request; one ms later a refresh is due |
| TokenRefresh.RefreshCopiesDiffer | supabase/functions/strava-webhook/index.ts:28-42 | the two copies differ exactly when a refresh is due and no refresh token is stored |
| TokenRefresh.RefreshSettles | supabase/functions/strava-sync/index.ts:97-103 | after a successful refresh to an expiry more than a minute away, the next call makes no request |
| StravaSync.TurnOf | supabase/functions/strava-sync/index.ts:220-236 | one user's turn: skipped iff the token to use is falsy; runs stored iff the token is truthy, the page came, and the upsert went through; a failed refresh is an error |
| StravaSync.AfterTurn | supabase/functions/strava-sync/index.ts:188-191 | only a turn that stored runs changes the table, and no run is removed |
| StravaSync.UsersAfter | supabase/functions/strava-sync/index.ts:220-222 | after the turns of `done` the same users exist, and users outside `done` are unchanged |
| StravaSync.Outcomes | supabase/functions/strava-sync/index.ts:220-236 | one outcome per user, each that user's own turn |
| StravaSync.SyncKeepsRuns | supabase/functions/strava-sync/index.ts:188-190 | the job never deletes a run |
| StravaSync.LastTurnWins | supabase/functions/strava-sync/index.ts:188-190 | the last turn that stores runs decides the rows of its strava ids |
| StravaSync.TakeTurn | supabase/functions/strava-sync/index.ts:221-225 | the turn on the store: its outcome, the user's new credentials, and the upserted runs |
| StravaSync.NextTurn | supabase/functions/strava-sync/index.ts:220-236 | one more user of the loop: the outcome is that user's turn, and the tables become those after one more turn |
| StravaSync.TakeTurns | supabase/functions/strava-sync/index.ts:220-236 | every user of the query has a turn, whatever the earlier turns did; the tables are those after all turns |
| StravaSync.Sync | supabase/functions/strava-sync/index.ts:208-266 | the users handled are those the query lists, the ones with a refresh token; 500 iff the users query errs or lists no user, with nothing changed; otherwise 200 after every listed user's turn, in order |
| StravaWebhook.Handshake | supabase/functions/strava-webhook/index.ts:243-269 | the challenge is echoed with 200 iff the mode is `subscribe` and the verify token equals the configured one; otherwise 403 "Forbidden" |
| StravaWebhook.HandshakeNeedsConfiguredToken | supabase/functions/strava-webhook/index.ts:252-255 | with no configured verify token every handshake gets 403 |
| StravaWebhook.Owner | supabase/functions/strava-webhook/index.ts:131 | the user looked up for an event is never the empty id |
| StravaWebhook.Deauthorizes | supabase/functions/strava-webhook/index.ts:211-214 | exactly an `update` whose `authorized` is the boolean `false` |
| StravaWebhook.ActivityEvent | supabase/functions/strava-webhook/index.ts:121-203 | an unknown owner or a failed lookup changes nothing; a delete removes the run unless the delete errs, and never touches the users; a create or update stores the owner's credentials after `WebhookRefresh`, then, if the refresh went through, the activity was fetched, is a run and the upsert went through, puts its row under its strava id; in every other case the runs stay; other users are untouched |
| StravaWebhook.WebhookRefreshSettles | supabase/functions/strava-webhook/index.ts:24-59 | refreshing from what a refresh left behind keeps the same credentials |
| StravaWebhook.ActivityEventIdempotent | supabase/functions/strava-webhook/index.ts:142-199 | delivering the same activity event twice leaves the tables as the first delivery left them |
| StravaWebhook.TextualFalseKeepsUser | supabase/functions/strava-webhook/index.ts:211-214 | `authorized` given as the text "false" does not deauthorize |
| StravaWebhook.HandleActivityEvent | supabase/functions/strava-webhook/index.ts:121-203 | the handler on the store leaves the users and runs that `ActivityEvent` gives |
| StravaWebhook.HandleAthleteEvent | supabase/functions/strava-webhook/index.ts:205-235 | a deauthorization (update with `authorized === false`) deletes the user with the rows that reference it, unless the delete errs; any other athlete event changes nothing |
| StravaWebhook.Handle | supabase/functions/strava-webhook/index.ts:237-298 | GET answers the handshake; every POST gets 200 "OK", even a malformed one; other methods get 405; a request that is not a POST with an activity or athlete event leaves all six tables as they were; an activity event changes users and runs as `ActivityEvent` does and keeps the conversations, messages and pending replies; an athlete deauthorization deletes the user with what references it unless the delete errs, and any other athlete event keeps every table |
| WebhookSetup.ReadStored | supabase/functions/strava-webhook-setup/index.ts:115-127 | a read error other than "no rows" is an error; otherwise the stored id, absent when there is no row |
| WebhookSetup.Present | supabase/functions/strava-webhook-setup/index.ts:145 | an id counts as present only when one is stored, and the id 0 is falsy and does not |
| WebhookSetup.Create | supabase/functions/strava-webhook-setup/index.ts:138-174 | a failed read is 500 with no call; an existing id is returned with 200 and no call; otherwise exactly one create call, 200 iff the provider returned an id and the store went through, and then that id is stored and returned; on any failure the stored id stays and none is returned |
| WebhookSetup.View | supabase/functions/strava-webhook-setup/index.ts:176-194 | one listing call; 200 iff the listing and the read went through; nothing stored changes |
| WebhookSetup.Delete | supabase/functions/strava-webhook-setup/index.ts:196-238 | a failed read is 500 with no call; 404 with no call when no id is stored; otherwise the provider delete of that id comes first, and the row goes only then; a 200 with a local delete that went through leaves no id; a failed local delete keeps it; no id is returned |
| WebhookSetup.Setup | supabase/functions/strava-webhook-setup/index.ts:129-250 | an unknown action is 400; the wrong method for an action is 405 with no call and no change |
| WebhookSetup.CreateTwice | supabase/functions/strava-webhook-setup/index.ts:144-162 | after a successful create, a second create makes no call and returns the same id |
| WebhookSetup.CreateTwiceOneSubscription | supabase/functions/strava-webhook-setup/index.ts:144-162 | over two creates, at most one provider subscription is made |
| WebhookSetup.DeleteLocalFailureKeepsId | supabase/functions/strava-webhook-setup/index.ts:214-237 | a failed local delete is only logged: the answer is still 200 and the stale id stays |
| WebhookSetup.HandleSetup | supabase/functions/strava-webhook-setup/index.ts:101-250 | the handler on the store: its status, calls and reply follow `Setup`, which gives the new stored id of row 1 |
| Pages.WithError | supabase/functions/strava-callback/index.ts:79-81 | the error page, then `?error=`, then a value that decodes back to the message and holds no `&` or `#` |
| Pages.WithErrorInjective | supabase/functions/preferences-confirm-pause/index.ts:54-58 | two error redirects to one page differ whenever their messages differ |
| StravaCallback.Precheck | supabase/functions/strava-callback/index.ts:74-115 | a truthy `error` is passed on as it stands; otherwise a missing code or state is refused with the missing-parameters message, and then a state that is not an email with the invalid-email message; the exchange goes ahead exactly when none of these applies |
| StravaCallback.ExchangeError | supabase/functions/strava-callback/index.ts:129-155 | a rejected exchange throws with its body text; an accepted one throws "Invalid token response from Strava" iff the access token, refresh token or expiry is falsy, and otherwise "Invalid time value" iff `expires_at * 1000` ms is beyond the range of a `Date` |
| StravaCallback.DetectTimezone | supabase/functions/strava-callback/index.ts:15-62 | a zone only from a first activity with a truthy label that the pattern matches, and then the non-empty capture |
| StravaCallback.CallbackTimezone | supabase/functions/strava-callback/index.ts:159-175 | the detected zone, else `"UTC"` |
| StravaCallback.Linked | supabase/functions/strava-callback/index.ts:155-207 | the credentials with the expiry in ms, the first name as given, the timezone and `is_active` set; the email, frequency, plan and creation time are kept |
| StravaCallback.LinkUser | supabase/functions/strava-callback/index.ts:178-208 | the one user with the email gets the linked row, and every other user stays |
| StravaCallback.HandleCallback | supabase/functions/strava-callback/index.ts:66-237 | the code is exchanged iff the precheck passes; each failure redirects to the error page with its message and changes nothing; otherwise only the user with the state's email is linked and the reply is the success page |
| PreferenceConfirm.FindToken | supabase/functions/preferences-confirm-pause/index.ts:34-47 | the token's row is found iff it exists, is for this action, is unused and its user exists |
| PreferenceConfirm.Accept | supabase/functions/preferences-confirm-pause/index.ts:16-76 | accepted iff the token is truthy, the query went through and found the row, and the expiry has not passed; a falsy token is refused as missing, a failed or empty lookup as invalid, and a found token past its expiry as expired |
| PreferenceConfirm.MarkUsed | supabase/functions/preferences-confirm-pause/index.ts:79-85 | only the token's own row changes, and it becomes used |
| PreferenceConfirm.ConsumedTokenRefused | supabase/functions/preferences-confirm-pause/index.ts:34-85 | once accepted and marked used, a token is refused ever after |
| PreferenceConfirm.ExpiryIsStrict | supabase/functions/preferences-confirm-pause/index.ts:64-66 | a token is accepted at its expiry and refused as expired one ms later |
| PreferenceConfirm.ActionIsBound | supabase/functions/preferences-confirm-pause/index.ts:45 | a token accepted for one action is refused for any other |
| PreferenceConfirm.Expired | supabase/functions/preferences-confirm-pause/index.ts:64-66 | a token is expired exactly when its expiry is before now |
| PreferenceConfirm.Location | supabase/functions/preferences-confirm-pause/index.ts:51-60 | every reply but the 405 is a redirect; an error redirect goes to the preferences error page with its message |
| PreferenceConfirm.ConfirmPause | supabase/functions/preferences-confirm-pause/index.ts:7-129 | non-GET is 405 with nothing changed; a refused token or a failed mark changes nothing; after the mark the token stays used even when the user update fails; success deactivates exactly the token's user |
| PreferenceConfirm.ConfirmDisconnect | supabase/functions/preferences-confirm-disconnect/index.ts:7-144 | as for pause up to the mark; then the provider is told to deauthorize iff an access token is stored, and the user is deleted with its runs, tokens, conversations and messages, and the pending replies to those messages, unless the delete errs |
| Frequency.Insert | supabase/functions/preferences-update-frequency/index.ts:108 | inserting keeps every element and adds exactly the new one |
| Frequency.Sort | supabase/functions/preferences-update-frequency/index.ts:108 | `.sort()` gives a permutation of its input |
| Frequency.SortSorted | supabase/functions/preferences-update-frequency/index.ts:108 | the result is in the default string order of `.sort()` |
| Frequency.SortDistinct | supabase/functions/preferences-update-frequency/index.ts:108 | sorting keeps a list free of duplicates |
| Frequency.SortOfSorted | supabase/functions/preferences-update-frequency/index.ts:108 | a sorted list sorts to itself |
| Frequency.Dedupe | supabase/functions/preferences-update-frequency/index.ts:108 | `[...new Set(days)]` keeps the same elements, each once |
| Frequency.DedupeDistinct | supabase/functions/preferences-update-frequency/index.ts:108 | a list without duplicates is kept as it is |
| Frequency.SortedDistinctUnique | supabase/functions/preferences-update-frequency/index.ts:108 | two sorted lists without duplicates and with the same elements are equal |
| Frequency.Clean | supabase/functions/preferences-update-frequency/index.ts:85-86 | no name left after trimming and lowering is empty |
| Frequency.InvalidDays | supabase/functions/preferences-update-frequency/index.ts:89-91 | exactly the names that are not among the seven days |
| Frequency.Normalize | supabase/functions/preferences-update-frequency/index.ts:78-110 | `"daily"` is kept; otherwise it is rejected iff some cleaned name is not a day, and the rejection lists exactly those names |
| Frequency.NormalizedDays | supabase/functions/preferences-update-frequency/index.ts:83-109 | an accepted day list is stored as its distinct days, sorted and joined by commas, and every one is a valid day |
| Frequency.DayNamesOfEmpty | supabase/functions/preferences-update-frequency/index.ts:83-86 | the empty list of days is read back from the empty string |
| Frequency.JoinNotDaily | supabase/functions/preferences-update-frequency/index.ts:79-109 | a stored day list can never be confused with `"daily"` |
| Frequency.DayNamesOfJoin | supabase/functions/preferences-update-frequency/index.ts:83-109 | splitting and cleaning a joined list of valid days gives the list back |
| Frequency.NoInvalidDays | supabase/functions/preferences-update-frequency/index.ts:89-92 | a list of valid days has no invalid name |
| Frequency.DayNames | supabase/functions/preferences-update-frequency/index.ts:83-86 | the pieces of the comma split, trimmed and lowered, with the empty ones dropped: none is empty and there are no more than pieces |
| Frequency.NormalizeOfJoin | supabase/functions/preferences-update-frequency/index.ts:78-110 | a sorted, duplicate-free list of valid days, joined, is accepted as it stands |
| Frequency.NormalizeIdempotent | supabase/functions/preferences-update-frequency/index.ts:78-110 | resubmitting a stored frequency stores the same value |
| Frequency.OnlySeparators | supabase/functions/preferences-update-frequency/index.ts:83-109 | a frequency of only commas and blanks is accepted and stored as the empty string |
| Frequency.SplitAll | supabase/functions/preferences-update-frequency/index.ts:83-86 | such a string names no day |
| Frequency.BlankTrims | supabase/functions/preferences-update-frequency/index.ts:85-86 | a blank piece is dropped |
| Frequency.DailyOnlyExact | supabase/functions/preferences-update-frequency/index.ts:79-92 | `"Daily"` or `" daily"` is not the keyword and is rejected as the invalid day `daily` |
| Frequency.Validate | supabase/functions/preferences-update-frequency/index.ts:21-110 | OPTIONS is answered "ok"; other non-POST methods get 405; a POST without a JSON body is 500 "Internal server error"; the request goes to the database iff the email is present and well formed and the frequency is present and normalises; otherwise a 400 whose message is, in that order, "Missing email parameter", "Invalid email format", "Missing frequency parameter" or "Invalid day names: " and the invalid names joined by ", " |
| Frequency.UpdateFrequency | supabase/functions/preferences-update-frequency/index.ts:18-187 | a refused request, an unknown email or a failed update changes nothing; otherwise exactly that user's frequency becomes the normalised value |
| PreferenceRequests.Validate | supabase/functions/preferences-resume/index.ts:12-39 | non-POST is 405; a body that is not JSON is 500; it goes on iff the email (and, for resume, the name) is truthy and the email is well formed; every other refusal is a 400: "Missing required parameters" for resume without a name or email, "Missing email parameter" for the others without an email, and the email-format one exactly when the required fields are present |
| PreferenceRequests.DisplayName | supabase/functions/preferences-pause/index.ts:67 | `name \|\| user.name \|\| "there"`: never empty, the first truthy of the three |
| PreferenceRequests.NamesMatchIgnoresCase | supabase/functions/preferences-resume/index.ts:67 | a name matches its own lower-cased form both ways, the match is symmetric, and a missing stored name never matches |
| PreferenceRequests.ConfirmationUrlCarriesToken | supabase/functions/preferences-pause/index.ts:95-96 | two confirmation links to the same page are equal only for equal tokens |
| PreferenceRequests.PauseDecision | supabase/functions/preferences-pause/index.ts:12-67 | a refused request keeps its reply; an unknown email or a failed lookup is 404; otherwise a token is issued for the found user, greeted by the display name |
| PreferenceRequests.ResumeDecision | supabase/functions/preferences-resume/index.ts:12-79 | as for pause, with its own 404 text, and a token only when the stored name matches the given one up to case, otherwise 400 "Name does not match" |
| PreferenceRequests.TokenRow | supabase/functions/preferences-pause/index.ts:73-79 | the row is for the user and the action, unused, with the expiry the table gives it |
| PreferenceRequests.IssuedTokenConfirms | supabase/functions/preferences-pause/index.ts:73-79 | a stored token is accepted by its own confirmation until it expires, and refused by any other |
| PreferenceRequests.IssueToken | supabase/functions/preferences-pause/index.ts:70-129 | nothing is stored or mailed for a refusal or a failed insert; otherwise exactly the new token row is added and its link is mailed to the requester; the reply is 500 iff the send throws |
| PreferenceRequests.RequestPause | supabase/functions/preferences-pause/index.ts:10-137 | `IssueToken` for the pause decision, with the pause action, page and subject |
| PreferenceRequests.RequestResume | supabase/functions/preferences-resume/index.ts:10-149 | `IssueToken` for the resume decision, with the resume action, page and subject |
| PreferenceRequests.NotificationLines | supabase/functions/preferences-request-data/index.ts:76-79 | the user's display name and email, timezone (`null` printed as such), creation time, and `Active: Yes` or `No` |
| PreferenceRequests.ActiveLine | supabase/functions/preferences-request-data/index.ts:79 | the notification says `Active: Yes` exactly for an active user |
| PreferenceRequests.RequestData | supabase/functions/preferences-request-data/index.ts:11-140 | refusals mail nothing; for a known user the notification to the assistance address goes first, then the acknowledgement to the requester unless the first send threw; 200 only when neither throws |
| PreferenceRequests.DataRequestMailsKnownUsersOnly | supabase/functions/preferences-request-data/index.ts:48-95 | mail goes out iff the request is valid and its email belongs to a user found without error, and the first mail is the notification |
| Inbound.ParseBody | supabase/functions/inbound/index.ts:10-18 | an empty text is `null`, JSON text its value, other text the text itself |
| Inbound.Accepts | supabase/functions/inbound/index.ts:79 | a mail is refused exactly when it has no sender, or neither a subject nor a body |
| Inbound.RawTextIsTruthy | supabase/functions/inbound/index.ts:10-18 | a body that is not JSON counts as present exactly when it is non-empty |
| Inbound.CreateResult | supabase/functions/inbound/index.ts:49-52 | a falsy body throws; an array gives its first element (none when empty); any other value is returned as it is |
| Inbound.CreateOfRepresentation | supabase/functions/inbound/index.ts:49-52 | an empty body throws; the one-row representation gives that row |
| Inbound.IdChecksDiffer | supabase/functions/inbound/index.ts:97-115 | an id `0` is refused for a created user and accepted for a created conversation |
| Inbound.EqFilter | supabase/functions/inbound/index.ts:87 | the filter is `column=eq.` then the encoded value, which decodes back to the value |
| Inbound.ConversationsOf | supabase/functions/inbound/index.ts:103-107 | exactly the conversations whose user is the given one |
| Inbound.FindOrCreateUser | supabase/functions/inbound/index.ts:85-101 | the sender's existing user, and no write; or, when there is none, exactly one new user row with that email; a failed lookup or create writes nothing |
| Inbound.FindOrCreateConversation | supabase/functions/inbound/index.ts:103-119 | one of the user's conversations, and no write; or a new one for the user when there is none |
| Inbound.FileMessage | supabase/functions/inbound/index.ts:121-136 | the inbound message is stored, then its pending reply, then the conversation's timestamp; 200 iff all three went through; each failure keeps what was written before it |
| Inbound.Receive | supabase/functions/inbound/index.ts:71-155 | non-POST is 405, a non-JSON body 500, a mail with no sender or with neither subject nor body 400, all with no write; otherwise the user, the conversation, the message and the pending reply in that order, stopping at the first failure with 500 |
| OutboundReply.AuthorizeUrl | supabase/functions/outbound-reply/index.ts:53-58 | the link starts with the client id, `response_type=code`, the encoded callback and the scopes, and its `state` value runs to the end, holds no delimiter, and decodes back to the sender's email |
| OutboundReply.AuthorizeUrlInjective | supabase/functions/outbound-reply/index.ts:56-58 | two senders get the same link only when they have the same email |
| OutboundReply.ReplyMail | supabase/functions/outbound-reply/index.ts:60-100 | "Got it" to the sender: the authorize link for a user who is not active yet, otherwise the greeting with `name \|\| "mate"` and the preferences link carrying the name (`null` when unset) and the email |
| OutboundReply.IsNewUser | supabase/functions/outbound-reply/index.ts:47-48 | a user is new exactly when it is not active |
| OutboundReply.NotificationMail | supabase/functions/outbound-reply/index.ts:131-145 | to the assistance address, subject `New reply from` the name or else the email; five fields: the name or "No name", the email, then for a message found its id, its subject or "No subject" and its body or "No content", and for none "undefined", "No subject" and "No content" |
| OutboundReply.Process | supabase/functions/outbound-reply/index.ts:31-150 | a failed or empty user lookup sends nothing; otherwise the reply goes first; otherwise the reply goes first, and at most one more mail follows, to the assistant and only for an active user; `sent` is set iff the reply was sent and the update did not err |
| OutboundReply.ProcessNotifies | supabase/functions/outbound-reply/index.ts:95-145 | a found user whose reply throws, or who is not active yet, gets that one mail; an active user whose reply went through gets exactly two, the second the notification with the message row the query found, or none |
| OutboundReply.Delivered | supabase/functions/outbound-reply/index.ts:34-105 | a reply is delivered only when the user query went through and found the sender, the send did not throw and the update did not err |
| OutboundReply.SentOnlyAfterSend | supabase/functions/outbound-reply/index.ts:95-113 | a failed lookup, a send that throws or a failed update leaves the reply pending; the assistant is never told about a new user |
| OutboundReply.Unsent | supabase/functions/outbound-reply/index.ts:18-19 | exactly the pending replies whose `sent` is false |
| OutboundReply.AfterRun | supabase/functions/outbound-reply/index.ts:30-151 | the same replies; exactly the handled ones that were delivered become sent |
| OutboundReply.AfterRunOnlySets | supabase/functions/outbound-reply/index.ts:103-105 | a run never clears `sent`, keeps the email and message of every reply, and a reply it could not deliver is picked up by the next run |
| OutboundReply.HandleExtends | supabase/functions/outbound-reply/index.ts:30 | handling one more reply appends its mails |
| OutboundReply.AfterRunStep | supabase/functions/outbound-reply/index.ts:103-105 | handling one more reply changes at most its own row |
| OutboundReply.HandleOne | supabase/functions/outbound-reply/index.ts:31-150 | the loop body on the store: the reply joins the order, its mails are appended, and its `sent` follows `AfterRun` |
| OutboundReply.HandleAll | supabase/functions/outbound-reply/index.ts:30-151 | every unsent reply is handled once, the mails are theirs in that order, and the table is `AfterRun` of them |
| OutboundReply.Run | supabase/functions/outbound-reply/index.ts:12-155 | a failed fetch is 500 with nothing sent or changed; otherwise every unsent reply is handled once, whatever happened to the others, the mails are theirs in that order, the table is `AfterRun` of them, and the answer is 200 |
| MorningReview.MorningHours | supabase/functions/outbound-morning-review/index.ts:54-73 | of the hours 0 to 23, exactly 3, 4 and 5 count as morning |
| MorningReview.LocalHour | supabase/functions/outbound-morning-review/index.ts:51-68 | the hour in the zone when one is set, otherwise the host's own hour |
| MorningReview.DatePart | supabase/functions/outbound-morning-review/index.ts:38 | `split("T")[0]`: the prefix of the text up to its first `T`, holding no `T` |
| MorningReview.YesterdayIgnoresTime | supabase/functions/outbound-morning-review/index.ts:8-47 | for a run with a zone, whatever follows the `T` is ignored: it is from yesterday iff its date is yesterday's date in its own zone |
| MorningReview.YesterdayRuns | supabase/functions/outbound-morning-review/index.ts:195-197 | exactly the recent runs from yesterday, and no more of them |
| MorningReview.EffectiveTimezone | supabase/functions/outbound-morning-review/index.ts:167-169 | the newest run's zone when it is truthy, otherwise the profile's |
| MorningReview.Shown | supabase/functions/outbound-morning-review/index.ts:210-212 | `?? "?"`: a present metric as it prints, a missing one as `?` |
| MorningReview.DaysAgo | supabase/functions/outbound-morning-review/index.ts:217-220 | `Math.floor` of the elapsed ms over a day: the whole days elapsed, rounded down even before the epoch, and none for an unparseable start |
| MorningReview.IsMorning | supabase/functions/outbound-morning-review/index.ts:51-58 | the morning window is exactly the hours 3, 4 and 5 |
| MorningReview.IsRunFromYesterday | supabase/functions/outbound-morning-review/index.ts:7-47 | a run is from yesterday exactly when it has a start and a zone and its start date is yesterday's date in that zone |
| MorningReview.DayLabelInjective | supabase/functions/outbound-morning-review/index.ts:221-225 | `today`, `yesterday`, `N days ago` and `NaN days ago` name different day counts |
| MorningReview.DayLabel | supabase/functions/outbound-morning-review/index.ts:221-225 | `today` exactly for 0 days, `yesterday` exactly for 1, and `NaN days ago` for an unparseable start |
| MorningReview.RecentLine | supabase/functions/outbound-morning-review/index.ts:215-228 | a recent run's line for the model's context starts with its day label and `: ` |
| MorningReview.MissingMetricShown | supabase/functions/outbound-morning-review/index.ts:210 | a run with no distance starts its line with `?` |
| MorningReview.PickIndex | supabase/functions/outbound-morning-review/index.ts:341-343 | `Math.floor(Math.random() * n)`: always a valid index, the floor of the draw times `n` |
| MorningReview.Advice | supabase/functions/outbound-morning-review/index.ts:320-321 | the model's content trimmed, even when that leaves it empty; the greeting fallback only when there is no content |
| MorningReview.Greeted | supabase/functions/outbound-morning-review/index.ts:321 | `name \|\| "mate"` |
| MorningReview.YesterdaySection | supabase/functions/outbound-morning-review/index.ts:323-349 | the advice first; the yesterday header and the bullet list of runs present iff there are runs from yesterday; then the coming-up lines and the three drawn lines, 14 lines or 10 |
| MorningReview.Lines | supabase/functions/outbound-morning-review/index.ts:322-349 | at least ten lines: the advice, a blank, and closing with a drawn reach-out, a drawn sign-off and a drawn name |
| MorningReview.WindowBeforePlan | supabase/functions/outbound-morning-review/index.ts:179-207 | with every zone accepted, outside the window the user is skipped whether or not a plan exists; inside it, or under the test header, a user without a plan is skipped for that |
| MorningReview.MailedOnlyWhenDue | supabase/functions/outbound-morning-review/index.ts:158-362 | a mail goes out only after the runs query went through, inside the window or under the header, to a user with a plan, with no model failure and every time zone accepted; it goes to the user's address with a drawn subject, and it counts iff the send returned |
| MorningReview.UserTurn | supabase/functions/outbound-morning-review/index.ts:158-362 | an unknown truthy profile zone throws; a failed runs query skips; outside the window is `NotMorning`, and no plan is `NoPlan`; a throw comes only from the model or a zone the formatter refuses; a mail goes to the user's address with a subject from the list and the advice, yesterday's runs and the drawn lines joined by newlines, and it counts iff the send returned |
| MorningReview.NullZoneThrows | supabase/functions/outbound-morning-review/index.ts:243-246 | a due user with no zone on the profile nor on the newest run gets no mail: formatting today's date in the zone `null` throws |
| MorningReview.TallyOf | supabase/functions/outbound-morning-review/index.ts:362-365 | the count of sends never exceeds the mails handed over |
| MorningReview.TallyWithoutThrow | supabase/functions/outbound-morning-review/index.ts:351-365 | when no turn throws, the mails are those of the mailed turns and the count is their deliveries |
| MorningReview.TallyStaysThrown | supabase/functions/outbound-morning-review/index.ts:297-390 | once the model call throws, no later user gets a turn |
| MorningReview.Turns | supabase/functions/outbound-morning-review/index.ts:138-366 | one turn per user, each that user's own |
| MorningReview.Review | supabase/functions/outbound-morning-review/index.ts:109-391 | a failed users query is 500 and no user is `No users`, with no mail; otherwise the users' turns in order, stopping at a model failure with 500, and `{ sent }` counts the sends that returned; only the exact header value `true` lifts the window |
| MorningReview.ReviewCountsDeliveries | supabase/functions/outbound-morning-review/index.ts:362-370 | when the model never throws, the reply counts exactly the sends that returned and every due user's mail is handed over |
| Tables.WithEmail | supabase/functions/strava-callback/index.ts:178-182 | exactly the users whose email is the given one |
| Tables.FindUser | supabase/functions/preferences-pause/index.ts:47-64 | `.eq("email", …).single()`: a user iff the query did not err and some user has the email, and then the only one |
| Tables.UpsertBatch | supabase/functions/strava-sync/index.ts:188-191 | refused iff two rows share a strava id; otherwise every row lands under its strava id, the other rows are kept, and nothing else is added |
| Tables.PutAll | supabase/functions/strava-sync/index.ts:188-191 | the rows of a batch without duplicates replace or join the table, and the others stay |
| Tables.UpsertKeepsKeyed | supabase/functions/strava-sync/index.ts:190 | an upsert keeps the table keyed by strava id |
| Tables.UpsertBatchIdempotent | supabase/functions/strava-webhook/index.ts:186-199 | repeating a batch leaves the table as the first upsert left it |
| Tables.DeleteRun | supabase/functions/strava-webhook/index.ts:144-147 | every run with that strava id goes, and every other row stays as it was |
| Tables.DeleteRunKeyed | supabase/functions/strava-webhook/index.ts:144-147 | in a table keyed by strava id that removes one key, or none when it is absent |
| Tables.Without | supabase/functions/preferences-confirm-disconnect/index.ts:116-120 | exactly the rows of a table whose owner is another user, unchanged |
| Tables.RepliesWithout | supabase/functions/preferences-confirm-disconnect/index.ts:116-120 | exactly the pending replies that do not point to a message of the user, unchanged |
| Tables.UpsertOne | supabase/functions/strava-webhook/index.ts:186-199 | a single-row upsert goes through and puts the row under its strava id |
| Tables.NewUser | supabase/functions/inbound/index.ts:94-96 | a user row with only the email: inactive, no name, zone, tokens, frequency or plan |
| Tables.Store.constructor | supabase/functions/strava-sync/index.ts:5-8 | an empty database |
| Tables.Store.UpsertRuns | supabase/functions/strava-sync/index.ts:188-191 | the runs become `UpsertBatch` of them, or stay when it is refused |
| Tables.Store.DeleteUserCascade | supabase/functions/preferences-confirm-disconnect/index.ts:116-120 | the user goes, with its runs, tokens, conversations and messages, and the pending replies to those messages; every other row stays as it was |
| Tables.Store.MarkTokenUsed | supabase/functions/preferences-confirm-pause/index.ts:79-85 | only that token's `used` becomes true |
| Tables.Store.CreateUser | supabase/functions/inbound/index.ts:94-100 | the row is added under the new id iff the id is new and non-empty and the email is no one's; otherwise nothing changes |
| Tables.Store.CreateConversation | supabase/functions/inbound/index.ts:112-118 | the row is added under the next serial id, which was unused |
| Tables.Store.CreateMessage | supabase/functions/inbound/index.ts:121-126 | the row is added under the next serial id, which was unused |
| Tables.Store.CreatePendingReply | supabase/functions/inbound/index.ts:129-132 | the row is added under the next serial id, which was unused |
| Tables.Store.TouchConversation | supabase/functions/inbound/index.ts:134-136 | only that conversation's timestamp changes, and nothing when it does not exist |
| Tables.Store.MarkReplySent | supabase/functions/outbound-reply/index.ts:103-105 | only that reply's `sent` becomes true, and nothing when it does not exist |
| Tables.Store.UpdateUser | supabase/functions/strava-callback/index.ts:198-208 | only that user's row changes |
| Tables.CascadeLeavesNothing | supabase/functions/preferences-confirm-disconnect/index.ts:116 | after the cascade no run of the user is left and every one of another user is kept; no pending reply left points to a deleted message, and the replies to another user's messages are kept |
| Text.TrimStart | supabase/functions/preferences-update-frequency/index.ts:85 | the suffix left after dropping the leading white space, and it does not start with white space |
| Text.TrimEnd | supabase/functions/preferences-update-frequency/index.ts:85 | the prefix left after dropping the trailing white space, and it does not end with white space |
| Text.TrimNoSpace | supabase/functions/preferences-update-frequency/index.ts:85 | text without white space trims to itself |
| Text.Lower | supabase/functions/preferences-update-frequency/index.ts:85 | `toLowerCase` character by character (ASCII letters), same length |
| Text.LowerKeepsLowerCase | supabase/functions/preferences-resume/index.ts:67 | lowering gives lower-case text, and lower-case text is kept |
| Text.IndexOf | supabase/functions/preferences-update-frequency/index.ts:84 | the first position of the character |
| Text.Split | supabase/functions/preferences-update-frequency/index.ts:84 | `split(",")`: at least one piece, and no piece holds the separator |
| Text.JoinSplit | supabase/functions/preferences-update-frequency/index.ts:84-109 | joining the pieces with the separator gives the text back |
| Text.SplitJoin | supabase/functions/preferences-update-frequency/index.ts:84-109 | splitting a join of pieces without the separator gives the pieces back |
| Text.JoinHasSeparator | supabase/functions/preferences-update-frequency/index.ts:109 | a join of two or more pieces holds the separator |
| Text.NatToString | supabase/functions/strava-sync/index.ts:48 | the decimal text of a number: digits only, no leading zero |
| Text.NatToStringInjective | supabase/functions/strava-sync/index.ts:48 | different numbers have different decimal texts |
| Uri.Utf8RoundTrip | supabase/functions/strava-callback/index.ts:79-81 | UTF-8 decoding gives back the encoded text |
| Uri.PercentRoundTrip | supabase/functions/strava-callback/index.ts:79-81 | percent-decoding gives back the percent-encoded bytes |
| Uri.EncodeURIComponentRoundTrip | supabase/functions/strava-callback/index.ts:79-81 | `decodeURIComponent(encodeURIComponent(s))` is `s` |
| Uri.EncodeURIComponent | supabase/functions/strava-callback/index.ts:79-81 | the encoding is empty exactly when the text is |
| Uri.EncodedHasNoDelimiter | supabase/functions/outbound-reply/index.ts:56-58 | an encoded value holds no `&`, `=`, `#` or `+` |
| Uri.EncodeUnreserved | supabase/functions/outbound-reply/index.ts:57 | text of unreserved characters is encoded as itself |
| EmailShape.IsEmailIffMatches | supabase/functions/strava-callback/index.ts:104-105 | the one-pass test accepts exactly the strings `/^[^\s@]+@[^\s@]+\.[^\s@]+$/` matches |
| EmailShape.IsEmail | supabase/functions/strava-callback/index.ts:104-105 | an accepted string ends with a character that is neither white space nor `@` |
| EmailShape.IsEmailSplits | supabase/functions/strava-callback/index.ts:104 | an accepted string splits into the three groups around its `@` and a `.` |
| EmailShape.SplitIsEmail | supabase/functions/strava-callback/index.ts:104 | a string that splits that way is accepted |
| EmailShape.IsEmailBasics | supabase/functions/strava-callback/index.ts:104 | an accepted string has at least five characters, exactly one `@`, and no white space |

## Left out

- The network and the services behind it are not modelled: the Strava API, the Resend mail service, the DeepSeek chat endpoint, and Supabase's REST layer. Their replies and errors are parameters of each handler, and what a handler sends is one of its results.
- `Intl.DateTimeFormat` and `Date` parsing are not modelled. The local hour, the local calendar dates and the start time of an activity in milliseconds are inputs, because the time-zone database is not part of this model. Which zone names the formatter accepts is an input too (`Clock.knownZone`). The empty name and `null`, which the formatter reads as the name "null", are always refused, and a refused zone throws.
- The foreign keys behind the disconnect cascade are not in the repository, so the model assumes them: deleting a user deletes its runs, tokens, conversations and messages, and deleting a message deletes the pending replies to it. A pending reply to another user's message is kept.
- The morning review's runs query is not modelled: `getDaysAgoInTimezone`, the fourteen-day window and the ordering by start date. The rows the query returns are an input.
- IEEE-754 arithmetic is not modelled. Distances, times and paces are exact reals. JavaScript's number-to-text conversion is left out too, so the morning review carries a metric as the text the runtime would print.
- `Math.random` is not modelled: each draw is a real in [0, 1) given as a parameter. `crypto.randomUUID` is also a parameter.
- The text of prompts and e-mail templates is left out, except for the fields the model states (greeting name, links, subject lines). The `from` addresses are not modelled.
- Concurrency between invocations is left out. Each handler runs alone against the store, so races, for example two syncs upserting the same activity at once, are not modelled.
- `outbound-manual`, `outbound-manual-email`, the `workers/email-to-supabase` worker and the shared CORS headers are outside the modelled core.
- The outer `catch` of the two confirmation handlers is not modelled. It turns an unexpected exception into the message "An unexpected error occurred", and no modelled step throws.
- The inner `catch` around the timezone lookup of `strava-callback` is folded into the failed-listing case of `StravaCallback.DetectTimezone`.
- JSON bodies whose fields are not strings (numbers or objects where text is expected) are not modelled. Every JSON field is an `Option<string>`.
- TokenRefresh.Refresh: a 2xx refresh reply is taken to carry the access and refresh tokens as text. A reply without them, which the source would store partly and whose `undefined` access token it would return, is not modelled.
- A token's `expires_at` read as the database default is a parameter of the preference requests, not a clock reading.
- `preferences-confirm-resume`, the target of the resume link, is not part of this model.
- Text.Lower: lowercases ASCII letters only, where `toLowerCase` maps all of Unicode. Every comparison the model makes through it (names, e-mail addresses, day names) is stated on this ASCII mapping.
- Activity.ParseFloat: skips leading white space, then reads the longest prefix made of an optional sign, digits, an optional fraction and an optional decimal exponent, as `parseFloat` does. It does not read `Infinity` or `-Infinity`. Its contract fixes the value for decimal numerals and for text with leading blanks, not for every input it accepts.
- Activity.Round: `Math.round` on exact reals, with halves rounded upward. NaN and the infinities are not values of the model, and the rounding of binary floating point before the call is not modelled.
