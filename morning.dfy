/**
 * `outbound-morning-review`: the daily job that e-mails every active user a short
 * check-in before their morning run. Per user it fetches the runs of the last 14 days
 * (newest first), picks the timezone to judge the hour in, skips the user outside the
 * 3-6 a.m. window or without a training plan, asks the language model for advice and
 * sends the message. The clock, the timezone conversions, the model and the random
 * picks are inputs.
 */
module MorningReview {
  import opened Common
  import opened Text
  import opened Tables

  const DATE_RANGE := 14
  const MS_PER_DAY := 86400000

  // ---------------------------------------------------------------- the window

  /** `isMorningInTimezone`, given the local hour: from 3:00 up to, not including, 6:00. */
  function IsMorning(hour: int): (b: bool)
    ensures b <==> hour in {3, 4, 5}
  {
    hour >= 3 && hour < 6
  }

  /** The window is three whole hours of the day: 3, 4 and 5. */
  lemma MorningHours(hour: int)
    requires 0 <= hour < 24
    ensures IsMorning(hour) <==> hour in {3, 4, 5}
  {
  }

  /** The clock as the job sees it: `hourIn(z)` and `yesterdayIn(z)` are the hour and the
      `YYYY-MM-DD` date of yesterday in the IANA zone `z`; `hostHour` is the hour of the
      host, used when no zone is known; `knownZone(z)` says whether `z` names a zone of the
      time-zone database. */
  datatype Clock = Clock(nowMs: int, hostHour: int, hourIn: string -> int, yesterdayIn: string -> string,
                         knownZone: string -> bool)

  /** `new Intl.DateTimeFormat(…, { timeZone: zone })` does not throw: the zone is a known
      one. A `null` zone is read as the text "null" and, like the empty text, is refused
      with a `RangeError`. */
  predicate ZoneAccepted(clock: Clock, zone: Option<string>) {
    zone.Some? && zone.value != "" && clock.knownZone(zone.value)
  }

  /** A formatter that is built only for a truthy zone (the others fall back to the host's
      clock) throws: the zone is truthy and not known. */
  predicate TruthyUnknown(clock: Clock, zone: Option<string>) {
    Truthy(zone) && !ZoneAccepted(clock, zone)
  }

  /** The hour `isMorningInTimezone` looks at: the host's when the zone is falsy. */
  function LocalHour(clock: Clock, zone: Option<string>): (h: int)
    ensures Truthy(zone) ==> h == clock.hourIn(zone.value)
    ensures !Truthy(zone) ==> h == clock.hostHour
  {
    if Truthy(zone) then clock.hourIn(zone.value) else clock.hostHour
  }

  // ---------------------------------------------------------------- runs of yesterday

  /** A row of the recent-runs query. The metrics are carried as the text JavaScript
      prints for them; `startMs` is `new Date(start_date_local)`, `None` when that is
      not a valid date. */
  datatype RecentRun = RecentRun(
    startDateLocal: Option<string>,
    timezone: Option<string>,
    startMs: Option<int>,
    distanceKm: Option<string>,
    durationMin: Option<string>,
    paceMinKm: Option<string>)

  /** `s.split("T")[0]`: the text before the first `T`, or all of `s`. */
  function DatePart(s: string): (r: string)
    ensures r <= s && 'T' !in r
    ensures |r| < |s| ==> s[|r|] == 'T'
  {
    if 'T' !in s then s
    else
      assert Split(s, 'T')[0] == s[..IndexOf(s, 'T')];
      Split(s, 'T')[0]
  }

  /** `isRunFromYesterday`: a run without a start or a zone is never from yesterday;
      otherwise its local date is compared with yesterday's date in the run's own zone. */
  function IsRunFromYesterday(run: RecentRun, clock: Clock): (b: bool)
    ensures b <==> && Truthy(run.startDateLocal) && Truthy(run.timezone)
                   && DatePart(run.startDateLocal.value) == clock.yesterdayIn(run.timezone.value)
  {
    if !Truthy(run.startDateLocal) || !Truthy(run.timezone) then false
    else DatePart(run.startDateLocal.value) == clock.yesterdayIn(run.timezone.value)
  }

  /** Only the date part of the start decides: the time of day after the `T` never does. */
  lemma YesterdayIgnoresTime(run: RecentRun, clock: Clock, date: string, time: string)
    requires 'T' !in date && Truthy(run.timezone) && run.startDateLocal == Some(date + "T" + time)
    ensures IsRunFromYesterday(run, clock) <==> date == clock.yesterdayIn(run.timezone.value)
  {
    var s := date + "T" + time;
    assert s[..|date|] == date && s[|date|] == 'T';
    FirstIndex(s, 'T', |date|);
  }

  /** The first occurrence is the one with none before it. */
  lemma {:induction false} FirstIndex(s: string, c: char, j: nat)
    requires j < |s| && s[j] == c && c !in s[..j]
    ensures IndexOf(s, c) == j
    decreases j
  {
    if j > 0 {
      assert s[0] in s[..j];
      assert s[1..][..j - 1] == s[1..j];
      assert forall x :: x in s[1..j] ==> x in s[..j];
      FirstIndex(s[1..], c, j - 1);
    }
  }

  /** `recentRuns.filter(isRunFromYesterday)` throws: some run has a start, so that its
      formatter is built, with a zone the formatter refuses. */
  predicate FilterThrows(runs: seq<RecentRun>, clock: Clock) {
    exists i :: 0 <= i < |runs| && Truthy(runs[i].startDateLocal) && TruthyUnknown(clock, runs[i].timezone)
  }

  /** `recentRuns.filter(isRunFromYesterday)`, when it does not throw. */
  function YesterdayRuns(runs: seq<RecentRun>, clock: Clock): (r: seq<RecentRun>)
    ensures |r| <= |runs|
    ensures forall x :: x in r <==> x in runs && IsRunFromYesterday(x, clock)
  {
    if runs == [] then []
    else (if IsRunFromYesterday(runs[0], clock) then [runs[0]] else []) + YesterdayRuns(runs[1..], clock)
  }

  /** The zone the hour is judged in: the newest run's when it has one, else the profile's. */
  function EffectiveTimezone(recent: seq<RecentRun>, profile: Option<string>): (z: Option<string>)
    ensures recent != [] && Truthy(recent[0].timezone) ==> z == recent[0].timezone
    ensures (recent == [] || !Truthy(recent[0].timezone)) ==> z == profile
  {
    if |recent| > 0 && Truthy(recent[0].timezone) then recent[0].timezone else profile
  }

  // ---------------------------------------------------------------- lines of text

  /** `${x ?? "?"}` for a metric. */
  function Shown(m: Option<string>): (t: string)
    ensures m.Some? ==> t == m.value
    ensures m.None? ==> t == "?"
  {
    match m
    case Some(v) => v
    case None => "?"
  }

  /** Whole days since the run: `Math.floor((now - start) / day)`, `None` for NaN. */
  function DaysAgo(nowMs: int, startMs: Option<int>): (d: Option<int>)
    ensures d.Some? <==> startMs.Some?
    ensures d.Some? ==> d.value * MS_PER_DAY <= nowMs - startMs.value < (d.value + 1) * MS_PER_DAY
  {
    match startMs
    case None => None
    case Some(s) => Some((nowMs - s) / MS_PER_DAY)
  }

  /** The label of a run in the model's context. */
  function DayLabel(days: Option<int>): (l: string)
    ensures l == "today" <==> days == Some(0)
    ensures l == "yesterday" <==> days == Some(1)
    ensures days.None? ==> l == "NaN days ago"
  {
    match days
    case None => "NaN days ago"
    case Some(n) => if n == 0 then "today" else if n == 1 then "yesterday" else IntToString(n) + " days ago"
  }

  /** The rendering of an integer starts with a minus sign or a digit. */
  lemma IntToStringHead(n: int)
    ensures |IntToString(n)| >= 1
    ensures IntToString(n)[0] == '-' <==> n < 0
    ensures n >= 0 ==> IsDigit(IntToString(n)[0])
  {
  }

  lemma IntToStringInjective(m: int, n: int)
    requires IntToString(m) == IntToString(n)
    ensures m == n
  {
    IntToStringHead(m);
    IntToStringHead(n);
    if m < 0 && n < 0 {
      assert NatToString(-m) == IntToString(m)[1..] == IntToString(n)[1..] == NatToString(-n);
      NatToStringInjective(-m, -n);
    } else if m >= 0 && n >= 0 {
      NatToStringInjective(m, n);
    }
  }

  lemma SuffixCancels(a: string, b: string, suffix: string)
    requires a + suffix == b + suffix
    ensures a == b
  {
    assert |a| == |b|;
    assert a == (a + suffix)[..|a|];
    assert b == (b + suffix)[..|b|];
  }

  /** Distinct day counts get distinct labels. */
  lemma DayLabelInjective(d: Option<int>, e: Option<int>)
    requires DayLabel(d) == DayLabel(e)
    ensures d == e
  {
    var suffix := " days ago";
    match d {
      case None =>
        if e.Some? && e.value != 0 && e.value != 1 {
          IntToStringHead(e.value);
          SuffixCancels("NaN", IntToString(e.value), suffix);
        }
      case Some(m) =>
        match e {
          case None =>
            if m != 0 && m != 1 {
              IntToStringHead(m);
              SuffixCancels(IntToString(m), "NaN", suffix);
            }
          case Some(n) =>
            if m != 0 && m != 1 && n != 0 && n != 1 {
              SuffixCancels(IntToString(m), IntToString(n), suffix);
              IntToStringInjective(m, n);
            }
        }
    }
  }

  /** A run as the yesterday section lists it. */
  function YesterdayLine(r: RecentRun): string {
    Shown(r.distanceKm) + " km in " + Shown(r.durationMin) + " min (" + Shown(r.paceMinKm) + " min/km avg pace)"
  }

  /** A run as the model's context lists it: its day label first, then its metrics. */
  function RecentLine(r: RecentRun, nowMs: int): (l: string)
    ensures var day := DayLabel(DaysAgo(nowMs, r.startMs));
            |l| > |day| + 2 && l[..|day| + 2] == day + ": "
  {
    DayLabel(DaysAgo(nowMs, r.startMs)) + ": " + Shown(r.distanceKm) + " km in " + Shown(r.durationMin)
      + " min (" + Shown(r.paceMinKm) + " min/km)"
  }

  /** A missing distance reads as `?`: the line starts with it. */
  lemma MissingMetricShown(r: RecentRun)
    requires r.distanceKm.None?
    ensures YesterdayLine(r)[..1] == "?"
  {
  }

  // ---------------------------------------------------------------- random picks

  const SUBJECTS := ["Morning, mate", "Rise and shine", "Good morning!", "Reggie here", "Checking in"]
  const REACH_OUTS := [
    "As always, flick me a reply if your plans change. I’ll tweak the schedule accordingly.",
    "Let me know if you have questions or need to change things up.",
    "Any changes, let me know."]
  const SIGN_OFFS := ["Keep it up,", "I’m proud of you,", "Rock on,", "Cheers,", "Yours,"]
  const NAMES := ["Reg", "Reggie", "Reginald"]

  /** `Math.floor(Math.random() * n)` for a draw `r` in [0, 1): always an index of the list. */
  function PickIndex(n: nat, r: real): (i: nat)
    requires n > 0 && 0.0 <= r < 1.0
    ensures i < n
    ensures i as real <= r * n as real < (i + 1) as real
  {
    var x := r * n as real;
    PositiveProduct(1.0 - r, n as real);
    assert n as real - x == (1.0 - r) * n as real;
    x.Floor
  }

  lemma PositiveProduct(a: real, b: real)
    requires a > 0.0 && b > 0.0
    ensures a * b > 0.0
  {
  }

  /** The four draws of one message: subject, reach-out line, sign-off and signature. */
  datatype Draws = Draws(subject: real, reachOut: real, signOff: real, name: real)

  predicate DrawsInRange(d: Draws) {
    && 0.0 <= d.subject < 1.0 && 0.0 <= d.reachOut < 1.0
    && 0.0 <= d.signOff < 1.0 && 0.0 <= d.name < 1.0
  }

  // ---------------------------------------------------------------- the message

  const YESTERDAY_HEADER := "Here’s what you ran yesterday:"
  const COMING_UP := "Here’s what's coming up this week for you:"
  const COMING_SOON := "• Coming soon (sorry!)"

  /** The advice: the model's trimmed text, or the fallback greeting when it gave none. */
  function Advice(content: Option<string>, name: Option<string>): (a: string)
    ensures content.Some? ==> a == Trim(content.value)
    ensures content.None? ==> a == "You’re doing great, " + Greeted(name) + ". Here are the latest numbers."
  {
    match content
    case Some(c) => Trim(c)
    case None => "You’re doing great, " + Greeted(name) + ". Here are the latest numbers."
  }

  /** `name || "mate"`. */
  function Greeted(name: Option<string>): (g: string)
    ensures Truthy(name) ==> g == name.value
    ensures !Truthy(name) ==> g == "mate"
  {
    OrElse(name, Some("mate")).value
  }

  function Bullets(lines: seq<string>): (b: seq<string>)
    ensures |b| == |lines| && forall i :: 0 <= i < |lines| ==> b[i] == "• " + lines[i]
  {
    seq(|lines|, i requires 0 <= i < |lines| => "• " + lines[i])
  }

  function YesterdayLines(runs: seq<RecentRun>): (ls: seq<string>)
    ensures |ls| == |runs| && forall i :: 0 <= i < |runs| ==> ls[i] == YesterdayLine(runs[i])
  {
    seq(|runs|, i requires 0 <= i < |runs| => YesterdayLine(runs[i]))
  }

  /** The lines of the message, joined with newlines to give its text. */
  function Lines(advice: string, yesterday: seq<RecentRun>, d: Draws): (ls: seq<string>)
    requires DrawsInRange(d)
    ensures |ls| >= 10 && ls[0] == advice && ls[1] == ""
    ensures ls[|ls| - 2] in SIGN_OFFS && ls[|ls| - 1] in NAMES && ls[|ls| - 4] in REACH_OUTS
  {
    [advice, ""]
    + (if |yesterday| > 0 then [YESTERDAY_HEADER, "", Join(Bullets(YesterdayLines(yesterday)), ", "), ""] else [])
    + [COMING_UP, "", COMING_SOON, "",
       REACH_OUTS[PickIndex(|REACH_OUTS|, d.reachOut)], "",
       SIGN_OFFS[PickIndex(|SIGN_OFFS|, d.signOff)],
       NAMES[PickIndex(|NAMES|, d.name)]]
  }

  /** The yesterday section is there iff there are runs from yesterday, and then it lists
      each of them as a bullet. */
  lemma YesterdaySection(advice: string, yesterday: seq<RecentRun>, d: Draws)
    requires DrawsInRange(d)
    ensures var ls := Lines(advice, yesterday, d);
            && (ls[2] == YESTERDAY_HEADER <==> |yesterday| > 0)
            && |ls| == (if |yesterday| > 0 then 14 else 10)
            && (|yesterday| > 0 ==> ls[4] == Join(Bullets(YesterdayLines(yesterday)), ", "))
            && ls[0] == advice && ls[|ls| - 8] == COMING_UP
  {
    assert |YESTERDAY_HEADER| != |COMING_UP|;
  }

  /** An e-mail handed to the mail service. */
  datatype Mail = Mail(to: string, subject: string, text: string)

  // ---------------------------------------------------------------- one user

  /** What one user's turn meets: the runs query (`None` is an error), whether the call to
      the model throws, the content it returns, whether the send throws, and the draws. */
  datatype UserFeed = UserFeed(
    recent: Option<seq<RecentRun>>,
    modelThrows: bool,
    content: Option<string>,
    sendThrows: bool,
    draws: Draws)

  /** How a turn ends: skipped on a runs error, outside the window or without a training
      plan; a throw, from a time-zone formatter or from the call to the model, which ends
      the whole job; or a mail is sent, `delivered` when the send returned. */
  datatype Turn = RunsFailed | NotMorning | NoPlan | Threw | Mailed(mail: Mail, delivered: bool)

  /** Every zone the turn hands to a formatter is accepted: the profile's (the runs query's
      date bound), the effective one (the window and today's date), and each run's (the
      yesterday filter). */
  predicate ZonesAccepted(user: User, f: UserFeed, clock: Clock) {
    && !TruthyUnknown(clock, user.timezone)
    && (f.recent.Some? ==>
          && ZoneAccepted(clock, EffectiveTimezone(f.recent.value, user.timezone))
          && !FilterThrows(f.recent.value, clock))
  }

  /** The body of the loop for one user, in the order of its checks: the date bound of the
      runs query (formatted in the profile's zone), the runs query, the window, the
      yesterday filter, the training plan, today's date in the effective zone, the model. */
  function UserTurn(user: User, f: UserFeed, clock: Clock, skipCheck: bool): (t: Turn)
    requires DrawsInRange(f.draws)
    ensures TruthyUnknown(clock, user.timezone) ==> t == Threw
    ensures !TruthyUnknown(clock, user.timezone) && f.recent.None? ==> t == RunsFailed
    ensures t == NotMorning ==>
              && !skipCheck && f.recent.Some?
              && !IsMorning(LocalHour(clock, EffectiveTimezone(f.recent.value, user.timezone)))
    ensures t == NoPlan ==> !Truthy(user.trainingPlan)
    ensures t == Threw ==> f.modelThrows || !ZonesAccepted(user, f, clock)
    ensures t.Mailed? ==>
              && f.recent.Some? && ZonesAccepted(user, f, clock)
              && Truthy(user.trainingPlan) && !f.modelThrows
              && (skipCheck || IsMorning(LocalHour(clock, EffectiveTimezone(f.recent.value, user.timezone))))
              && t.mail.to == user.email && t.mail.subject in SUBJECTS
              && t.mail.text == Join(Lines(Advice(f.content, user.name), YesterdayRuns(f.recent.value, clock), f.draws), "\n")
              && (t.delivered <==> !f.sendThrows)
  {
    if TruthyUnknown(clock, user.timezone) then Threw
    else if f.recent.None? then RunsFailed
    else
      var recent := f.recent.value;
      var zone := EffectiveTimezone(recent, user.timezone);
      if !skipCheck && TruthyUnknown(clock, zone) then Threw
      else if !skipCheck && !IsMorning(LocalHour(clock, zone)) then NotMorning
      else if FilterThrows(recent, clock) then Threw
      else if !Truthy(user.trainingPlan) then NoPlan
      else if !ZoneAccepted(clock, zone) || f.modelThrows then Threw
      else
        var text := Join(Lines(Advice(f.content, user.name), YesterdayRuns(recent, clock), f.draws), "\n");
        Mailed(Mail(user.email, SUBJECTS[PickIndex(|SUBJECTS|, f.draws.subject)], text), !f.sendThrows)
  }

  /** With every zone accepted, the window is checked before the training plan: outside it
      the user is skipped as not in the morning whether or not a plan exists, and the
      skip-check header lifts it. */
  lemma WindowBeforePlan(user: User, f: UserFeed, clock: Clock, skipCheck: bool)
    requires DrawsInRange(f.draws) && f.recent.Some? && ZonesAccepted(user, f, clock)
    ensures var hour := LocalHour(clock, EffectiveTimezone(f.recent.value, user.timezone));
            && (!skipCheck && !IsMorning(hour) ==> UserTurn(user, f, clock, skipCheck) == NotMorning)
            && ((skipCheck || IsMorning(hour)) && !Truthy(user.trainingPlan) ==>
                  UserTurn(user, f, clock, skipCheck) == NoPlan)
            && (skipCheck ==> UserTurn(user, f, clock, skipCheck) != NotMorning)
  {
  }

  /** A user whose effective zone is `null` (no zone on the profile nor on the newest run)
      and who is due a mail gets none: building today's date throws and ends the job. */
  lemma NullZoneThrows(user: User, f: UserFeed, clock: Clock, skipCheck: bool)
    requires DrawsInRange(f.draws) && f.recent.Some? && user.timezone == None
    requires f.recent.value == [] || !Truthy(f.recent.value[0].timezone)
    requires skipCheck || IsMorning(clock.hostHour)
    requires !FilterThrows(f.recent.value, clock) && Truthy(user.trainingPlan)
    ensures UserTurn(user, f, clock, skipCheck) == Threw
  {
  }

  /** A mail goes only to a user with a plan, inside the window or under the header, with
      every zone accepted, and to that user's own address. */
  lemma MailedOnlyWhenDue(user: User, f: UserFeed, clock: Clock, skipCheck: bool)
    requires DrawsInRange(f.draws) && UserTurn(user, f, clock, skipCheck).Mailed?
    ensures f.recent.Some? && Truthy(user.trainingPlan) && !f.modelThrows && ZonesAccepted(user, f, clock)
    ensures skipCheck || IsMorning(LocalHour(clock, EffectiveTimezone(f.recent.value, user.timezone)))
    ensures UserTurn(user, f, clock, skipCheck).mail.to == user.email
    ensures UserTurn(user, f, clock, skipCheck).delivered <==> !f.sendThrows
    ensures UserTurn(user, f, clock, skipCheck).mail.subject == SUBJECTS[PickIndex(|SUBJECTS|, f.draws.subject)]
  {
  }

  // ---------------------------------------------------------------- the loop

  /** The job's counters after some turns: whether a turn threw, the mails handed to the
      service, and `sentCount`. */
  datatype Tally = Tally(threw: bool, attempted: seq<Mail>, sent: nat)

  /** The turns taken in order until one throws. */
  function TallyOf(turns: seq<Turn>): (t: Tally)
    ensures t.sent <= |t.attempted|
    decreases |turns|
  {
    if turns == [] then Tally(false, [], 0)
    else
      var t := TallyOf(turns[..|turns| - 1]);
      if t.threw then t
      else match turns[|turns| - 1]
        case Threw => t.(threw := true)
        case Mailed(m, ok) => Tally(false, t.attempted + [m], t.sent + (if ok then 1 else 0))
        case _ => t
  }

  /** The mails of the turns, counted from the front. */
  function MailsOf(turns: seq<Turn>): seq<Mail> {
    if turns == [] then []
    else (if turns[0].Mailed? then [turns[0].mail] else []) + MailsOf(turns[1..])
  }

  /** The number of delivered mails, counted from the front. */
  function DeliveredCount(turns: seq<Turn>): nat {
    if turns == [] then 0
    else (if turns[0].Mailed? && turns[0].delivered then 1 else 0) + DeliveredCount(turns[1..])
  }

  predicate NoThrow(turns: seq<Turn>) {
    forall i :: 0 <= i < |turns| ==> !turns[i].Threw?
  }

  lemma {:induction false} MailsOfAppend(a: seq<Turn>, b: seq<Turn>)
    ensures MailsOf(a + b) == MailsOf(a) + MailsOf(b)
    ensures DeliveredCount(a + b) == DeliveredCount(a) + DeliveredCount(b)
    decreases |a|
  {
    if a == [] {
      assert a + b == b;
    } else {
      assert (a + b)[1..] == a[1..] + b;
      MailsOfAppend(a[1..], b);
    }
  }

  /** Without a throw every turn is taken: the mails handed over are those of all mailed
      turns, in order, and `sentCount` is the number of sends that returned, so a send
      that throws does not stop the later ones. */
  lemma {:induction false} TallyWithoutThrow(turns: seq<Turn>)
    requires NoThrow(turns)
    ensures !TallyOf(turns).threw
    ensures TallyOf(turns).attempted == MailsOf(turns)
    ensures TallyOf(turns).sent == DeliveredCount(turns)
    decreases |turns|
  {
    if turns != [] {
      var init := turns[..|turns| - 1];
      var last := turns[|turns| - 1];
      assert NoThrow(init);
      TallyWithoutThrow(init);
      assert init + [last] == turns;
      MailsOfAppend(init, [last]);
      assert [last][1..] == [];
    }
  }

  /** A throw ends the job's counting: no later turn changes the tally. */
  lemma {:induction false} TallyStaysThrown(turns: seq<Turn>, i: nat)
    requires i <= |turns| && TallyOf(turns[..i]).threw
    ensures TallyOf(turns) == TallyOf(turns[..i])
    decreases |turns| - i
  {
    if i < |turns| {
      assert turns[..i + 1][..i] == turns[..i];
      assert TallyOf(turns[..i + 1]) == TallyOf(turns[..i]);
      TallyStaysThrown(turns, i + 1);
    } else {
      assert turns[..i] == turns;
    }
  }

  lemma TallyStep(turns: seq<Turn>, i: nat)
    requires i < |turns|
    ensures TallyOf(turns[..i + 1]) == (
      var t := TallyOf(turns[..i]);
      if t.threw then t
      else match turns[i]
        case Threw => t.(threw := true)
        case Mailed(m, ok) => Tally(false, t.attempted + [m], t.sent + (if ok then 1 else 0))
        case _ => t)
  {
    assert turns[..i + 1][..i] == turns[..i];
  }

  /** The job's users, in the order the users query returns them: each active user once. */
  ghost predicate ListsActive(users: map<UserId, User>, order: seq<UserId>) {
    && (forall i, j :: 0 <= i < j < |order| ==> order[i] != order[j])
    && (forall u :: u in order <==> u in users && users[u].isActive)
  }

  /** The turns of the users of `order`. */
  function Turns(users: map<UserId, User>, order: seq<UserId>, feeds: map<UserId, UserFeed>,
                 clock: Clock, skipCheck: bool): (ts: seq<Turn>)
    requires forall u :: u in order ==> u in users && u in feeds && DrawsInRange(feeds[u].draws)
    ensures |ts| == |order|
    ensures forall i :: 0 <= i < |order| ==> ts[i] == UserTurn(users[order[i]], feeds[order[i]], clock, skipCheck)
  {
    seq(|order|, i requires 0 <= i < |order| => UserTurn(users[order[i]], feeds[order[i]], clock, skipCheck))
  }

  /** The response: "No users", `{sent}` with status 200, or `{error}` with status 500. */
  datatype Response = NoUsers | Sent(count: nat) | Failed

  /** The job. `usersFail` is an error of the users query and `header` the value of
      `x-skip-morning-check`. Nothing in the store changes. */
  method Review(db: Store, header: Option<string>, usersFail: bool, order: seq<UserId>,
                feeds: map<UserId, UserFeed>, clock: Clock)
      returns (response: Response, mails: seq<Mail>)
    requires !usersFail ==> ListsActive(db.users, order)
    requires forall u :: u in order ==> u in db.users && u in feeds && DrawsInRange(feeds[u].draws)
    ensures usersFail ==> response == Failed && mails == []
    ensures !usersFail && order == [] ==> response == NoUsers && mails == []
    ensures !usersFail && order != [] ==>
              var t := TallyOf(Turns(db.users, order, feeds, clock, header == Some("true")));
              && mails == t.attempted
              && response == (if t.threw then Failed else Sent(t.sent))
  {
    if usersFail {
      return Failed, [];
    }
    if order == [] {
      return NoUsers, [];
    }
    var skipCheck := header == Some("true");
    ghost var turns := Turns(db.users, order, feeds, clock, skipCheck);
    var threw := false;
    var sentCount := 0;
    mails := [];
    var i := 0;
    while i < |order| && !threw
      invariant 0 <= i <= |order|
      invariant TallyOf(turns[..i]) == Tally(threw, mails, sentCount)
    {
      var u := order[i];
      var turn := UserTurn(db.users[u], feeds[u], clock, skipCheck);
      TallyStep(turns, i);
      match turn {
        case Threw =>
          threw := true;
        case Mailed(m, delivered) =>
          mails := mails + [m];
          if delivered {
            sentCount := sentCount + 1;
          }
        case _ =>
      }
      i := i + 1;
    }
    if threw {
      TallyStaysThrown(turns, i);
    } else {
      assert turns[..i] == turns;
    }
    response := if threw then Failed else Sent(sentCount);
  }

  /** When the model never throws, the job reports exactly the sends that returned and
      hands over a mail for every user who was due one. */
  lemma ReviewCountsDeliveries(users: map<UserId, User>, order: seq<UserId>, feeds: map<UserId, UserFeed>,
                               clock: Clock, skipCheck: bool)
    requires forall u :: u in order ==> u in users && u in feeds && DrawsInRange(feeds[u].draws)
    requires forall u :: u in order ==> !feeds[u].modelThrows && ZonesAccepted(users[u], feeds[u], clock)
    ensures var ts := Turns(users, order, feeds, clock, skipCheck);
            && !TallyOf(ts).threw
            && TallyOf(ts).attempted == MailsOf(ts)
            && TallyOf(ts).sent == DeliveredCount(ts)
  {
    var ts := Turns(users, order, feeds, clock, skipCheck);
    assert NoThrow(ts) by {
      forall i | 0 <= i < |ts| ensures !ts[i].Threw? {
        assert order[i] in order;
      }
    }
    TallyWithoutThrow(ts);
  }
}
