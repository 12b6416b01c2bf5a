/**
 * A Strava activity as the provider sends it and the `runs` row the edge functions
 * store for it. There are two copies of the normaliser: the sync job's, which rounds
 * the metrics with `parseStravaNumber`, and the webhook's `formatActivity`, which
 * passes them through with `?? null`. Both share the unit conversion, the pace, the
 * timezone extraction and the trailing-`Z` strip.
 */
module Activity {
  import opened Common
  import opened Text

  // ---------------------------------------------------------------- JavaScript numbers

  /** `Math.round(x)`: the nearest integer, halves rounded up. */
  function Round(x: real): (r: int)
    ensures x - 0.5 < r as real <= x + 0.5
  {
    (x + 0.5).Floor
  }

  function Pow10(n: nat): (r: real)
    ensures r >= 1.0
  {
    if n == 0 then 1.0 else 10.0 * Pow10(n - 1)
  }

  /** The number of decimal digits at the head of `s`. */
  function LeadingDigits(s: string): (n: nat)
    ensures n <= |s|
    ensures forall i :: 0 <= i < n ==> IsDigit(s[i])
    ensures n == |s| || !IsDigit(s[n])
  {
    if s != [] && IsDigit(s[0]) then 1 + LeadingDigits(s[1..]) else 0
  }

  /** `s` with an optional leading `+` or `-` removed, and the sign it stood for. */
  function SignOf(s: string): (r: (bool, string))
    ensures |r.1| <= |s| && r.1 == s[|s| - |r.1|..]
    ensures r.1 == s || (s != [] && r.1 == s[1..])
  {
    if s != [] && (s[0] == '-' || s[0] == '+') then (s[0] == '-', s[1..]) else (false, s)
  }

  /** The exponent part `e`/`E`, optional sign, digits at the head of `s`, if there is one. */
  function Exponent(s: string): Option<int> {
    if s != [] && (s[0] == 'e' || s[0] == 'E') then
      var (neg, t) := SignOf(s[1..]);
      var n := LeadingDigits(t);
      if n == 0 then None
      else
        var v := DigitsValue(t[..n]) as int;
        Some(if neg then -v else v)
    else None
  }

  function Scale(x: real, e: int): real {
    if e >= 0 then x * Pow10(e) else x / Pow10(-e)
  }

  /** The number of fraction digits when `rest` starts with `.`. */
  function FracDigits(rest: string): nat {
    if rest != [] && rest[0] == '.' then LeadingDigits(rest[1..]) else 0
  }

  /** The value of an unsigned decimal at the head of `u`, if it has a digit. */
  function UnsignedPrefix(u: string): (r: Option<real>)
    ensures r.Some? ==> exists i :: 0 <= i < |u| && IsDigit(u[i])
  {
    var n := LeadingDigits(u);
    var rest := u[n..];
    var f := FracDigits(rest);
    if n == 0 && f == 0 then None
    else
      assert n == 0 ==> IsDigit(u[1]);
      var frac := if f == 0 then 0.0 else DigitsValue(rest[1..1 + f]) as real / Pow10(f);
      var tail := if rest != [] && rest[0] == '.' then rest[1 + f..] else rest;
      Some(Scale(DigitsValue(u[..n]) as real + frac, Exponent(tail).GetOr(0)))
  }

  /** `parseFloat` once the leading blanks are gone: optional sign, then an unsigned decimal. */
  function ParseTrimmed(t: string): (r: Option<real>)
    ensures r.Some? ==> exists i :: 0 <= i < |t| && IsDigit(t[i])
  {
    var sign := SignOf(t);
    match UnsignedPrefix(sign.1)
    case None => None
    case Some(m) =>
      SuffixDigit(t, sign.1);
      Some(if sign.0 then -m else m)
  }

  /** `parseFloat(s)` for decimal input: blanks are skipped, then the longest prefix of the
      form sign, digits, `.`, digits, exponent is read, and `None` (NaN) is the result when
      that prefix holds no digit. */
  function ParseFloat(s: string): (r: Option<real>)
    ensures r.Some? ==> exists i :: 0 <= i < |s| && IsDigit(s[i])
  {
    var t := TrimStart(s);
    var r := ParseTrimmed(t);
    if r.Some? then SuffixDigit(s, t); r else r
  }

  lemma SuffixDigit(s: string, u: string)
    requires |u| <= |s| && u == s[|s| - |u|..]
    requires exists i :: 0 <= i < |u| && IsDigit(u[i])
    ensures exists i :: 0 <= i < |s| && IsDigit(s[i])
  {
    var i :| 0 <= i < |u| && IsDigit(u[i]);
    assert s[|s| - |u| + i] == u[i];
  }

  /** A string of digits reads as its value. */
  lemma UnsignedPrefixOfDigits(s: string)
    requires s != [] && forall i :: 0 <= i < |s| ==> IsDigit(s[i])
    ensures UnsignedPrefix(s) == Some(DigitsValue(s) as real)
  {
    LeadingDigitsAll(s);
    assert s[..|s|] == s;
    assert s[|s|..] == [];
    var rest := s[|s|..];
    assert FracDigits(rest) == 0;
    assert Exponent(rest) == None;
    assert Scale(DigitsValue(s) as real, 0) == DigitsValue(s) as real;
  }

  /** A decimal integer reads back as itself. */
  lemma ParseFloatOfNat(n: nat)
    ensures ParseFloat(NatToString(n)) == Some(n as real)
  {
    var s := NatToString(n);
    assert IsDigit(s[0]);
    assert !IsSpace(s[0]);
    assert TrimStart(s) == s;
    assert ParseFloat(s) == ParseTrimmed(s);
    assert SignOf(s) == (false, s);
    UnsignedPrefixOfDigits(s);
    DigitsValueOfNatToString(n);
    assert UnsignedPrefix(s) == Some(n as real);
  }

  lemma {:induction false} LeadingDigitsAll(s: string)
    requires forall i :: 0 <= i < |s| ==> IsDigit(s[i])
    ensures LeadingDigits(s) == |s|
  {
    if s != [] {
      LeadingDigitsAll(s[1..]);
    }
  }

  /** Leading blanks do not change what `parseFloat` reads. */
  lemma ParseFloatSkipsBlanks(c: char, s: string)
    requires IsSpace(c)
    ensures ParseFloat([c] + s) == ParseFloat(s)
  {
    assert ([c] + s)[1..] == s;
    assert TrimStart([c] + s) == TrimStart(s);
    assert ParseFloat([c] + s) == ParseTrimmed(TrimStart(s));
  }

  // ---------------------------------------------------------------- parseStravaNumber

  /** A numeric field of the provider's JSON: absent (`null`/`undefined`), a number, a
      string, or any other JSON value. */
  datatype RawNumber = Absent | Num(x: real) | Str(s: string) | Other

  /** `parseStravaNumber(value)`: total, `None` standing for `null`. */
  function ParseStravaNumber(v: RawNumber): (r: Option<int>)
    ensures v.Absent? || v.Other? ==> r.None?
    ensures v.Num? ==> r == Some(Round(v.x))
    ensures v.Str? ==> (r.Some? <==> ParseFloat(v.s).Some?)
    ensures v.Str? && r.Some? ==> r.value == Round(ParseFloat(v.s).value)
  {
    match v
    case Absent => None
    case Num(x) => Some(Round(x))
    case Str(s) =>
      (match ParseFloat(s)
       case None => None
       case Some(x) => Some(Round(x)))
    case Other => None
  }

  /** A whole number reads the same whether it arrives as a number or as its decimal string. */
  lemma ParseStravaNumberStringOrNumber(n: nat)
    ensures ParseStravaNumber(Str(NatToString(n))) == ParseStravaNumber(Num(n as real)) == Some(n)
  {
    ParseFloatOfNat(n);
    assert Round(n as real) == n;
  }

  // ---------------------------------------------------------------- the timezone label

  /** Index of the first `)` at or after `from`, if any. */
  function CloseParen(s: string, from: nat): (r: Option<nat>)
    ensures r.Some? ==> from <= r.value < |s| && s[r.value] == ')'
    ensures r.Some? ==> forall k :: from <= k < r.value ==> s[k] != ')'
    ensures r.None? ==> forall k :: from <= k < |s| ==> s[k] != ')'
    decreases |s| - from
  {
    if from >= |s| then None
    else if s[from] == ')' then Some(from)
    else CloseParen(s, from + 1)
  }

  /** The number of blanks at the head of `r`: what `\s*` takes first. */
  function LeadingSpaces(r: string): (n: nat)
    ensures n <= |r|
    ensures forall k :: 0 <= k < n ==> IsSpace(r[k])
    ensures n == |r| || !IsSpace(r[n])
  {
    if r != [] && IsSpace(r[0]) then 1 + LeadingSpaces(r[1..]) else 0
  }

  /** The largest `k <= w` at which `.` can match, when `\s*` gives characters back. */
  function CaptureStart(r: string, w: nat): (k: Option<nat>)
    requires w <= |r|
    ensures k.Some? ==> k.value <= w && k.value < |r| && !IsLineTerminator(r[k.value])
    ensures k.Some? ==> forall j :: k.value < j <= w && j < |r| ==> IsLineTerminator(r[j])
    ensures k.None? ==> forall j :: 0 <= j <= w && j < |r| ==> IsLineTerminator(r[j])
  {
    if w < |r| && !IsLineTerminator(r[w]) then Some(w)
    else if w == 0 then None
    else CaptureStart(r, w - 1)
  }

  /** The longest prefix of `r` without a line terminator: what a greedy `.+` takes. */
  function LineRun(r: string): (t: string)
    ensures |t| <= |r| && t == r[..|t|]
    ensures forall k :: 0 <= k < |t| ==> !IsLineTerminator(t[k])
    ensures |t| == |r| || IsLineTerminator(r[|t|])
  {
    if r != [] && !IsLineTerminator(r[0]) then [r[0]] + LineRun(r[1..]) else []
  }

  /** The capture of `/\([^)]+\)\s*(.+)/` when the match starts at the `(` at index `i`. */
  function MatchAt(s: string, i: nat): Option<string>
    requires i < |s| && s[i] == '('
  {
    match CloseParen(s, i + 1)
    case None => None
    case Some(c) =>
      if c == i + 1 then None
      else
        var r := s[c + 1..];
        match CaptureStart(r, LeadingSpaces(r))
        case None => None
        case Some(k) => Some(LineRun(r[k..]))
  }

  /** The leftmost match at index `i` or later. */
  function MatchFrom(s: string, i: nat): (r: Option<string>)
    ensures r.Some? ==> r.value != [] && forall k :: 0 <= k < |r.value| ==> !IsLineTerminator(r.value[k])
    ensures (forall k :: i <= k < |s| ==> s[k] != '(') ==> r.None?
    decreases |s| - i
  {
    if i >= |s| then None
    else if s[i] == '(' && MatchAt(s, i).Some? then MatchAtNonEmpty(s, i); MatchAt(s, i)
    else MatchFrom(s, i + 1)
  }

  lemma MatchAtNonEmpty(s: string, i: nat)
    requires i < |s| && s[i] == '(' && MatchAt(s, i).Some?
    ensures MatchAt(s, i).value != []
    ensures forall k :: 0 <= k < |MatchAt(s, i).value| ==> !IsLineTerminator(MatchAt(s, i).value[k])
  {
    var c := CloseParen(s, i + 1).value;
    var r := s[c + 1..];
    var k := CaptureStart(r, LeadingSpaces(r)).value;
    assert r[k..][0] == r[k];
  }

  /** `tz?.match(/\([^)]+\)\s*(.+)/)?.[1] ?? null`: the IANA name after the offset. */
  function Timezone(tz: Option<string>): (r: Option<string>)
    ensures r.Some? ==> tz.Some? && r.value != []
    ensures tz.Some? && '(' !in tz.value ==> r.None?
  {
    match tz
    case None => None
    case Some(s) => MatchFrom(s, 0)
  }

  /** A Strava label, parenthesised offset, blanks, then a name on one line, gives the name:
      `"(GMT-08:00) America/Los_Angeles"` is the instance with offset `"GMT-08:00"`, gap `" "`
      and name `"America/Los_Angeles"`. */
  lemma TimezoneOfLabel(offset: string, gap: string, name: string)
    requires offset != [] && ')' !in offset
    requires forall k :: 0 <= k < |gap| ==> IsSpace(gap[k])
    requires name != [] && !IsSpace(name[0])
    requires forall k :: 0 <= k < |name| ==> !IsLineTerminator(name[k])
    ensures Timezone(Some("(" + offset + ")" + gap + name)) == Some(name)
  {
    var s := "(" + offset + ")" + gap + name;
    var c := |offset| + 1;
    assert s[c] == ')';
    assert forall k :: 1 <= k < c ==> s[k] == offset[k - 1];
    assert CloseParen(s, 1) == Some(c);
    var r := s[c + 1..];
    assert r == gap + name;
    assert LeadingSpaces(r) == |gap| by {
      LeadingSpacesOf(gap, name);
    }
    assert r[|gap|] == name[0];
    assert CaptureStart(r, |gap|) == Some(|gap|);
    assert r[|gap|..] == name;
    LineRunWhole(name);
    assert MatchAt(s, 0) == Some(name);
  }

  lemma {:induction false} LeadingSpacesOf(gap: string, rest: string)
    requires forall k :: 0 <= k < |gap| ==> IsSpace(gap[k])
    requires rest != [] && !IsSpace(rest[0])
    ensures LeadingSpaces(gap + rest) == |gap|
  {
    if gap != [] {
      assert (gap + rest)[1..] == gap[1..] + rest;
      LeadingSpacesOf(gap[1..], rest);
    }
  }

  lemma {:induction false} LineRunWhole(t: string)
    requires forall k :: 0 <= k < |t| ==> !IsLineTerminator(t[k])
    ensures LineRun(t) == t
  {
    if t != [] {
      LineRunWhole(t[1..]);
    }
  }

  // ---------------------------------------------------------------- start_date_local

  /** One trailing `Z` is removed from a non-empty local start time; anything else is kept. */
  function StripZ(d: Option<string>): (r: Option<string>)
    ensures d.Some? && d.value != [] && d.value[|d.value| - 1] == 'Z' ==> r == Some(d.value[..|d.value| - 1])
    ensures !(d.Some? && EndsWith(d.value, "Z")) ==> r == d
  {
    if d.Some? && d.value != "" && EndsWith(d.value, "Z") then Some(d.value[..|d.value| - 1]) else d
  }

  /** Only one `Z` goes: the strip gives back the time without its last `Z`, whatever it was. */
  lemma StripZOnce(t: string)
    ensures StripZ(Some(t + "Z")) == Some(t)
  {
    assert (t + "Z")[..|t|] == t;
  }

  // ---------------------------------------------------------------- activities and rows

  /** The fields of a provider activity the normalisers read. */
  datatype RawActivity = RawActivity(
    id: int,
    kind: string,
    distance: real,
    movingTime: real,
    timezone: Option<string>,
    startDateLocal: Option<string>,
    name: Option<string>,
    elevation: RawNumber,
    avgHeartrate: RawNumber,
    maxHeartrate: RawNumber,
    sufferScore: RawNumber)

  /** A metric column as stored: `null`, a number, or the value the provider sent. */
  datatype Metric = MNull | MNum(x: real) | MStr(s: string) | MOther

  /** A row of the `runs` table. */
  datatype RunRow = RunRow(
    userId: string,
    stravaId: int,
    startDateLocal: Option<string>,
    timezone: Option<string>,
    distanceKm: real,
    durationMin: real,
    paceMinKm: Option<real>,
    notes: Option<string>,
    elevation: Metric,
    avgHeartrate: Metric,
    maxHeartrate: Metric,
    sufferScore: Metric)

  /** `duration_min / distance_km` when the distance is positive, otherwise `null`. */
  function Pace(distanceKm: real, durationMin: real): (r: Option<real>)
    ensures r.Some? <==> distanceKm > 0.0
    ensures r.Some? ==> r.value * distanceKm == durationMin
  {
    if distanceKm > 0.0 then Some(durationMin / distanceKm) else None
  }

  /** The row without its metric columns: units, pace, timezone, start time, notes. */
  function BaseRow(a: RawActivity, userId: string): (r: RunRow)
    ensures r.userId == userId && r.stravaId == a.id
    ensures r.distanceKm * 1000.0 == a.distance && r.durationMin * 60.0 == a.movingTime
    ensures r.paceMinKm == Pace(a.distance / 1000.0, a.movingTime / 60.0)
    ensures r.timezone == Timezone(a.timezone) && r.startDateLocal == StripZ(a.startDateLocal)
    ensures r.notes == a.name
  {
    var km := a.distance / 1000.0;
    var min := a.movingTime / 60.0;
    RunRow(userId, a.id, StripZ(a.startDateLocal), Timezone(a.timezone), km, min, Pace(km, min),
           a.name, MNull, MNull, MNull, MNull)
  }

  function RoundedMetric(v: RawNumber): Metric {
    match ParseStravaNumber(v)
    case None => MNull
    case Some(n) => MNum(n as real)
  }

  function RawMetric(v: RawNumber): Metric {
    match v
    case Absent => MNull
    case Num(x) => MNum(x)
    case Str(s) => MStr(s)
    case Other => MOther
  }

  /** A row with its four metric columns cleared, as `BaseRow` leaves them. */
  function Unmetered(r: RunRow): RunRow {
    r.(elevation := MNull, avgHeartrate := MNull, maxHeartrate := MNull, sufferScore := MNull)
  }

  /** The sync job's row for an activity: metrics rounded by `parseStravaNumber`. */
  function SyncRow(a: RawActivity, userId: string): (r: RunRow)
    ensures r.stravaId == a.id && r.userId == userId
    ensures r.elevation == RoundedMetric(a.elevation) && r.avgHeartrate == RoundedMetric(a.avgHeartrate)
    ensures r.maxHeartrate == RoundedMetric(a.maxHeartrate) && r.sufferScore == RoundedMetric(a.sufferScore)
    ensures Unmetered(r) == BaseRow(a, userId)
  {
    BaseRow(a, userId).(elevation := RoundedMetric(a.elevation),
                        avgHeartrate := RoundedMetric(a.avgHeartrate),
                        maxHeartrate := RoundedMetric(a.maxHeartrate),
                        sufferScore := RoundedMetric(a.sufferScore))
  }

  /** The webhook's `formatActivity`: metrics passed through with `?? null`. */
  function WebhookRow(a: RawActivity, userId: string): (r: RunRow)
    ensures r.stravaId == a.id && r.userId == userId
    ensures r.elevation == RawMetric(a.elevation) && r.avgHeartrate == RawMetric(a.avgHeartrate)
    ensures r.maxHeartrate == RawMetric(a.maxHeartrate) && r.sufferScore == RawMetric(a.sufferScore)
    ensures Unmetered(r) == BaseRow(a, userId)
  {
    BaseRow(a, userId).(elevation := RawMetric(a.elevation),
                        avgHeartrate := RawMetric(a.avgHeartrate),
                        maxHeartrate := RawMetric(a.maxHeartrate),
                        sufferScore := RawMetric(a.sufferScore))
  }

  /** The two copies agree on every column but the four metrics. */
  lemma SyncAndWebhookShareBase(a: RawActivity, userId: string)
    ensures SyncRow(a, userId).(elevation := MNull, avgHeartrate := MNull, maxHeartrate := MNull, sufferScore := MNull)
         == WebhookRow(a, userId).(elevation := MNull, avgHeartrate := MNull, maxHeartrate := MNull, sufferScore := MNull)
  {
  }

  /** The metric columns agree exactly on absent values and whole numbers sent as numbers. */
  lemma MetricCopiesAgree(v: RawNumber)
    ensures RoundedMetric(v) == RawMetric(v) <==> v.Absent? || (v.Num? && v.x == v.x.Floor as real)
  {
    match v
    case Absent =>
    case Num(x) =>
      var n := Round(x);
      if x == x.Floor as real {
        assert n == x.Floor;
      }
    case Str(s) =>
    case Other =>
  }

  /** For example, a heart rate of 150.6 is stored as 151 by the sync job and as 150.6 by
      the webhook, and the string "12" as the number 12 and as the string "12". */
  lemma MetricCopiesDiffer()
    ensures RoundedMetric(Num(150.6)) == MNum(151.0) && RawMetric(Num(150.6)) == MNum(150.6)
    ensures RoundedMetric(Str("12")) == MNum(12.0) && RawMetric(Str("12")) == MStr("12")
  {
    assert Round(150.6) == 151;
    assert NatToString(1) == "1";
    assert NatToString(12) == NatToString(1) + [DigitChar(2)] == "12";
    ParseStravaNumberStringOrNumber(12);
  }

  // ---------------------------------------------------------------- one page of the sync job

  /** The page size the sync job asks for. */
  const PER_PAGE: nat := 30

  /** `activities.filter(a => a.type === "Run").map(...)`. */
  function SyncBatch(page: seq<RawActivity>, userId: string): (rows: seq<RunRow>)
    ensures |rows| <= |page|
    ensures forall r :: r in rows ==> exists a :: a in page && a.kind == "Run" && r == SyncRow(a, userId)
    ensures forall a :: a in page && a.kind == "Run" ==> SyncRow(a, userId) in rows
  {
    if page == [] then []
    else
      var rest := SyncBatch(page[1..], userId);
      assert forall a :: a in page[1..] ==> a in page;
      assert forall a :: a in page ==> a == page[0] || a in page[1..];
      if page[0].kind == "Run" then [SyncRow(page[0], userId)] + rest else rest
  }

  /** At most one page of runs is stored per user and sync. */
  lemma SyncBatchAtMostOnePage(page: seq<RawActivity>, userId: string)
    requires |page| <= PER_PAGE
    ensures |SyncBatch(page, userId)| <= PER_PAGE
  {
  }

  /** Every stored row carries the strava id of a run in the page and the user's id. */
  lemma SyncBatchIds(page: seq<RawActivity>, userId: string, r: RunRow)
    requires r in SyncBatch(page, userId)
    ensures r.userId == userId
    ensures exists a :: a in page && a.kind == "Run" && a.id == r.stravaId
  {
  }
}
