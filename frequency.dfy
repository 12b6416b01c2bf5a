/**
 * The morning-review frequency preference: `"daily"`, or a comma-separated list of day
 * names normalised to lower case, without duplicates, in sorted order; and the
 * endpoint that validates a request and stores the normalised value.
 */
module Frequency {
  import opened Common
  import opened Text
  import opened EmailShape
  import opened Tables

  const VALID_DAYS: seq<string> := ["monday", "tuesday", "wednesday", "thursday", "friday", "saturday", "sunday"]

  // ---------------------------------------------------------------- string order

  /** The order `Array.prototype.sort` uses by default: character by character, a proper
      prefix first. */
  predicate StrLe(a: string, b: string)
    decreases |a|
  {
    a == [] || (b != [] && (a[0] < b[0] || (a[0] == b[0] && StrLe(a[1..], b[1..]))))
  }

  lemma {:induction false} StrLeTotal(a: string, b: string)
    ensures StrLe(a, b) || StrLe(b, a)
    decreases |a|
  {
    if a != [] && b != [] && a[0] == b[0] {
      StrLeTotal(a[1..], b[1..]);
    }
  }

  lemma {:induction false} StrLeAntisymmetric(a: string, b: string)
    requires StrLe(a, b) && StrLe(b, a)
    ensures a == b
    decreases |a|
  {
    if a != [] {
      assert b != [] && a[0] == b[0];
      StrLeAntisymmetric(a[1..], b[1..]);
      assert a == [a[0]] + a[1..] && b == [b[0]] + b[1..];
    }
  }

  lemma {:induction false} StrLeTransitive(a: string, b: string, c: string)
    requires StrLe(a, b) && StrLe(b, c)
    ensures StrLe(a, c)
    decreases |a|
  {
    if a != [] && a[0] == b[0] && b[0] == c[0] {
      StrLeTransitive(a[1..], b[1..], c[1..]);
    }
  }

  predicate Sorted(s: seq<string>) {
    forall i, j :: 0 <= i < j < |s| ==> StrLe(s[i], s[j])
  }

  predicate Distinct(s: seq<string>) {
    forall i, j :: 0 <= i < j < |s| ==> s[i] != s[j]
  }

  // ---------------------------------------------------------------- sort and dedupe

  function Insert(x: string, s: seq<string>): (r: seq<string>)
    ensures multiset(r) == multiset(s) + multiset{x}
    ensures forall y :: y in r <==> y == x || y in s
  {
    if s == [] then [x]
    else if StrLe(x, s[0]) then [x] + s
    else
      assert s == [s[0]] + s[1..];
      [s[0]] + Insert(x, s[1..])
  }

  lemma {:induction false} InsertSorted(x: string, s: seq<string>)
    requires Sorted(s)
    ensures Sorted(Insert(x, s))
  {
    if s != [] {
      if StrLe(x, s[0]) {
        forall j | 1 < j < |s| + 1
          ensures StrLe(x, ([x] + s)[j])
        {
          StrLeTransitive(x, s[0], s[j - 1]);
        }
      } else {
        StrLeTotal(x, s[0]);
        InsertSorted(x, s[1..]);
        var r := Insert(x, s[1..]);
        forall y | y in r
          ensures StrLe(s[0], y)
        {
        }
      }
    }
  }

  /** `.sort()`: insertion sort. */
  function Sort(s: seq<string>): (r: seq<string>)
    ensures multiset(r) == multiset(s)
    ensures forall y :: y in r <==> y in s
  {
    if s == [] then []
    else
      assert s == [s[0]] + s[1..];
      Insert(s[0], Sort(s[1..]))
  }

  lemma ConsDistinct(a: string, r: seq<string>)
    requires Distinct(r) && a !in r
    ensures Distinct([a] + r)
  {
    forall i, j | 0 <= i < j < |r| + 1
      ensures ([a] + r)[i] != ([a] + r)[j]
    {
      if i == 0 {
        assert ([a] + r)[j] == r[j - 1];
      } else {
        assert ([a] + r)[i] == r[i - 1] && ([a] + r)[j] == r[j - 1];
      }
    }
  }

  lemma {:induction false} InsertDistinct(x: string, s: seq<string>)
    requires Distinct(s) && x !in s
    ensures Distinct(Insert(x, s))
  {
    if s != [] {
      if StrLe(x, s[0]) {
        ConsDistinct(x, s);
      } else {
        assert Distinct(s[1..]) by {
          forall i, j | 0 <= i < j < |s[1..]|
            ensures s[1..][i] != s[1..][j]
          {
            assert s[1..][i] == s[i + 1] && s[1..][j] == s[j + 1];
          }
        }
        assert s[0] !in s[1..] by {
          forall k | 0 <= k < |s[1..]|
            ensures s[1..][k] != s[0]
          {
            assert s[1..][k] == s[k + 1];
          }
        }
        InsertDistinct(x, s[1..]);
        ConsDistinct(s[0], Insert(x, s[1..]));
      }
    }
  }

  /** Sorting keeps a list free of duplicates. */
  lemma {:induction false} SortDistinct(s: seq<string>)
    requires Distinct(s)
    ensures Distinct(Sort(s))
  {
    if s != [] {
      assert Distinct(s[1..]) by {
        forall i, j | 0 <= i < j < |s[1..]|
          ensures s[1..][i] != s[1..][j]
        {
          assert s[1..][i] == s[i + 1] && s[1..][j] == s[j + 1];
        }
      }
      assert s[0] !in s[1..] by {
        forall k | 0 <= k < |s[1..]|
          ensures s[1..][k] != s[0]
        {
          assert s[1..][k] == s[k + 1];
        }
      }
      SortDistinct(s[1..]);
      InsertDistinct(s[0], Sort(s[1..]));
    }
  }

  lemma {:induction false} SortSorted(s: seq<string>)
    ensures Sorted(Sort(s))
  {
    if s != [] {
      SortSorted(s[1..]);
      InsertSorted(s[0], Sort(s[1..]));
    }
  }

  /** A sorted list sorts to itself. */
  lemma {:induction false} SortOfSorted(s: seq<string>)
    requires Sorted(s)
    ensures Sort(s) == s
  {
    if s != [] {
      SortOfSorted(s[1..]);
      assert Sort(s[1..]) == s[1..];
      if |s| > 1 {
        assert StrLe(s[0], s[1]);
      }
      assert s == [s[0]] + s[1..];
    }
  }

  /** `[...new Set(s)]`: the first occurrence of each element, in order. */
  function Dedupe(s: seq<string>): (r: seq<string>)
    ensures forall x :: x in r <==> x in s
    ensures Distinct(r)
  {
    if s == [] then []
    else
      var d := Dedupe(s[..|s| - 1]);
      assert forall x :: x in s <==> x in s[..|s| - 1] || x == s[|s| - 1];
      if s[|s| - 1] in d then d else d + [s[|s| - 1]]
  }

  lemma {:induction false} DedupeDistinct(s: seq<string>)
    requires Distinct(s)
    ensures Dedupe(s) == s
  {
    if s != [] {
      var p := s[..|s| - 1];
      DedupeDistinct(p);
      assert s[|s| - 1] !in p;
      assert p + [s[|s| - 1]] == s;
    }
  }

  /** A sorted list without duplicates is in strict order, so the set of its elements
      fixes it. */
  lemma {:induction false} SortedDistinctUnique(s: seq<string>, t: seq<string>)
    requires Sorted(s) && Distinct(s) && Sorted(t) && Distinct(t)
    requires forall x :: x in s <==> x in t
    ensures s == t
    decreases |s|
  {
    assert s != [] ==> s[0] in t;
    assert t != [] ==> t[0] in s;
    if s != [] && t != [] {
      var i :| 0 <= i < |t| && t[i] == s[0];
      var j :| 0 <= j < |s| && s[j] == t[0];
      if i > 0 { assert StrLe(t[0], t[i]); }
      if j > 0 { assert StrLe(s[0], s[j]); }
      if i > 0 && j > 0 { StrLeAntisymmetric(s[0], t[0]); }
      assert s[0] == t[0];
      forall x
        ensures x in s[1..] <==> x in t[1..]
      {
        if x in s[1..] {
          var k :| 0 <= k < |s[1..]| && s[1..][k] == x;
          assert s[k + 1] == x && x != s[0];
          assert x in t;
          var m :| 0 <= m < |t| && t[m] == x;
          assert m != 0 && t[1..][m - 1] == x;
        }
        if x in t[1..] {
          var k :| 0 <= k < |t[1..]| && t[1..][k] == x;
          assert t[k + 1] == x && x != t[0];
          assert x in s;
          var m :| 0 <= m < |s| && s[m] == x;
          assert m != 0 && s[1..][m - 1] == x;
        }
      }
      SortedDistinctUnique(s[1..], t[1..]);
      assert s == [s[0]] + s[1..] && t == [t[0]] + t[1..];
    }
  }

  // ---------------------------------------------------------------- normalisation

  /** `.map(day => day.trim().toLowerCase()).filter(day => day.length > 0)`. */
  function Clean(parts: seq<string>): (r: seq<string>)
    ensures forall d :: d in r ==> d != ""
    ensures |r| <= |parts|
  {
    if parts == [] then []
    else
      var d := Lower(Trim(parts[0]));
      (if d != "" then [d] else []) + Clean(parts[1..])
  }

  /** The day names of a comma-separated frequency. */
  function DayNames(f: string): (r: seq<string>)
    ensures forall d :: d in r ==> d != ""
    ensures |r| <= |Split(f, ',')|
  {
    Clean(Split(f, ','))
  }

  /** `days.filter(day => !VALID_DAYS.includes(day))`. */
  function InvalidDays(days: seq<string>): (r: seq<string>)
    ensures forall d :: d in r <==> d in days && d !in VALID_DAYS
  {
    if days == [] then []
    else (if days[0] !in VALID_DAYS then [days[0]] else []) + InvalidDays(days[1..])
  }

  /** The stored value, or the names that are not days. */
  datatype Normalized = Schedule(value: string) | BadDays(names: seq<string>)

  function Normalize(f: string): (r: Normalized)
    ensures f == "daily" ==> r == Schedule("daily")
    ensures r.BadDays? <==> f != "daily" && exists d :: d in DayNames(f) && d !in VALID_DAYS
    ensures r.BadDays? ==> r.names != [] && forall d :: d in r.names <==> d in DayNames(f) && d !in VALID_DAYS
    ensures r.BadDays? ==> r.names == InvalidDays(DayNames(f))
  {
    if f == "daily" then Schedule("daily")
    else
      var days := DayNames(f);
      var bad := InvalidDays(days);
      if bad != [] then
        assert bad[0] in bad;
        BadDays(bad)
      else Schedule(Join(Sort(Dedupe(days)), ","))
  }

  /** What a day list is stored as: its distinct days in sorted order. */
  lemma NormalizedDays(f: string)
    requires f != "daily" && Normalize(f).Schedule?
    ensures var parts := Sort(Dedupe(DayNames(f)));
            && Normalize(f).value == Join(parts, ",")
            && Sorted(parts) && Distinct(parts)
            && (forall d :: d in parts <==> d in DayNames(f))
            && (forall d :: d in parts ==> d in VALID_DAYS)
  {
    var days := DayNames(f);
    SortSorted(Dedupe(days));
    SortDistinct(Dedupe(days));
    assert InvalidDays(days) == [];
    assert forall d :: d in days ==> d in VALID_DAYS by {
      assert forall d :: d in days && d !in VALID_DAYS ==> d in InvalidDays(days);
    }
  }

  /** The facts about a valid day name that normalisation uses. */
  lemma ValidDayShape(d: string)
    requires d in VALID_DAYS
    ensures d != "" && d != "daily" && ',' !in d && NoSpace(d) && IsLowerCase(d)
  {
  }

  lemma {:induction false} CleanValid(parts: seq<string>)
    requires forall d :: d in parts ==> d in VALID_DAYS
    ensures Clean(parts) == parts
  {
    if parts != [] {
      ValidDayShape(parts[0]);
      TrimNoSpace(parts[0]);
      LowerKeepsLowerCase(parts[0]);
      CleanValid(parts[1..]);
      assert parts == [parts[0]] + parts[1..];
    }
  }

  /** No frequency names a day when there is none to name. */
  lemma DayNamesOfEmpty()
    ensures DayNames("") == []
  {
    assert Split("", ',') == [""];
    assert TrimStart("") == "" && Trim("") == "";
    assert Lower("") == "";
    assert [""][1..] == [];
    assert Clean([""]) == Clean([]);
  }

  /** A joined list of valid days is never the keyword `daily`. */
  lemma JoinNotDaily(parts: seq<string>)
    requires forall d :: d in parts ==> d in VALID_DAYS
    ensures Join(parts, ",") != "daily"
  {
    if |parts| == 1 {
      assert parts[0] in parts;
      ValidDayShape(parts[0]);
      assert Join(parts, ",") == parts[0];
    } else if |parts| > 1 {
      JoinHasSeparator(parts, ',');
      assert ',' !in "daily";
    }
  }

  /** The day names of a joined list of valid days are that list. */
  lemma DayNamesOfJoin(parts: seq<string>)
    requires forall d :: d in parts ==> d in VALID_DAYS
    ensures DayNames(Join(parts, ",")) == parts
  {
    if parts == [] {
      DayNamesOfEmpty();
    } else {
      assert forall k :: 0 <= k < |parts| ==> ',' !in parts[k] by {
        forall k | 0 <= k < |parts| ensures ',' !in parts[k] {
          assert parts[k] in parts;
          ValidDayShape(parts[k]);
        }
      }
      SplitJoin(parts, ',');
      CleanValid(parts);
    }
  }

  /** A list of valid days names no invalid one. */
  lemma {:induction false} NoInvalidDays(days: seq<string>)
    requires forall d :: d in days ==> d in VALID_DAYS
    ensures InvalidDays(days) == []
  {
    if days != [] {
      assert days[0] in days;
      NoInvalidDays(days[1..]);
    }
  }

  /** A sorted list of distinct valid days, joined, is stored as it is. */
  lemma NormalizeOfJoin(parts: seq<string>)
    requires Sorted(parts) && Distinct(parts)
    requires forall d :: d in parts ==> d in VALID_DAYS
    ensures Normalize(Join(parts, ",")) == Schedule(Join(parts, ","))
  {
    DayNamesOfJoin(parts);
    JoinNotDaily(parts);
    NoInvalidDays(parts);
    DedupeDistinct(parts);
    SortOfSorted(parts);
  }

  /** A stored value normalises to itself, so submitting it again changes nothing. */
  lemma NormalizeIdempotent(f: string)
    requires Normalize(f).Schedule?
    ensures Normalize(Normalize(f).value) == Normalize(f)
  {
    if f != "daily" {
      NormalizedDays(f);
      NormalizeOfJoin(Sort(Dedupe(DayNames(f))));
    }
  }

  /** A frequency of only commas and blanks names no day and is stored as the empty
      string. */
  lemma OnlySeparators(f: string)
    requires f != "" && forall i :: 0 <= i < |f| ==> f[i] == ',' || IsSpace(f[i])
    ensures Normalize(f) == Schedule("")
  {
    assert f != "daily" by { assert f[0] != 'd'; }
    SplitAll(f);
    assert InvalidDays([]) == [] && Sort(Dedupe([])) == [] && Join([], ",") == "";
  }

  /** Every piece between the commas of such a string trims to nothing. */
  lemma {:induction false} SplitAll(f: string)
    requires forall i :: 0 <= i < |f| ==> f[i] == ',' || IsSpace(f[i])
    ensures DayNames(f) == []
    decreases |f|
  {
    if ',' !in f {
      BlankTrims(f);
    } else {
      var i := IndexOf(f, ',');
      BlankTrims(f[..i]);
      SplitAll(f[i + 1..]);
      assert Split(f, ',') == [f[..i]] + Split(f[i + 1..], ',');
    }
  }

  lemma BlankTrims(s: string)
    requires forall i :: 0 <= i < |s| ==> s[i] == ',' || IsSpace(s[i])
    requires ',' !in s
    ensures Clean([s]) == []
  {
    assert forall i :: 0 <= i < |s| ==> IsSpace(s[i]);
    assert TrimStart(s) == [];
  }

  /** A single name that trims and lower-cases to `"daily"` but is not exactly `"daily"`
      (such as `"Daily"` or `" daily"`) is rejected as an invalid day. */
  lemma DailyOnlyExact(f: string)
    requires f != "daily" && ',' !in f && Lower(Trim(f)) == "daily"
    ensures Normalize(f) == BadDays(["daily"])
  {
    assert Split(f, ',') == [f];
    assert Clean([f]) == [Lower(Trim(f))] + Clean([]);
    assert DayNames(f) == ["daily"];
    assert "daily" !in VALID_DAYS;
  }

  // ---------------------------------------------------------------- the endpoint

  /** A reply: its status and the error text or the stored frequency. */
  datatype Reply = Reply(status: int, message: string)

  /** The decision taken before the database is queried. */
  datatype Check = Stop(reply: Reply) | Go(email: string, value: string)

  /** `verb` is the request method; `body` the fields `email` and `frequency` of the JSON
      body, or `None` when it is not JSON (the handler's catch answers 500). */
  function Validate(verb: string, body: Option<(Option<string>, Option<string>)>): (c: Check)
    ensures verb == "OPTIONS" ==> c == Stop(Reply(200, "ok"))
    ensures verb != "OPTIONS" && verb != "POST" ==> c == Stop(Reply(405, "Method not allowed"))
    ensures c.Go? <==> verb == "POST" && body.Some? && Truthy(body.value.0) && IsEmail(body.value.0.value)
                       && Truthy(body.value.1) && Normalize(body.value.1.value).Schedule?
    ensures c.Go? ==> c.email == body.value.0.value && c.value == Normalize(body.value.1.value).value
    ensures c.Stop? && c.reply.status == 400 ==> verb == "POST" && body.Some?
    ensures verb == "POST" && body.None? ==> c == Stop(Reply(500, "Internal server error"))
    ensures verb == "POST" && body.Some? ==>
              var (email, frequency) := body.value;
              && (!Truthy(email) ==> c == Stop(Reply(400, "Missing email parameter")))
              && (Truthy(email) && !IsEmail(email.value) ==> c == Stop(Reply(400, "Invalid email format")))
              && (Truthy(email) && IsEmail(email.value) && !Truthy(frequency) ==>
                    c == Stop(Reply(400, "Missing frequency parameter")))
              && (Truthy(email) && IsEmail(email.value) && Truthy(frequency) && Normalize(frequency.value).BadDays? ==>
                    c == Stop(Reply(400, "Invalid day names: " + Join(InvalidDays(DayNames(frequency.value)), ", "))))
  {
    if verb == "OPTIONS" then Stop(Reply(200, "ok"))
    else if verb != "POST" then Stop(Reply(405, "Method not allowed"))
    else if body.None? then Stop(Reply(500, "Internal server error"))
    else
      var (email, frequency) := body.value;
      if !Truthy(email) then Stop(Reply(400, "Missing email parameter"))
      else if !IsEmail(email.value) then Stop(Reply(400, "Invalid email format"))
      else if !Truthy(frequency) then Stop(Reply(400, "Missing frequency parameter"))
      else match Normalize(frequency.value)
        case BadDays(names) => Stop(Reply(400, "Invalid day names: " + Join(names, ", ")))
        case Schedule(v) => Go(email.value, v)
  }

  /** The endpoint: `lookupFails` and `updateFails` are database errors. */
  method UpdateFrequency(db: Store, verb: string, body: Option<(Option<string>, Option<string>)>,
                         lookupFails: bool, updateFails: bool)
      returns (reply: Reply)
    requires db.Valid()
    modifies db`users
    ensures db.Valid()
    ensures var c := Validate(verb, body);
            && (c.Stop? ==> reply == c.reply && db.users == old(db.users))
            && (c.Go? && (lookupFails || WithEmail(old(db.users), c.email) == {}) ==>
                  reply == Reply(404, "User not found") && db.users == old(db.users))
            && (c.Go? && !lookupFails && WithEmail(old(db.users), c.email) != {} && updateFails ==>
                  reply == Reply(500, "Failed to update frequency preference") && db.users == old(db.users))
            && (c.Go? && !lookupFails && WithEmail(old(db.users), c.email) != {} && !updateFails ==>
                  && reply == Reply(200, c.value)
                  && exists u :: WithEmail(old(db.users), c.email) == {u}
                              && db.users == old(db.users)[u := old(db.users)[u].(frequency := Some(c.value))])
  {
    var c := Validate(verb, body);
    if c.Stop? {
      return c.reply;
    }
    var found := WithEmail(db.users, c.email);
    if lookupFails || found == {} {
      return Reply(404, "User not found");
    }
    if updateFails {
      return Reply(500, "Failed to update frequency preference");
    }
    var u :| u in found;
    WithEmailAtMostOne(db.users, c.email, u);
    db.UpdateUser(u, db.users[u].(frequency := Some(c.value)));
    reply := Reply(200, c.value);
  }
}
