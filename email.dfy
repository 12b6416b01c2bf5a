/**
 * The email-shape test `/^[^\s@]+@[^\s@]+\.[^\s@]+$/.test(s)` shared by the
 * callback and the preference handlers: a deterministic automaton that reads the
 * string once, and a proof that it accepts exactly the strings the regular
 * expression matches.
 */
module EmailShape {
  import opened Text

  /** A character of the class `[^\s@]`. */
  predicate Plain(c: char) {
    !IsSpace(c) && c != '@'
  }

  /** `s` matches the expression with the `@` at index `at` and the literal `.` at index
      `dot`: `s[..at]`, `s[at+1..dot]` and `s[dot+1..]` are the three `[^\s@]+` groups. */
  predicate SplitAt(s: string, at: int, dot: int) {
    && 0 < at && at + 1 < dot && dot + 1 < |s|
    && s[at] == '@' && s[dot] == '.'
    && forall k :: 0 <= k < |s| && k != at ==> Plain(s[k])
  }

  /** What the regular expression matches. */
  ghost predicate Matches(s: string) {
    exists at, dot :: SplitAt(s, at, dot)
  }

  // ---------------------------------------------------------------- the automaton

  /** States after reading a prefix: `Start`; `Local` (a non-empty local part);
      `AtSign` (just after the `@`); `Domain` (domain characters, no usable dot yet);
      `Dot` (the last character is the first usable dot); `Tail` (a usable dot with at
      least one character after it: accepting); `Dead`. */
  datatype State = Start | Local | AtSign | Domain | Dot | Tail | Dead

  function Step(q: State, c: char): State {
    if IsSpace(c) then Dead
    else
      match q
      case Start => if c == '@' then Dead else Local
      case Local => if c == '@' then AtSign else Local
      case AtSign => if c == '@' then Dead else Domain
      case Domain => if c == '@' then Dead else if c == '.' then Dot else Domain
      case Dot => if c == '@' then Dead else Tail
      case Tail => if c == '@' then Dead else Tail
      case Dead => Dead
  }

  /** The state after reading all of `s`. */
  function Run(s: string): State {
    if s == [] then Start else Step(Run(s[..|s| - 1]), s[|s| - 1])
  }

  /** `emailRegex.test(s)`. */
  function IsEmail(s: string): (b: bool)
    ensures b ==> |s| > 0 && Plain(s[|s| - 1])
  {
    Run(s) == Tail
  }

  // ---------------------------------------------------------------- what each state means

  /** The prefix has its only `@` at `at`, at least one character on each side of it,
      and every other character plain. */
  predicate AtPart(p: string, at: int) {
    && 0 < at && at + 1 < |p| && p[at] == '@'
    && forall k :: 0 <= k < |p| && k != at ==> Plain(p[k])
  }

  /** `p` contains no `.` at an index in `[lo, hi)`. */
  predicate NoDotIn(p: string, lo: int, hi: int)
    requires 0 <= lo && hi <= |p|
  {
    forall k :: lo <= k < hi ==> p[k] != '.'
  }

  /** No string starting with `p` matches. */
  ghost predicate Hopeless(p: string) {
    forall t :: !Matches(p + t)
  }

  ghost predicate Means(p: string, q: State) {
    match q
    case Start => p == []
    case Local => p != [] && forall k :: 0 <= k < |p| ==> Plain(p[k])
    case AtSign =>
      |p| >= 2 && p[|p| - 1] == '@' && forall k :: 0 <= k < |p| - 1 ==> Plain(p[k])
    case Domain => exists at :: AtPart(p, at) && NoDotIn(p, at + 2, |p|)
    case Dot =>
      exists at :: AtPart(p, at) && at + 2 < |p| && p[|p| - 1] == '.' && NoDotIn(p, at + 2, |p| - 1)
    case Tail => exists at, dot :: SplitAt(p, at, dot)
    case Dead => Hopeless(p)
  }

  /** A split has plain characters everywhere except at its one `@`. */
  lemma NoSplitAround(s: string, at: int, dot: int, k: int)
    requires 0 <= k < |s| && !Plain(s[k]) && k != at
    ensures !SplitAt(s, at, dot)
  {
  }

  /** A space, or an `@` that cannot be the one `@` of a match, makes the prefix hopeless. */
  lemma HopelessAt(p: string, k: int)
    requires 0 <= k < |p|
    requires IsSpace(p[k]) || (p[k] == '@' && (k == 0 || exists j :: 0 <= j < |p| && j != k && p[j] == '@'))
    ensures Hopeless(p)
  {
    forall t
      ensures !Matches(p + t)
    {
      var s := p + t;
      assert s[k] == p[k];
      forall at, dot
        ensures !SplitAt(s, at, dot)
      {
        if at != k {
          NoSplitAround(s, at, dot, k);
        } else if !IsSpace(p[k]) && k != 0 {
          var j :| 0 <= j < |p| && j != k && p[j] == '@';
          assert s[j] == p[j];
          NoSplitAround(s, at, dot, j);
        }
      }
    }
  }

  lemma HopelessExtends(p: string, c: char)
    requires Hopeless(p)
    ensures Hopeless(p + [c])
  {
    forall t
      ensures !Matches(p + [c] + t)
    {
      assert p + [c] + t == p + ([c] + t);
    }
  }

  /** Reading one more character keeps the meaning of the state. */
  lemma {:induction false} StepMeans(p: string, q: State, c: char)
    requires Means(p, q)
    ensures Means(p + [c], Step(q, c))
  {
    var p' := p + [c];
    assert forall k :: 0 <= k < |p| ==> p'[k] == p[k];
    assert p'[|p|] == c;
    if IsSpace(c) {
      HopelessAt(p', |p|);
      return;
    }
    match q
    case Start =>
      if c == '@' { HopelessAt(p', 0); }
    case Local =>
    case AtSign =>
      if c == '@' {
        HopelessAt(p', |p|);
      } else {
        var at := |p| - 1;
        assert AtPart(p', at);
        assert NoDotIn(p', at + 2, |p'|);
      }
    case Domain =>
      var at :| AtPart(p, at) && NoDotIn(p, at + 2, |p|);
      if c == '@' {
        HopelessAt(p', |p|);
      } else if c == '.' {
        assert AtPart(p', at);
        assert NoDotIn(p', at + 2, |p'| - 1);
      } else {
        assert AtPart(p', at);
        assert NoDotIn(p', at + 2, |p'|);
      }
    case Dot =>
      var at :| AtPart(p, at) && at + 2 < |p| && p[|p| - 1] == '.' && NoDotIn(p, at + 2, |p| - 1);
      if c == '@' {
        HopelessAt(p', |p|);
      } else {
        assert SplitAt(p', at, |p| - 1);
      }
    case Tail =>
      var at, dot :| SplitAt(p, at, dot);
      if c == '@' {
        HopelessAt(p', |p|);
      } else {
        assert SplitAt(p', at, dot);
      }
    case Dead =>
      HopelessExtends(p, c);
  }

  /** The state reached on `s` means what its name says. */
  lemma {:induction false} RunMeans(s: string)
    ensures Means(s, Run(s))
  {
    if s != [] {
      var p := s[..|s| - 1];
      RunMeans(p);
      StepMeans(p, Run(p), s[|s| - 1]);
      assert p + [s[|s| - 1]] == s;
    }
  }

  /** No state other than `Tail` is compatible with a match. */
  lemma NotTailNoMatch(s: string, q: State)
    requires Means(s, q) && q != Tail
    ensures !Matches(s)
  {
    forall at, dot
      ensures !SplitAt(s, at, dot)
    {
      match q
      case Start =>
      case Local =>
        if 0 <= at < |s| { assert Plain(s[at]); }
      case AtSign =>
        if 0 <= at < |s| - 1 { assert Plain(s[at]); }
      case Domain =>
        var a :| AtPart(s, a) && NoDotIn(s, a + 2, |s|);
        if a != at {
          NoSplitAround(s, at, dot, a);
        } else if at + 1 < dot < |s| {
          assert s[dot] != '.';
        }
      case Dot =>
        var a :| AtPart(s, a) && a + 2 < |s| && s[|s| - 1] == '.' && NoDotIn(s, a + 2, |s| - 1);
        if a != at {
          NoSplitAround(s, at, dot, a);
        } else if at + 1 < dot < |s| - 1 {
          assert s[dot] != '.';
        }
      case Dead =>
        assert s + [] == s;
        assert !Matches(s + []);
    }
  }

  /** The automaton accepts exactly the strings the regular expression matches. */
  lemma IsEmailIffMatches(s: string)
    ensures IsEmail(s) <==> Matches(s)
  {
    RunMeans(s);
    if Run(s) != Tail {
      NotTailNoMatch(s, Run(s));
    }
  }

  /** An accepted address splits into local part, `@`, domain, `.` and a last part,
      none of them empty and none holding a blank or another `@`. */
  lemma IsEmailSplits(s: string)
    requires IsEmail(s)
    ensures exists at, dot :: SplitAt(s, at, dot)
  {
    IsEmailIffMatches(s);
  }

  /** Any such split is accepted. */
  lemma SplitIsEmail(s: string, at: int, dot: int)
    requires SplitAt(s, at, dot)
    ensures IsEmail(s)
  {
    IsEmailIffMatches(s);
  }

  /** Accepted addresses are never empty, hold exactly one `@`, and have no blank. */
  lemma IsEmailBasics(s: string)
    requires IsEmail(s)
    ensures |s| >= 5 && '@' in s && NoSpace(s)
    ensures exists at :: 0 <= at < |s| && s[at] == '@' && forall k :: 0 <= k < |s| && s[k] == '@' ==> k == at
  {
    IsEmailIffMatches(s);
    var at, dot :| SplitAt(s, at, dot);
    assert s[at] == '@';
    assert forall k :: 0 <= k < |s| && s[k] == '@' ==> k == at;
    forall k | 0 <= k < |s|
      ensures !IsSpace(s[k])
    {
      if k != at {
        assert Plain(s[k]);
      }
    }
  }
}
