/** The string helpers of the `utils` package: durations written like
    `1d2h30m`, and `HHhMM` times turned into cron expressions. */
module Util {
  import opened Wire
  import opened GoStrings

  const MAX_INT64: int := 0x7fff_ffff_ffff_ffff
  const U64_MOD: int := 0x1_0000_0000_0000_0000

  /** Nanoseconds per unit, as `time.Duration` counts them. */
  const MINUTE: int := 60_000_000_000
  const HOUR: int := 60 * MINUTE
  const DAY: int := 24 * HOUR

  /** The error `TimeStringToCron` gives for a malformed time. */
  const INVALID_TIME: string := "Chuỗi không hợp lệ"

  /** `\d` of Go's regexp: an ASCII digit. */
  predicate IsDigit(c: char)
  {
    '0' <= c <= '9'
  }

  /** `[dhm]`. */
  predicate IsUnit(c: char)
  {
    c == 'd' || c == 'h' || c == 'm'
  }

  predicate AllDigits(s: string)
  {
    forall i | 0 <= i < |s| :: IsDigit(s[i])
  }

  /** One submatch of `(\d+)([dhm])`: the digits and the unit. */
  datatype Match = Match(digits: string, unit: char)

  /** The length of the run of digits at the front of `s`. */
  function DigitRun(s: string): (n: nat)
    ensures n <= |s|
    ensures AllDigits(s[..n])
    ensures n < |s| ==> !IsDigit(s[n])
  {
    if s == [] || !IsDigit(s[0]) then 0
    else
      var n := 1 + DigitRun(s[1..]);
      assert s[..n] == [s[0]] + s[1..][..n - 1];
      n
  }

  /** `FindAllStringSubmatch` of `(\d+)([dhm])`, left to right. A match
      starts at the first digit of a run, since every later digit of the
      run is followed by a digit; so the matches are the whole digit runs
      directly followed by a unit. */
  function Matches(s: string): (ms: seq<Match>)
    ensures forall i | 0 <= i < |ms| :: ms[i].digits != [] && AllDigits(ms[i].digits) && IsUnit(ms[i].unit)
    decreases |s|
  {
    if s == [] then []
    else if !IsDigit(s[0]) then Matches(s[1..])
    else
      var n := DigitRun(s);
      if n < |s| && IsUnit(s[n]) then [Match(s[..n], s[n])] + Matches(s[n + 1..])
      else Matches(s[n..])
  }

  /** The value of a string of decimal digits. */
  function DecimalValue(s: string): nat
    requires AllDigits(s)
  {
    if s == [] then 0 else 10 * DecimalValue(s[..|s| - 1]) + (s[|s| - 1] as int - '0' as int)
  }

  /** `strconv.Atoi` on a string of digits: it fails only when the value
      does not fit a 64-bit int. */
  function Atoi(s: string): (r: Result<int>)
    requires AllDigits(s)
    ensures r.Ok? <==> DecimalValue(s) <= MAX_INT64
    ensures r.Ok? ==> r.value == DecimalValue(s)
  {
    if DecimalValue(s) <= MAX_INT64 then Ok(DecimalValue(s))
    else Err("strconv.Atoi: parsing \"" + s + "\": value out of range")
  }

  function UnitNanos(u: char): (nanos: int)
    ensures IsUnit(u) <==> nanos > 0
    ensures u == 'd' ==> nanos == 24 * HOUR
    ensures u == 'h' ==> nanos == HOUR
    ensures u == 'm' ==> nanos == MINUTE
  {
    if u == 'd' then DAY else if u == 'h' then HOUR else if u == 'm' then MINUTE else 0
  }

  /** The exact duration the matches stand for. */
  function Total(ms: seq<Match>): (total: int)
    requires forall i | 0 <= i < |ms| :: AllDigits(ms[i].digits)
    ensures total >= 0
    ensures forall i | 0 <= i < |ms| :: total >= DecimalValue(ms[i].digits) * UnitNanos(ms[i].unit)
  {
    if ms == [] then 0
    else Total(ms[..|ms| - 1]) + DecimalValue(ms[|ms| - 1].digits) * UnitNanos(ms[|ms| - 1].unit)
  }

  /** Some match's digits do not fit a 64-bit int. */
  predicate Overflows(ms: seq<Match>)
    requires forall i | 0 <= i < |ms| :: AllDigits(ms[i].digits)
  {
    exists i | 0 <= i < |ms| :: DecimalValue(ms[i].digits) > MAX_INT64
  }

  /** The int64 that Go's wrapping arithmetic leaves for `x`. */
  function Wrap64(x: int): (r: int)
    ensures -MAX_INT64 - 1 <= r <= MAX_INT64
    ensures -MAX_INT64 - 1 <= x <= MAX_INT64 ==> r == x
  {
    (x + MAX_INT64 + 1) % U64_MOD - MAX_INT64 - 1
  }

  /** `ParseDurationString`: the sum over all matches of the number times
      its unit, or the first `Atoi` error. */
  method ParseDurationString(durationStr: string) returns (duration: int, err: Option<string>)
    ensures err.Some? <==> Overflows(Matches(durationStr))
    ensures err.Some? ==> duration == 0
    ensures err.None? ==> duration == Wrap64(Total(Matches(durationStr)))
  {
    var matches := Matches(durationStr);
    var total := 0;
    for i := 0 to |matches|
      invariant total == Total(matches[..i])
      invariant !Overflows(matches[..i])
    {
      assert matches[..i + 1][..i] == matches[..i];
      var value := Atoi(matches[i].digits);
      if value.Err? {
        assert DecimalValue(matches[i].digits) > MAX_INT64;
        return 0, Some(value.msg);
      }
      var unit := matches[i].unit;
      if unit == 'd' {
        total := total + value.value * 24 * HOUR;
      } else if unit == 'h' {
        total := total + value.value * HOUR;
      } else if unit == 'm' {
        total := total + value.value * MINUTE;
      }
    }
    assert matches[..|matches|] == matches;
    return Wrap64(total), None;
  }

  /** A digit run directly followed by a unit is one match. */
  lemma MatchRun(digits: string, u: char, rest: string)
    requires digits != [] && AllDigits(digits) && IsUnit(u)
    ensures Matches(digits + [u] + rest) == [Match(digits, u)] + Matches(rest)
  {
    var s := digits + [u] + rest;
    RunOf(digits, [u] + rest);
    assert s == digits + ([u] + rest);
    assert s[..|digits|] == digits;
    assert s[|digits| + 1..] == rest;
  }

  /** A digit run followed by anything but a digit or a unit matches
      nothing. */
  lemma SkipRun(digits: string, c: char, rest: string)
    requires digits != [] && AllDigits(digits) && !IsDigit(c) && !IsUnit(c)
    ensures Matches(digits + [c] + rest) == Matches([c] + rest)
  {
    var s := digits + [c] + rest;
    RunOf(digits, [c] + rest);
    assert s == digits + ([c] + rest);
    assert s[|digits|..] == [c] + rest;
  }

  /** The run at the front of `digits + rest` is `digits` when `rest` does
      not start with a digit. */
  lemma {:induction false} RunOf(digits: string, rest: string)
    requires AllDigits(digits)
    requires rest == [] || !IsDigit(rest[0])
    ensures DigitRun(digits + rest) == |digits|
  {
    if digits != [] {
      assert (digits + rest)[1..] == digits[1..] + rest;
      RunOf(digits[1..], rest);
    }
  }

  /** Scanning restarts cleanly after a non-digit, so the matches of two
      pieces are the matches of each. */
  lemma {:induction false} MatchesConcat(a: string, b: string)
    requires a == [] || !IsDigit(a[|a| - 1])
    ensures Matches(a + b) == Matches(a) + Matches(b)
    decreases |a|
  {
    if a == [] {
      assert a + b == b;
    } else if !IsDigit(a[0]) {
      assert (a + b)[1..] == a[1..] + b;
      MatchesConcat(a[1..], b);
    } else {
      var n := DigitRun(a);
      SplitAtRun(a, b);
      if IsUnit(a[n]) {
        MatchesConcat(a[n + 1..], b);
        UnfoldMatch(a + b, n);
        UnfoldMatch(a, n);
        AppendAssoc([Match(a[..n], a[n])], Matches(a[n + 1..]), Matches(b));
      } else {
        MatchesConcat(a[n..], b);
        UnfoldSkip(a + b, n);
        UnfoldSkip(a, n);
      }
    }
  }

  lemma UnfoldMatch(s: string, n: nat)
    requires s != [] && IsDigit(s[0]) && n == DigitRun(s) && n < |s| && IsUnit(s[n])
    ensures Matches(s) == [Match(s[..n], s[n])] + Matches(s[n + 1..])
  {
  }

  lemma UnfoldSkip(s: string, n: nat)
    requires s != [] && IsDigit(s[0]) && n == DigitRun(s) && n < |s| && !IsUnit(s[n])
    ensures Matches(s) == Matches(s[n..])
  {
  }

  /** How `a + b` looks around the run at the front of `a`, when `a` ends
      in a non-digit. */
  lemma SplitAtRun(a: string, b: string)
    requires a != [] && IsDigit(a[0]) && !IsDigit(a[|a| - 1])
    ensures var n := DigitRun(a);
      && n < |a| && DigitRun(a + b) == n
      && (a + b)[..n] == a[..n] && (a + b)[n] == a[n]
      && (a + b)[n + 1..] == a[n + 1..] + b && (a + b)[n..] == a[n..] + b
  {
    var n := DigitRun(a);
    assert n < |a|;
    RunOf(a[..n], a[n..] + b);
    assert a + b == a[..n] + (a[n..] + b);
  }

  /** Some digit is directly followed by a unit. */
  predicate DigitBeforeUnit(s: string)
  {
    exists i | 0 < i < |s| :: IsDigit(s[i - 1]) && IsUnit(s[i])
  }

  /** Input has a match exactly when some digit is directly followed by a
      unit. */
  lemma {:induction false} NoMatch(s: string)
    ensures Matches(s) == [] <==> !DigitBeforeUnit(s)
    decreases |s|
  {
    if s != [] {
      if !IsDigit(s[0]) {
        NoMatch(s[1..]);
        ShiftFrom(s, 1);
      } else {
        var n := DigitRun(s);
        assert IsDigit(s[..n][n - 1]);
        if n < |s| && IsUnit(s[n]) {
          assert IsDigit(s[n - 1]) && IsUnit(s[n]);
        } else {
          NoMatch(s[n..]);
          forall i | 0 < i <= n && i < |s| ensures !(IsDigit(s[i - 1]) && IsUnit(s[i])) {
            if i < n {
              assert s[..n][i] == s[i];
            }
          }
          ShiftFrom(s, n);
        }
      }
    }
  }

  /** Input with no digit directly followed by a unit parses without
      error to a zero duration. */
  lemma NoDuration(s: string)
    requires !DigitBeforeUnit(s)
    ensures !Overflows(Matches(s)) && Wrap64(Total(Matches(s))) == 0
  {
    NoMatch(s);
  }

  /** When no digit-unit pair sits in the first `n` positions, dropping
      them keeps every pair there is. */
  lemma ShiftFrom(s: string, n: nat)
    requires 1 <= n <= |s|
    requires forall i | 0 < i <= n && i < |s| :: !(IsDigit(s[i - 1]) && IsUnit(s[i]))
    ensures DigitBeforeUnit(s) <==> DigitBeforeUnit(s[n..])
  {
    var t := s[n..];
    if DigitBeforeUnit(s) {
      var i :| 0 < i < |s| && IsDigit(s[i - 1]) && IsUnit(s[i]);
      assert t[i - n - 1] == s[i - 1] && t[i - n] == s[i];
    }
    if DigitBeforeUnit(t) {
      var j :| 0 < j < |t| && IsDigit(t[j - 1]) && IsUnit(t[j]);
      assert s[j + n - 1] == t[j - 1] && s[j + n] == t[j];
    }
  }

  /** The units add up: the duration of two pieces is the sum of theirs,
      so a repeated unit counts twice (`1h1h` is two hours). */
  lemma {:induction false} TotalConcat(ms: seq<Match>, ns: seq<Match>)
    requires forall i | 0 <= i < |ms| :: AllDigits(ms[i].digits)
    requires forall i | 0 <= i < |ns| :: AllDigits(ns[i].digits)
    ensures Total(ms + ns) == Total(ms) + Total(ns)
  {
    if ns == [] {
      assert ms + ns == ms;
    } else {
      assert (ms + ns)[..|ms + ns| - 1] == ms + ns[..|ns| - 1];
      assert (ms + ns)[|ms + ns| - 1] == ns[|ns| - 1];
      TotalConcat(ms, ns[..|ns| - 1]);
    }
  }

  /** Writing a duration twice doubles it: units accumulate rather than
      overwrite. */
  lemma Repeated(s: string)
    requires s == [] || !IsDigit(s[|s| - 1])
    ensures Total(Matches(s + s)) == 2 * Total(Matches(s))
  {
    MatchesConcat(s, s);
    TotalConcat(Matches(s), Matches(s));
  }

  /** `1h1h` lasts two hours. */
  lemma RepeatedUnit()
    ensures Total(Matches("1h1h")) == 2 * HOUR
  {
    var oneHour: string := "1h";
    assert "1h1h" == oneHour + oneHour;
    Repeated(oneHour);
    OneHour();
  }

  lemma OneHour()
    ensures Total(Matches("1h")) == HOUR
  {
    MatchRun("1", 'h', "");
    assert "1h" == "1" + ['h'] + "";
    assert DecimalValue("1") == 1;
  }

  /** `5s` lasts nothing: `s` is not a unit. */
  lemma UnknownUnit()
    ensures Matches("5s") == []
  {
    SkipRun("5", 's', "");
    assert "5s" == "5" + ['s'] + "";
  }

  /** `TimeStringToCron`: `HHhMM` becomes `0 MM HH * * *`; anything with
      other than exactly one `h` is an error. */
  function TimeStringToCron(timeString: string): (r: Result<string>)
    ensures r.Ok? <==> Count(timeString, 'h') == 1
  {
    var parts := Split(timeString, 'h');
    SplitCount(timeString, 'h');
    if |parts| != 2 then Err(INVALID_TIME)
    else
      var hour := parts[0];
      var minute := parts[1];
      Ok("0 " + minute + " " + hour + " * * *")
  }

  /** The hour is what precedes the `h` and the minute what follows it;
      neither is checked to be a number. */
  lemma CronOf(hour: string, minute: string)
    requires 'h' !in hour && 'h' !in minute
    ensures TimeStringToCron(hour + "h" + minute) == Ok("0 " + minute + " " + hour + " * * *")
  {
    SplitAround(hour, 'h', minute);
  }

  /** A well-formed time is read back from its cron expression: cutting the
      expression at its spaces gives `0`, the minute, the hour and three
      stars, when the hour and minute hold no space. */
  lemma CronFields(hour: string, minute: string)
    requires 'h' !in hour && 'h' !in minute && ' ' !in hour && ' ' !in minute
    ensures TimeStringToCron(hour + "h" + minute).Ok?
    ensures Split(TimeStringToCron(hour + "h" + minute).value, ' ') == ["0", minute, hour, "*", "*", "*"]
  {
    CronOf(hour, minute);
    var cron := "0 " + minute + " " + hour + " * * *";
    assert cron == "0" + [' '] + (minute + [' '] + (hour + [' '] + ("*" + [' '] + ("*" + [' '] + "*"))));
    SplitAround("*", ' ', "*");
    SplitCons("*", "*" + [' '] + "*", ' ', ["*", "*"]);
    SplitCons(hour, "*" + [' '] + ("*" + [' '] + "*"), ' ', ["*", "*", "*"]);
    SplitCons(minute, hour + [' '] + ("*" + [' '] + ("*" + [' '] + "*")), ' ', [hour, "*", "*", "*"]);
    SplitCons("0", minute + [' '] + (hour + [' '] + ("*" + [' '] + ("*" + [' '] + "*"))), ' ', [minute, hour, "*", "*", "*"]);
  }

  /** A piece without the separator, then the separator, then the rest:
      the piece comes first. */
  lemma {:induction false} SplitCons(a: string, b: string, sep: char, rest: seq<string>)
    requires sep !in a && Split(b, sep) == rest
    ensures Split(a + [sep] + b, sep) == [a] + rest
  {
    if a == [] {
      assert a + [sep] + b == [sep] + b;
      assert ([sep] + b)[1..] == b;
    } else {
      assert (a + [sep] + b)[1..] == a[1..] + [sep] + b;
      SplitCons(a[1..], b, sep, rest);
      assert [a[0]] + a[1..] == a;
    }
  }
}
