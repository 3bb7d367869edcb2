/** What descriptions of durations mean, told from the text: numbers in base 10, with
    signs, leading zeros and white space, and the names of the units. */
module Durations {
  import opened Basics
  import opened Text
  import opened Time

  // ---------------------------------------------------------------------------
  // Numbers
  // ---------------------------------------------------------------------------

  function DigitOf(n: nat): char
    requires n < 10
  {
    '0' + n as char
  }

  /** A number in base 10, by division. */
  function Digits(n: nat): (s: string)
    ensures s != "" && AllDigits(s)
  {
    if n < 10 then [DigitOf(n)] else Digits(n / 10) + [DigitOf(n % 10)]
  }

  predicate AllDigits(s: string) {
    forall i :: 0 <= i < |s| ==> Digit(s[i])
  }

  function Zeros(k: nat): (s: string)
    ensures |s| == k && forall i :: 0 <= i < k ==> s[i] == '0'
  {
    seq(k, i => '0')
  }

  lemma DecimalAppend(s: string, d: nat)
    requires AllDigits(s) && d < 10
    ensures AllDigits(s + [DigitOf(d)]) && Decimal(s + [DigitOf(d)]) == Decimal(s) * 10 + d
  {
    assert (s + [DigitOf(d)])[..|s|] == s;
  }

  lemma {:induction false} DecimalOfZeros(k: nat)
    ensures Decimal(Zeros(k)) == 0
  {
    if k > 0 {
      DecimalOfZeros(k - 1);
      assert Zeros(k)[..k - 1] == Zeros(k - 1);
    }
  }

  /** Reading what division wrote gives the number back, leading zeros or not. */
  lemma {:induction false} DecimalOfDigits(k: nat, n: nat)
    ensures AllDigits(Zeros(k) + Digits(n)) && Decimal(Zeros(k) + Digits(n)) == n
    decreases n
  {
    hide Decimal;
    if n < 10 {
      DecimalOfZeros(k);
      DecimalAppend(Zeros(k), n);
    } else {
      DecimalOfDigits(k, n / 10);
      var before := Zeros(k) + Digits(n / 10);
      DecimalAppend(before, n % 10);
      assert Zeros(k) + Digits(n) == before + [DigitOf(n % 10)];
    }
  }

  lemma {:induction false} DigitCountOf(digits: string, rest: string)
    requires AllDigits(digits) && (rest == "" || !Digit(rest[0]))
    ensures DigitCount(digits + rest) == |digits|
  {
    if digits == "" {
      assert digits + rest == rest;
    } else {
      DigitCountOf(digits[1..], rest);
      assert (digits + rest)[1..] == digits[1..] + rest;
    }
  }

  predicate Sign(sign: string) {
    sign == "" || sign == "+" || sign == "-"
  }

  function Signed(sign: string, n: nat): int {
    if sign == "-" then 0 - n else n
  }

  lemma UnsignedOf(digits: string, rest: string, negative: bool)
    requires digits != "" && AllDigits(digits) && (rest == "" || !Digit(rest[0]))
    ensures Unsigned(digits + rest, negative) ==
            Some((if negative then 0 - Decimal(digits) else Decimal(digits), rest))
  {
    hide Decimal, DigitCount;
    DigitCountOf(digits, rest);
    assert (digits + rest)[..|digits|] == digits && (digits + rest)[|digits|..] == rest;
  }

  /** strtol reads white space, a sign and digits, and nothing after them. */
  lemma NumberOf(blank: string, sign: string, digits: string, rest: string)
    requires Blank(blank) && Sign(sign) && digits != "" && AllDigits(digits) && (rest == "" || !Digit(rest[0]))
    ensures Number(blank + sign + digits + rest) == Some((Signed(sign, Decimal(digits)), rest))
  {
    hide Decimal, LTrim, Unsigned;
    var u := digits + rest;
    assert u[0] == digits[0];
    assert blank + sign + digits + rest == blank + (sign + u);
    assert sign == "" ==> sign + u == u;
    assert sign != "" ==> (sign + u)[0] == sign[0] && (sign + u)[1..] == u;
    LTrimPadded(blank, sign + u);
    UnsignedOf(digits, rest, sign == "-");
  }

  /** Round trip: for every number in base 10, with any white space, sign and leading
      zeros before it and any text after it that does not go on with a digit. */
  lemma NumberRoundTrip(blank: string, sign: string, k: nat, n: nat, rest: string)
    requires Blank(blank) && Sign(sign) && (rest == "" || !Digit(rest[0]))
    ensures Number(blank + sign + (Zeros(k) + Digits(n)) + rest) == Some((Signed(sign, n), rest))
  {
    hide Number, Decimal;
    DecimalOfDigits(k, n);
    NumberOf(blank, sign, Zeros(k) + Digits(n), rest);
  }

  /** And nothing else is a number. */
  lemma NumberOnlyIf(s: string) returns (blank: string, sign: string, digits: string)
    requires Number(s).Some?
    ensures Blank(blank) && Sign(sign) && digits != "" && AllDigits(digits)
    ensures var (n, rest) := Number(s).value;
      && s == blank + sign + digits + rest && (rest == "" || !Digit(rest[0]))
      && n == Signed(sign, Decimal(digits))
  {
    hide Decimal, LTrim, Unsigned;
    var t;
    blank, t := SplitBlank(s);
    sign := if t != "" && (t[0] == '-' || t[0] == '+') then [t[0]] else "";
    var u := t[|sign|..];
    assert t == sign + u;
    digits := UnsignedOnlyIf(u, sign == "-");
    var rest := Number(s).value.1;
    assert blank + (sign + (digits + rest)) == blank + sign + digits + rest;
  }

  lemma UnsignedOnlyIf(u: string, negative: bool) returns (digits: string)
    requires Unsigned(u, negative).Some?
    ensures digits != "" && AllDigits(digits)
    ensures var (n, rest) := Unsigned(u, negative).value;
      && u == digits + rest && (rest == "" || !Digit(rest[0]))
      && n == if negative then 0 - Decimal(digits) else Decimal(digits)
  {
    digits := u[..DigitCount(u)];
  }

  lemma {:induction false} SplitBlank(s: string) returns (blank: string, rest: string)
    ensures s == blank + rest && Blank(blank) && rest == LTrim(s)
  {
    if s != "" && Space(s[0]) {
      blank, rest := SplitBlank(s[1..]);
      blank := [s[0]] + blank;
      assert s == [s[0]] + s[1..];
    } else {
      blank, rest := "", s;
    }
  }

  // ---------------------------------------------------------------------------
  // Units
  // ---------------------------------------------------------------------------

  /** The units by their names, each as a multiple of the one before it; a year is 365.25
      days and twelve months. */
  const NANOSECOND: nat := 1
  const MICROSECOND: nat := 1000 * NANOSECOND
  const MILLISECOND: nat := 1000 * MICROSECOND
  const SECOND: nat := 1000 * MILLISECOND
  const MINUTE: nat := 60 * SECOND
  const HOUR: nat := 60 * MINUTE
  const DAY: nat := 24 * HOUR
  const WEEK: nat := 7 * DAY
  const YEAR: nat := 1461 * DAY / 4
  const MONTH: nat := YEAR / 12

  /** The beginnings of the names of the different units, and that none has white space at
      its ends or begins with a digit. */
  lemma Beginnings(u: string)
    ensures Nanoseconds(u) ==> u != "" && u[0] == 'n'
    ensures Microseconds(u) ==> u != "" && (u[0] == 'u' || (u[0] == 'm' && |u| >= 3 && u[1] == 'i' && u[2] == 'c'))
    ensures Milliseconds(u) ==> |u| >= 2 && u[0] == 'm' && (u[1] == 's' || (|u| >= 3 && u[1] == 'i' && u[2] == 'l'))
    ensures Seconds(u) ==> u == "" || u[0] == 's'
    ensures Minutes(u) ==> |u| >= 3 && u[0] == 'm' && u[1] == 'i' && u[2] == 'n'
    ensures Hours(u) ==> u != "" && u[0] == 'h'
    ensures Days(u) ==> u != "" && u[0] == 'd'
    ensures Weeks(u) ==> u != "" && u[0] == 'w'
    ensures Months(u) ==> |u| >= 2 && u[0] == 'm' && u[1] == 'o'
    ensures Years(u) ==> u != "" && u[0] == 'y'
  {
  }

  lemma OneUnit(u: string)
    ensures Nanoseconds(u) ==> UnitNanos(u) == Some(NANOSECOND)
    ensures Microseconds(u) ==> UnitNanos(u) == Some(MICROSECOND)
    ensures Milliseconds(u) ==> UnitNanos(u) == Some(MILLISECOND)
    ensures Seconds(u) ==> UnitNanos(u) == Some(SECOND)
    ensures Minutes(u) ==> UnitNanos(u) == Some(MINUTE)
    ensures Hours(u) ==> UnitNanos(u) == Some(HOUR)
    ensures Days(u) ==> UnitNanos(u) == Some(DAY)
    ensures Weeks(u) ==> UnitNanos(u) == Some(WEEK)
    ensures Months(u) ==> UnitNanos(u) == Some(MONTH)
    ensures Years(u) ==> UnitNanos(u) == Some(YEAR)
  {
    hide Nanoseconds, Microseconds, Milliseconds, Seconds, Minutes, Hours, Days, Weeks, Months, Years;
    Beginnings(u);
  }

  /** The names of every unit, whichever other unit they resemble. */
  lemma UnitNames(u: string)
    ensures u in ["ns", "nanosecond", "nanoseconds"] ==> UnitNanos(u) == Some(NANOSECOND)
    ensures u in ["us", "microsecond", "microseconds"] ==> UnitNanos(u) == Some(MICROSECOND)
    ensures u in ["ms", "millisecond", "milliseconds"] ==> UnitNanos(u) == Some(MILLISECOND)
    ensures u in ["s", "second", "seconds", ""] ==> UnitNanos(u) == Some(SECOND)
    ensures u in ["min", "minute", "minutes"] ==> UnitNanos(u) == Some(MINUTE)
    ensures u in ["h", "hr", "hour", "hours"] ==> UnitNanos(u) == Some(HOUR)
    ensures u in ["d", "day", "days"] ==> UnitNanos(u) == Some(DAY)
    ensures u in ["w", "wk", "week", "weeks"] ==> UnitNanos(u) == Some(WEEK)
    ensures u in ["mo", "month", "months"] ==> UnitNanos(u) == Some(MONTH)
    ensures u in ["y", "yr", "year", "years"] ==> UnitNanos(u) == Some(YEAR)
  {
    hide UnitNanos;
    OneUnit(u);
  }

  lemma {:induction false} UnitsArePlain(u: string)
    requires UnitNanos(u).Some?
    ensures u == "" || 'a' <= u[0] <= 'z'
    ensures u == "" || 'a' <= u[|u| - 1] <= 'z'
  {
    Beginnings(u);
    Endings(u);
    hide Nanoseconds, Microseconds, Milliseconds, Seconds, Minutes, Hours, Days, Weeks, Months, Years;
  }

  predicate LetterAtEnd(u: string) {
    u != "" && 'a' <= u[|u| - 1] <= 'z'
  }

  lemma Endings(u: string)
    ensures Nanoseconds(u) || Microseconds(u) || Milliseconds(u) || Minutes(u) || Hours(u) ==> LetterAtEnd(u)
    ensures Days(u) || Weeks(u) || Months(u) || Years(u) ==> LetterAtEnd(u)
    ensures Seconds(u) ==> u == "" || LetterAtEnd(u)
  {
  }

  // ---------------------------------------------------------------------------
  // Descriptions
  // ---------------------------------------------------------------------------

  /** A number in base 10 and the name of a unit, with any white space around them, give
      the number of nanoseconds clamped to 64 bits, if and only if the number is above
      INT64_MIN or counts nanoseconds; and otherwise 0. */
  lemma DurationOf(blank: seq<string>, sign: string, k: nat, n: nat, unit: string)
    requires |blank| == 3 && Blank(blank[0]) && Blank(blank[1]) && Blank(blank[2])
    requires Sign(sign) && UnitNanos(unit).Some?
    ensures var text := blank[0] + sign + (Zeros(k) + Digits(n)) + (blank[1] + unit + blank[2]);
      var number, nanos := Signed(sign, n), UnitNanos(unit).value;
      && (Duration(text) == Some(Clamp(number * nanos)) <==> number > INT64_MIN || nanos == 1)
      && (number <= INT64_MIN && nanos != 1 ==> Duration(text) == Some(0))
  {
    hide Number, UnitNanos, LTrim, RTrim, Clamp;
    var rest := blank[1] + unit + blank[2];
    UnitsArePlain(unit);
    TrimsPadded(blank[1], unit, blank[2]);
    assert rest == "" || !Digit(rest[0]) by {
      if rest != "" {
        assert rest[0] in blank[1] || rest[0] in blank[2] || (unit != "" && rest[0] == unit[0]);
      }
    }
    NumberRoundTrip(blank[0], sign, k, n, rest);
    DurationIff(blank[0] + sign + (Zeros(k) + Digits(n)) + rest);
  }
}
