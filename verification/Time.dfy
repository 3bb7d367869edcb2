/** 64-bit time arithmetic: SteadyTimeConverter::convert and parseSignedDuration in
    Core/Time.cc, and ClientImpl::absTimeout.  Signed arithmetic wraps, as the code
    demands of its compiler; each function is compared with exact integers clamped
    to the range of int64_t. */
module Time {
  import opened Basics
  import opened Text

  const INT64_MIN: int := -0x8000_0000_0000_0000
  const INT64_MAX: int := 0x7fff_ffff_ffff_ffff

  type Int64 = x: int | INT64_MIN <= x <= INT64_MAX
  type Uint64 = x: int | 0 <= x < TWO_TO_THE_64

  /** What a 64-bit register keeps of an integer. */
  function Wrap(x: int): (r: Int64)
    ensures INT64_MIN <= x <= INT64_MAX ==> r == x
    ensures INT64_MAX < x <= INT64_MAX + TWO_TO_THE_64 ==> r == x - TWO_TO_THE_64
    ensures INT64_MIN - TWO_TO_THE_64 <= x < INT64_MIN ==> r == x + TWO_TO_THE_64
  {
    (x - INT64_MIN) % 0x1_0000_0000_0000_0000 + INT64_MIN
  }

  function Clamp(x: int): Int64 {
    if x < INT64_MIN then INT64_MIN else if x > INT64_MAX then INT64_MAX else x
  }

  // ---------------------------------------------------------------------------
  // Time points
  // ---------------------------------------------------------------------------

  function Convert(when: Int64, steadyNow: Int64, systemNow: Int64): Int64 {
    var diff := Wrap(when - steadyNow);
    var then_ := Wrap(systemNow + diff);
    if when > steadyNow && then_ < systemNow then INT64_MAX else then_
  }

  /** Exact unless the converted time is before the earliest time point there is. */
  lemma ConvertIff(when: Int64, steadyNow: Int64, systemNow: Int64)
    ensures Convert(when, steadyNow, systemNow) == Clamp(systemNow + when - steadyNow)
       <==> systemNow + when - steadyNow >= INT64_MIN
  {
    var exact := systemNow + when - steadyNow;
    var diff := Wrap(when - steadyNow);
    assert diff == when - steadyNow || diff == when - steadyNow - TWO_TO_THE_64 || diff == when - steadyNow + TWO_TO_THE_64;
    var sum := systemNow + diff;
    assert Wrap(sum) == sum || Wrap(sum) == sum - TWO_TO_THE_64 || Wrap(sum) == sum + TWO_TO_THE_64;
  }

  /** In particular for clocks that start at zero and behind the wall clock. */
  lemma ConvertIsExact(when: Int64, steadyNow: Int64, systemNow: Int64)
    requires 0 <= steadyNow <= systemNow
    ensures Convert(when, steadyNow, systemNow) == Clamp(systemNow + when - steadyNow)
  {
    ConvertIff(when, steadyNow, systemNow);
  }

  function AbsTimeout(relTimeoutNanos: Uint64, now: Int64): Int64 {
    if relTimeoutNanos == 0 then INT64_MAX
    else
      var then_ := Wrap(now + Wrap(relTimeoutNanos));
      if then_ < now then INT64_MAX else then_
  }

  /** Exact for every relative timeout but 0, which stands for none, and every clock. */
  lemma AbsTimeoutIsExact(relTimeoutNanos: Uint64, now: Int64)
    ensures AbsTimeout(relTimeoutNanos, now) ==
            if relTimeoutNanos == 0 then INT64_MAX else Clamp(now + relTimeoutNanos)
  {
    var r := Wrap(relTimeoutNanos);
    assert r == if relTimeoutNanos <= INT64_MAX then relTimeoutNanos else relTimeoutNanos - TWO_TO_THE_64;
    assert Wrap(now + r) in {now + r, now + r - TWO_TO_THE_64, now + r + TWO_TO_THE_64};
  }

  // ---------------------------------------------------------------------------
  // Durations
  // ---------------------------------------------------------------------------

  predicate Digit(c: char) {
    '0' <= c <= '9'
  }

  /** Length of the leading run of digits. */
  function DigitCount(s: string): (n: nat)
    ensures n <= |s| && (forall i :: 0 <= i < n ==> Digit(s[i])) && (n < |s| ==> !Digit(s[n]))
  {
    if s != "" && Digit(s[0]) then 1 + DigitCount(s[1..]) else 0
  }

  function Decimal(digits: string): nat
    requires forall i :: 0 <= i < |digits| ==> Digit(digits[i])
  {
    if digits == "" then 0
    else
      assert Digit(digits[|digits| - 1]);
      Decimal(digits[..|digits| - 1]) * 10 + (digits[|digits| - 1] - '0') as nat
  }

  /** The digits a text starts with, as a number, and the text after them. */
  function Unsigned(u: string, negative: bool): Option<(int, string)> {
    var n := DigitCount(u);
    if n == 0 then None
    else Some((if negative then 0 - Decimal(u[..n]) else Decimal(u[..n]), u[n..]))
  }

  /** The number a description starts with, exactly, and the text after it. */
  function Number(s: string): Option<(int, string)> {
    var t := LTrim(s);
    if t != "" && t[0] == '-' then Unsigned(t[1..], true)
    else if t != "" && t[0] == '+' then Unsigned(t[1..], false)
    else Unsigned(t, false)
  }

  /** strtol: the number, saturated on ERANGE. */
  function StrToL(s: string): Option<(Int64, string)> {
    match Number(s)
    case None => None
    case Some((n, rest)) => Some((Clamp(n), rest))
  }

  predicate Nanoseconds(units: string) {
    units == "ns" || units == "nanosecond" || units == "nanoseconds"
  }

  predicate Microseconds(units: string) {
    units == "us" || units == "microsecond" || units == "microseconds"
  }

  predicate Milliseconds(units: string) {
    units == "ms" || units == "millisecond" || units == "milliseconds"
  }

  predicate Seconds(units: string) {
    units == "s" || units == "second" || units == "seconds" || units == ""
  }

  predicate Minutes(units: string) {
    units == "min" || units == "minute" || units == "minutes"
  }

  predicate Hours(units: string) {
    units == "h" || units == "hr" || units == "hour" || units == "hours"
  }

  predicate Days(units: string) {
    units == "d" || units == "day" || units == "days"
  }

  predicate Weeks(units: string) {
    units == "w" || units == "wk" || units == "week" || units == "weeks"
  }

  predicate Months(units: string) {
    units == "mo" || units == "month" || units == "months"
  }

  predicate Years(units: string) {
    units == "y" || units == "yr" || units == "year" || units == "years"
  }

  /** Nanoseconds per unit; None for an unknown unit. */
  function UnitNanos(units: string): Option<nat> {
    if Nanoseconds(units) then Some(1)
    else if Microseconds(units) then Some(1000)
    else if Milliseconds(units) then Some(1_000_000)
    else if Seconds(units) then Some(1_000_000_000)
    else if Minutes(units) then Some(60_000_000_000)
    else if Hours(units) then Some(3_600_000_000_000)
    else if Days(units) then Some(86_400_000_000_000)
    else if Weeks(units) then Some(604_800_000_000_000)
    else if Months(units) then Some(2_629_800_000_000_000)
    else if Years(units) then Some(31_557_600_000_000_000)
    else None
  }

  /** std::abs on int64_t, which leaves INT64_MIN as it is. */
  function Abs(r: Int64): Int64 {
    if r >= 0 then r else Wrap(0 - r)
  }

  /** One branch of parseSignedDuration.  With the largest limit whose product fits, and
      saturation as the overflow, it is exact for every number above INT64_MIN. */
  method Scale(r: Int64, limit: Int64, nanos: Int64, overflow: Int64) returns (result: Int64)
    ensures result == if Abs(r) <= limit then Wrap(r * nanos) else overflow
    ensures INT64_MIN < r && 0 < nanos && limit * nanos <= INT64_MAX < (limit + 1) * nanos
        && overflow == (if r < 0 then INT64_MIN else INT64_MAX)
        ==> result == Clamp(r * nanos)
  {
    if INT64_MIN < r && 0 < nanos && limit * nanos <= INT64_MAX < (limit + 1) * nanos {
      BranchIsExact(r, limit, nanos);
    }
    if Abs(r) <= limit {
      result := Wrap(r * nanos);
    } else {
      result := overflow;
    }
  }

  lemma BranchIsExact(r: Int64, limit: Int64, nanos: Int64)
    requires INT64_MIN < r && 0 < nanos && limit * nanos <= INT64_MAX < (limit + 1) * nanos
    ensures (if Abs(r) <= limit then Wrap(r * nanos) else if r < 0 then INT64_MIN else INT64_MAX) == Clamp(r * nanos)
  {
    if r > limit {
      Product(limit + 1, r, nanos);
    } else if r < 0 - limit {
      Product(r, 0 - (limit + 1), nanos);
    } else {
      Product(r, limit, nanos);
      Product(0 - limit, r, nanos);
    }
  }

  /** The largest number of units that fits, as the code spells it out. */
  function Limit(nanos: nat): Int64 {
    if nanos == 1000 then 9223372036854775
    else if nanos == 1_000_000 then 9223372036854
    else if nanos == 1_000_000_000 then 9223372036
    else if nanos == 60_000_000_000 then 153722867
    else if nanos == 3_600_000_000_000 then 2562047
    else if nanos == 86_400_000_000_000 then 106751
    else if nanos == 604_800_000_000_000 then 15250
    else if nanos == 2_629_800_000_000_000 then 3507
    else if nanos == 31_557_600_000_000_000 then 292
    else INT64_MAX
  }

  /** The limits in the code are the exact quotients. */
  lemma LimitsAreExact(units: string)
    requires UnitNanos(units).Some?
    ensures var nanos := UnitNanos(units).value;
      Limit(nanos) * nanos <= INT64_MAX < (Limit(nanos) + 1) * nanos
  {
  }

  /** The chain of unit tests in parseSignedDuration. */
  method ScaleUnits(n: Int64, units: string) returns (result: Option<Int64>)
    ensures result == if UnitNanos(units).None? then None else Some(Scaled(n, UnitNanos(units).value))
  {
    hide Wrap, Abs, Nanoseconds, Microseconds, Milliseconds, Seconds, Minutes, Hours, Days, Weeks, Months, Years;
    var r := n;
    var overflow: Int64 := if r < 0 then INT64_MIN else INT64_MAX;
    if Nanoseconds(units) {
    } else if Microseconds(units) {
      r := Scale(r, 9223372036854775, 1000, overflow);
    } else if Milliseconds(units) {
      r := Scale(r, 9223372036854, 1_000_000, overflow);
    } else if Seconds(units) {
      r := Scale(r, 9223372036, 1_000_000_000, overflow);
    } else if Minutes(units) {
      r := Scale(r, 153722867, 60_000_000_000, overflow);
    } else if Hours(units) {
      r := Scale(r, 2562047, 3_600_000_000_000, overflow);
    } else if Days(units) {
      r := Scale(r, 106751, 86_400_000_000_000, overflow);
    } else if Weeks(units) {
      r := Scale(r, 15250, 604_800_000_000_000, overflow);
    } else if Months(units) {
      r := Scale(r, 3507, 2_629_800_000_000_000, overflow);
    } else if Years(units) {
      r := Scale(r, 292, 31_557_600_000_000_000, overflow);
    } else {
      return None;
    }
    result := Some(r);
  }

  method ParseSignedDuration(description: string) returns (result: Option<Int64>)
    ensures result == Duration(description)
  {
    hide UnitNanos, Scaled, Number;
    var parsed := StrToL(description);
    if parsed.None? {
      return None;
    }
    var (r, units) := parsed.value;
    units := RTrim(units);
    units := LTrim(units);
    result := ScaleUnits(r, units);
  }

  function Scaled(r: Int64, nanos: nat): Int64 {
    if nanos == 1 then r
    else if Abs(r) <= Limit(nanos) then Wrap(r * nanos)
    else if r < 0 then INT64_MIN else INT64_MAX
  }

  /** What the code computes; None for its exceptions. */
  function Duration(description: string): Option<Int64> {
    match StrToL(description)
    case None => None
    case Some((r, rest)) =>
      match UnitNanos(LTrim(RTrim(rest)))
      case None => None
      case Some(nanos) => Some(Scaled(r, nanos))
  }

  lemma {:induction false} Product(a: int, b: int, k: nat)
    requires a <= b
    ensures a * k <= b * k
  {
  }

  /** Within the limit the product is exact; beyond it, it is out of range. */
  lemma ScaledInRange(n: int, units: string)
    requires UnitNanos(units).Some? && n > INT64_MIN
    ensures Scaled(Clamp(n), UnitNanos(units).value) == Clamp(n * UnitNanos(units).value)
  {
    var nanos := UnitNanos(units).value;
    LimitsAreExact(units);
    hide UnitNanos, Limit;
    var limit: int := Limit(nanos);
    if n > limit {
      Product(limit + 1, n, nanos);
    } else if n < -limit {
      Product(n, -(limit + 1), nanos);
    } else {
      Product(n, limit, nanos);
      Product(-limit, n, nanos);
    }
  }

  lemma WrapsToZero(k: nat)
    ensures Wrap(INT64_MIN * (2 * k)) == 0
  {
    assert INT64_MIN * (2 * k) == (0 - k) * 0x1_0000_0000_0000_0000;
    assert (0x8000_0000_0000_0000 + (0 - k) * 0x1_0000_0000_0000_0000) % 0x1_0000_0000_0000_0000 == 0x8000_0000_0000_0000;
  }

  /** Every unit but the nanosecond is an even number of nanoseconds. */
  lemma UnitsAreEven(units: string)
    requires UnitNanos(units).Some?
    ensures var nanos := UnitNanos(units).value; nanos >= 1 && (nanos == 1 || nanos % 2 == 0)
  {
  }

  lemma ScaledIff(n: int, units: string)
    requires UnitNanos(units).Some?
    ensures var nanos := UnitNanos(units).value;
      && (Scaled(Clamp(n), nanos) == Clamp(n * nanos) <==> n > INT64_MIN || nanos == 1)
      && (n <= INT64_MIN && nanos != 1 ==> Scaled(Clamp(n), nanos) == 0)
  {
    var nanos := UnitNanos(units).value;
    UnitsAreEven(units);
    if n > INT64_MIN {
      ScaledInRange(n, units);
    } else if nanos != 1 {
      LimitsAreExact(units);
      hide UnitNanos, Limit;
      assert nanos == 2 * (nanos / 2);
      WrapsToZero(nanos / 2);
      Product(1, nanos, -n);
      assert Limit(nanos) >= 0 by {
        if Limit(nanos) < 0 {
          Product(Limit(nanos) + 1, 0, nanos);
        }
      }
    }
  }

  /** A well-formed description gives its number of units in nanoseconds, clamped to
      64 bits, if and only if the number is above INT64_MIN or counts nanoseconds; at
      and below it the code answers 0. */
  lemma DurationIff(description: string)
    ensures Duration(description).Some? <==>
      Number(description).Some? && UnitNanos(LTrim(RTrim(Number(description).value.1))).Some?
    ensures Duration(description).Some? ==>
      var n := Number(description).value.0;
      var nanos := UnitNanos(LTrim(RTrim(Number(description).value.1))).value;
      && (Duration(description) == Some(Clamp(n * nanos)) <==> n > INT64_MIN || nanos == 1)
      && (n <= INT64_MIN && nanos != 1 ==> Duration(description) == Some(0))
  {
    hide UnitNanos, Scaled, Number, LTrim, RTrim, Clamp;
    if Duration(description).Some? {
      var (n, rest) := Number(description).value;
      ScaledIff(n, LTrim(RTrim(rest)));
    }
  }
}
