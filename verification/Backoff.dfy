/** The sliding-window rate limiter of Client/Backoff.cc, over every run of calls. */
module Backoff {
  import opened Time

  datatype Fields = Fields(windowDuration: int, startTimes: seq<int>)

  /** One call of delayAndBegin: its timeout, the clock when it looks first, and the
      clock after the sleep until the operation is permissible, if it sleeps so. */
  datatype Call = Call(timeout: int, now: int, later: int)

  datatype Outcome = TimedOut | Began(start: int) | OutOfRange

  /** `n` times minus infinity. */
  function Padding(n: nat): seq<int> {
    seq(n, i => INT64_MIN)
  }

  /** The time at which the oldest start leaves the window. */
  function Permissible(f: Fields): int
    requires f.startTimes != []
  {
    f.startTimes[0] + f.windowDuration
  }

  /** What a call comes to; at(0) throws on an empty deque. */
  function Result(f: Fields, c: Call): Outcome {
    if c.now > c.timeout then TimedOut
    else if f.startTimes == [] then OutOfRange
    else if Permissible(f) <= c.now then Began(c.now)
    else if Permissible(f) > c.timeout then TimedOut
    else Began(c.later)
  }

  function After(f: Fields, c: Call): Fields {
    match Result(f, c)
    case Began(start) => f.(startTimes := f.startTimes[if f.startTimes == [] then 0 else 1..] + [start])
    case _ => f
  }

  class Backoff {
    const windowDuration: int
    var startTimes: seq<int>

    function View(): Fields
      reads this
    {
      Fields(windowDuration, startTimes)
    }

    constructor (windowCount: nat, windowNanos: int)
      ensures View() == Fields(windowNanos, Padding(windowCount))
    {
      windowDuration := windowNanos;
      var times := [];
      for i := 0 to windowCount
        invariant times == Padding(i)
      {
        times := times + [INT64_MIN];
      }
      startTimes := times;
    }

    method DelayAndBegin(c: Call) returns (outcome: Outcome)
      modifies this
      ensures View() == After(old(View()), c) && outcome == Result(old(View()), c)
    {
      var now := c.now;
      if now > c.timeout {
        return TimedOut;
      }
      if startTimes == [] {
        return OutOfRange;
      }
      var oldest := startTimes[0];
      var permissible := oldest + windowDuration;
      if permissible > now {
        if permissible > c.timeout {
          return TimedOut;
        } else {
          now := c.later;
        }
      }
      startTimes := startTimes[1..];
      startTimes := startTimes + [now];
      outcome := Began(now);
    }
  }

  // ---------------------------------------------------------------------------
  // Runs
  // ---------------------------------------------------------------------------

  /** The starts recorded by calls made one after the other. */
  function Starts(count: nat, duration: int, calls: seq<Call>): seq<int> {
    if calls == [] then []
    else
      var n := |calls| - 1;
      var starts := Starts(count, duration, calls[..n]);
      match Result(FieldsAfter(count, duration, calls[..n]), calls[n])
      case Began(start) => starts + [start]
      case _ => starts
  }

  function FieldsAfter(count: nat, duration: int, calls: seq<Call>): Fields {
    if calls == [] then Fields(duration, Padding(count))
    else After(FieldsAfter(count, duration, calls[..|calls| - 1]), calls[|calls| - 1])
  }

  /** The clock is monotone, across calls and within each, and a sleep until the
      permissible time does not return early. */
  ghost predicate Timely(count: nat, duration: int, calls: seq<Call>) {
    && (forall i :: 0 <= i < |calls| ==> INT64_MIN <= calls[i].now <= calls[i].later)
    && (forall i, j :: 0 <= i < j < |calls| ==> calls[i].later <= calls[j].now)
    && (forall i :: 0 <= i < |calls| ==>
          var f := FieldsAfter(count, duration, calls[..i]);
          f.startTimes != [] && Permissible(f) <= calls[i].timeout ==> Permissible(f) <= calls[i].later)
  }

  /** The deque holds the last `count` starts, oldest first, padded in front. */
  ghost predicate Holds(count: nat, duration: int, calls: seq<Call>) {
    var starts := Starts(count, duration, calls);
    FieldsAfter(count, duration, calls) == Fields(duration, (Padding(count) + starts)[|starts|..])
  }

  lemma TimelyPrefix(count: nat, duration: int, calls: seq<Call>)
    requires Timely(count, duration, calls) && calls != []
    ensures Timely(count, duration, calls[..|calls| - 1])
  {
    var n := |calls| - 1;
    assert forall i :: 0 <= i <= n ==> calls[..n][..i] == calls[..i];
  }

  lemma {:induction false} DequeHoldsLastStarts(count: nat, duration: int, calls: seq<Call>)
    requires count >= 1
    ensures Holds(count, duration, calls)
  {
    if calls == [] {
      assert (Padding(count) + [])[0..] == Padding(count);
    } else {
      var n := |calls| - 1;
      DequeHoldsLastStarts(count, duration, calls[..n]);
      var starts := Starts(count, duration, calls[..n]);
      var f := FieldsAfter(count, duration, calls[..n]);
      if Result(f, calls[n]).Began? {
        var start := Result(f, calls[n]).start;
        var all := Padding(count) + starts;
        assert f.startTimes == all[|starts|..];
        assert Padding(count) + (starts + [start]) == all + [start];
        assert (all + [start])[|starts| + 1..] == all[|starts|..][1..] + [start];
      }
    }
  }

  lemma OldestStart(count: nat, duration: int, calls: seq<Call>)
    requires count >= 1
    ensures var starts := Starts(count, duration, calls); var f := FieldsAfter(count, duration, calls);
      && f.windowDuration == duration && f.startTimes != []
      && (|starts| >= count ==> f.startTimes[0] == starts[|starts| - count])
  {
    DequeHoldsLastStarts(count, duration, calls);
    hide FieldsAfter, Starts;
  }

  /** How the last call of a run changes the starts: not at all, or by one start that is
      permissible and read from the clock during the call. */
  lemma LastStart(count: nat, duration: int, calls: seq<Call>) returns (added: seq<int>)
    requires count >= 1 && Timely(count, duration, calls) && calls != []
    ensures Starts(count, duration, calls) == Starts(count, duration, calls[..|calls| - 1]) + added
    ensures added == [] || |added| == 1
    ensures added != [] ==>
      var f := FieldsAfter(count, duration, calls[..|calls| - 1]);
      && calls[|calls| - 1].now <= added[0] <= calls[|calls| - 1].later
      && f.startTimes != [] && Permissible(f) <= added[0]
  {
    var n := |calls| - 1;
    var result := Result(FieldsAfter(count, duration, calls[..n]), calls[n]);
    added := if result.Began? then [result.start] else [];
  }

  /** In the order of the clock, up to `bound`. */
  ghost predicate Ordered(starts: seq<int>, bound: int) {
    && (forall i, j :: 0 <= i < j < |starts| ==> starts[i] <= starts[j])
    && (forall i :: 0 <= i < |starts| ==> starts[i] <= bound)
  }

  /** Any count+1 consecutive starts span at least `duration`. */
  ghost predicate Stepped(count: nat, duration: int, starts: seq<int>) {
    forall i :: 0 <= i && i + count < |starts| ==> starts[i + count] - starts[i] >= duration
  }

  lemma OrderedAppend(starts: seq<int>, added: seq<int>, bound: int, later: int)
    requires Ordered(starts, bound) && bound <= later
    requires added == [] || (|added| == 1 && bound <= added[0] <= later)
    ensures Ordered(starts + added, later)
  {
  }

  lemma SteppedAppend(count: nat, duration: int, starts: seq<int>, start: int)
    requires count >= 1 && Stepped(count, duration, starts)
    requires |starts| >= count ==> start - starts[|starts| - count] >= duration
    ensures Stepped(count, duration, starts + [start])
  {
    forall i | 0 <= i && i + count < |starts| + 1
      ensures (starts + [start])[i + count] - (starts + [start])[i] >= duration
    {
      var k := i + count;
      assert k < |starts| ==> starts[k] - starts[i] >= duration;
    }
  }

  lemma {:induction false} StartsInOrder(count: nat, duration: int, calls: seq<Call>)
    requires count >= 1 && Timely(count, duration, calls) && calls != []
    ensures Ordered(Starts(count, duration, calls), calls[|calls| - 1].later)
  {
    var n := |calls| - 1;
    var before := calls[..n];
    var added := LastStart(count, duration, calls);
    if n == 0 {
      assert Starts(count, duration, before) == [];
    } else {
      TimelyPrefix(count, duration, calls);
      StartsInOrder(count, duration, before);
      assert before[n - 1] == calls[n - 1];
      OrderedAppend(Starts(count, duration, before), added, calls[n - 1].later, calls[n].later);
    }
  }

  lemma {:induction false} WindowSpans(count: nat, duration: int, calls: seq<Call>)
    requires count >= 1 && Timely(count, duration, calls)
    ensures Stepped(count, duration, Starts(count, duration, calls))
  {
    if calls != [] {
      var before := calls[..|calls| - 1];
      TimelyPrefix(count, duration, calls);
      WindowSpans(count, duration, before);
      OldestStart(count, duration, before);
      var added := LastStart(count, duration, calls);
      if added != [] {
        assert added == [added[0]];
        SteppedAppend(count, duration, Starts(count, duration, before), added[0]);
      }
    }
  }

  /** The operations begun in the period of `duration` from `t`, by their position. */
  ghost function BegunWithin(starts: seq<int>, t: int, duration: int): set<int> {
    set i | 0 <= i < |starts| && t <= starts[i] < t + duration
  }

  lemma {:induction false} IntervalSize(s: set<int>, low: int, count: nat)
    requires forall i :: i in s ==> low <= i < low + count
    ensures |s| <= count
  {
    if count > 0 {
      var last := low + count - 1;
      IntervalSize(s - {last}, low, count - 1);
      assert s == s - {last} || s == s - {last} + {last};
    } else {
      assert forall i :: i in s ==> i < low;
      assert s == {};
    }
  }

  ghost predicate Spaced(count: nat, duration: int, starts: seq<int>) {
    forall i, j :: 0 <= i < |starts| && i + count <= j < |starts| ==> starts[j] - starts[i] >= duration
  }

  lemma StepsAddUp(count: nat, duration: int, starts: seq<int>, bound: int)
    requires Ordered(starts, bound) && Stepped(count, duration, starts)
    ensures Spaced(count, duration, starts)
  {
    forall i, j | 0 <= i < |starts| && i + count <= j < |starts| ensures starts[j] - starts[i] >= duration {
      var k := i + count;
      assert starts[k] <= starts[j];
    }
  }

  lemma SpacedIsSparse(count: nat, duration: int, starts: seq<int>, t: int)
    requires Spaced(count, duration, starts)
    ensures |BegunWithin(starts, t, duration)| <= count
  {
    var first: nat := 0;
    while first < |starts| && starts[first] < t
      invariant first <= |starts|
      invariant forall i :: 0 <= i < first ==> starts[i] < t
    {
      first := first + 1;
    }
    forall i | i in BegunWithin(starts, t, duration) ensures first <= i < first + count {
      assert starts[first] >= t && starts[i] - starts[first] < duration;
    }
    hide BegunWithin, Spaced;
    IntervalSize(BegunWithin(starts, t, duration), first, count);
  }

  /** The promise of the class: at most windowCount operations begin in any period of
      windowDuration. */
  lemma AtMostPerWindow(count: nat, duration: int, calls: seq<Call>, t: int)
    requires count >= 1 && Timely(count, duration, calls)
    ensures |BegunWithin(Starts(count, duration, calls), t, duration)| <= count
  {
    var starts := Starts(count, duration, calls);
    if calls != [] {
      WindowSpans(count, duration, calls);
      StartsInOrder(count, duration, calls);
      StepsAddUp(count, duration, starts, calls[|calls| - 1].later);
    }
    SpacedIsSparse(count, duration, starts, t);
  }

  /** When the start that is windowCount starts back leaves the window; minus infinity
      stands for a start that was never made. */
  function Due(count: nat, duration: int, starts: seq<int>): int
    requires count >= 1
  {
    (if |starts| >= count then starts[|starts| - count] else INT64_MIN) + duration
  }

  /** When a call begins its operation, after any calls: if and only if it finds itself in
      time and the operation is due within its timeout.  It begins at once if it is due
      already, and otherwise after the sleep; and a call that does not begin changes
      nothing. */
  lemma BeginsIff(count: nat, duration: int, calls: seq<Call>, c: Call)
    requires count >= 1
    ensures var due := Due(count, duration, Starts(count, duration, calls));
      var f := FieldsAfter(count, duration, calls);
      && (Result(f, c).Began? <==> c.now <= c.timeout && due <= c.timeout)
      && (Result(f, c).Began? ==> Result(f, c).start == if due <= c.now then c.now else c.later)
      && (!Result(f, c).Began? ==> Result(f, c) == TimedOut && After(f, c) == f)
      && Starts(count, duration, calls + [c]) == Starts(count, duration, calls) +
           (if Result(f, c).Began? then [Result(f, c).start] else [])
  {
    OldestStart(count, duration, calls);
    assert (calls + [c])[..|calls|] == calls;
    assert Starts(count, duration, calls) + [] == Starts(count, duration, calls);
    var f := FieldsAfter(count, duration, calls);
    if |Starts(count, duration, calls)| < count {
      OldestIsPadding(count, duration, calls);
    }
  }

  lemma OldestIsPadding(count: nat, duration: int, calls: seq<Call>)
    requires count >= 1 && |Starts(count, duration, calls)| < count
    ensures FieldsAfter(count, duration, calls).startTimes != []
    ensures FieldsAfter(count, duration, calls).startTimes[0] == INT64_MIN
  {
    DequeHoldsLastStarts(count, duration, calls);
    hide FieldsAfter, Starts;
  }

  lemma {:induction false} EmptyDequeStays(duration: int, calls: seq<Call>)
    ensures FieldsAfter(0, duration, calls) == Fields(duration, [])
  {
    if calls != [] {
      EmptyDequeStays(duration, calls[..|calls| - 1]);
    }
  }

  /** A limiter built with windowCount 0 is not limited to one operation, as the
      constructor's max(1, windowCount) suggests: after any calls, a call in time throws
      if and only if windowCount is 0. */
  lemma ZeroWindowThrows(count: nat, duration: int, calls: seq<Call>, c: Call)
    requires c.now <= c.timeout
    ensures Result(FieldsAfter(count, duration, calls), c) == OutOfRange <==> count == 0
  {
    if count == 0 {
      EmptyDequeStays(duration, calls);
    } else {
      OldestStart(count, duration, calls);
    }
  }
}
