/**
 * The discrete parts of the nanosecond time scale: conversion between
 * nanosecond timestamps and millisecond dates, the nanosecond durations,
 * the tick-interval table and the choice of a tick interval, ticks on a
 * reversed domain, the digit-slicing tick labels and the common digits of
 * the context label.
 *
 * Timestamps are integers. The calendar intervals, their floors and ranges,
 * d3's linear `ticks` and `tickStep`, and the date formatters are not
 * modelled; they enter as function values or as symbolic results.
 */
module TimeScale {
  import opened Wrappers
  import opened Decimal

  // ---------------------------------------------------------------------
  // Dates and durations.
  // ---------------------------------------------------------------------

  const NsPerMs := 1000000

  /** `dateToNs`: a date's millisecond time in nanoseconds. */
  function DateToNs(ms: int): (ns: int)
    ensures ns % NsPerMs == 0
  {
    ms * NsPerMs
  }

  /** `nsToDate`: the millisecond date a timestamp floors to. */
  function NsToDate(ns: int): (ms: int)
    ensures DateToNs(ms) <= ns < DateToNs(ms) + NsPerMs
  {
    ns / NsPerMs
  }

  /** A date survives the trip to nanoseconds and back. */
  lemma DateRoundTrip(ms: int)
    ensures NsToDate(DateToNs(ms)) == ms
  {
    DivModUnique(DateToNs(ms), NsPerMs, ms, 0);
  }

  /** Later timestamps never floor to earlier dates. */
  lemma NsToDateMonotone(a: int, b: int)
    requires a <= b
    ensures NsToDate(a) <= NsToDate(b)
  {
  }

  const DurationSecond := 1000000000
  const DurationMinute := DurationSecond * 60
  const DurationHour := DurationMinute * 60
  const DurationDay := DurationHour * 24
  const DurationWeek := DurationDay * 7
  const DurationMonth := DurationDay * 30
  const DurationYear := DurationDay * 365

  // ---------------------------------------------------------------------
  // The tick-interval table.
  // ---------------------------------------------------------------------

  /** The calendar intervals of d3-time; only their identity matters here. */
  datatype TimeUnit = Second | Minute | Hour | Day | Week | Month | Year

  /** A row of `tickIntervals`: interval, step, and the step's duration in nanoseconds. */
  datatype TickEntry = TickEntry(unit: TimeUnit, step: int, duration: int)

  const TickIntervals: seq<TickEntry> := [
    TickEntry(Second, 1, DurationSecond),
    TickEntry(Second, 5, 5 * DurationSecond),
    TickEntry(Second, 15, 15 * DurationSecond),
    TickEntry(Second, 30, 30 * DurationSecond),
    TickEntry(Minute, 1, DurationMinute),
    TickEntry(Minute, 5, 5 * DurationMinute),
    TickEntry(Minute, 15, 15 * DurationMinute),
    TickEntry(Minute, 30, 30 * DurationMinute),
    TickEntry(Hour, 1, DurationHour),
    TickEntry(Hour, 3, 3 * DurationHour),
    TickEntry(Hour, 6, 6 * DurationHour),
    TickEntry(Hour, 12, 12 * DurationHour),
    TickEntry(Day, 1, DurationDay),
    TickEntry(Day, 2, 2 * DurationDay),
    TickEntry(Week, 1, DurationWeek),
    TickEntry(Month, 1, DurationMonth),
    TickEntry(Month, 3, 3 * DurationMonth),
    TickEntry(Year, 1, DurationYear)
  ]

  /** The duration of one unit of each calendar interval. */
  function UnitDuration(u: TimeUnit): (d: int)
    ensures d >= DurationSecond && d % NsPerMs == 0
  {
    match u
    case Second => DurationSecond
    case Minute => DurationMinute
    case Hour => DurationHour
    case Day => DurationDay
    case Week => DurationWeek
    case Month => DurationMonth
    case Year => DurationYear
  }

  /**
   * Every row steps its interval by a whole number of at least one unit, its
   * duration is that many units, and so it is a whole number of milliseconds.
   */
  lemma TableRowsConsistent()
    ensures forall i :: 0 <= i < |TickIntervals| ==>
              var e := TickIntervals[i];
              e.step >= 1 && e.duration == e.step * UnitDuration(e.unit) && e.duration % NsPerMs == 0
  {
    forall i | 0 <= i < |TickIntervals|
      ensures var e := TickIntervals[i];
        e.step >= 1 && e.duration == e.step * UnitDuration(e.unit) && e.duration % NsPerMs == 0
    {
      var e := TickIntervals[i];
      WholeMs(e.step, UnitDuration(e.unit));
    }
  }

  lemma WholeMs(k: int, d: int)
    requires d % NsPerMs == 0
    ensures (k * d) % NsPerMs == 0
  {
    var q := d / NsPerMs;
    assert k * d == (k * q) * NsPerMs;
  }

  /** Durations strictly increase along the table, as the bisection needs. */
  ghost predicate Increasing(t: seq<TickEntry>) {
    forall i, j :: 0 <= i < j < |t| ==> t[i].duration < t[j].duration
  }

  ghost predicate AdjacentIncreasing(t: seq<TickEntry>) {
    forall i :: 0 <= i < |t| - 1 ==> t[i].duration < t[i + 1].duration
  }

  lemma {:induction false} AdjacentIsIncreasing(t: seq<TickEntry>)
    requires AdjacentIncreasing(t)
    ensures Increasing(t)
  {
    if |t| > 1 {
      var rest := t[1..];
      assert AdjacentIncreasing(rest) by {
        forall i | 0 <= i < |rest| - 1
          ensures rest[i].duration < rest[i + 1].duration
        {
          assert rest[i] == t[i + 1] && rest[i + 1] == t[i + 2];
        }
      }
      AdjacentIsIncreasing(rest);
      forall i, j | 0 <= i < j < |t|
        ensures t[i].duration < t[j].duration
      {
        if i > 0 {
          assert t[i] == rest[i - 1] && t[j] == rest[j - 1];
        } else if j > 1 {
          assert t[1] == rest[0] && t[j] == rest[j - 1];
        }
      }
    }
  }

  /** The table is ordered by duration, starting at one second and ending at one year. */
  lemma TableIncreasing()
    ensures |TickIntervals| == 18 && Increasing(TickIntervals)
    ensures TickIntervals[0].duration == DurationSecond
    ensures TickIntervals[17] == TickEntry(Year, 1, DurationYear)
    ensures forall i :: 0 <= i < |TickIntervals| ==> TickIntervals[i].duration >= DurationSecond
  {
    AdjacentIsIncreasing(TickIntervals);
  }

  /**
   * `bisector(i => i[2]).right(table, target)`: the number of leading rows
   * whose duration is at most `target`.
   */
  function BisectRight(t: seq<TickEntry>, target: real): (i: nat)
    requires Increasing(t)
    ensures i <= |t|
    ensures forall j :: 0 <= j < i ==> t[j].duration as real <= target
    ensures forall j :: i <= j < |t| ==> target < t[j].duration as real
  {
    if t == [] || target < t[0].duration as real then 0
    else
      assert Increasing(t[1..]);
      var k := BisectRight(t[1..], target);
      assert forall j :: 1 <= j < |t| ==> t[1..][j - 1] == t[j];
      k + 1
  }

  // ---------------------------------------------------------------------
  // Choosing the tick interval.
  // ---------------------------------------------------------------------

  /** `interval` as `tickInterval` receives it: absent, a tick count, or a calendar interval. */
  datatype IntervalArg = DefaultCount | Count(n: real) | Every(unit: TimeUnit)

  /** The step `interval.every` receives: none, a number, or `tickStep(lo, hi, count)` in years. */
  datatype Step = NoStep | Fixed(n: real) | YearTickStep(lo: real, hi: real, count: real)

  /**
   * What `tickInterval` returns: d3's linear `ticks(start, stop, count)`
   * marked `NANO`, or a calendar interval with its step.
   */
  datatype Ticker = NanoTicks(start: int, stop: int, count: real) | Calendar(unit: TimeUnit, step: Step)

  /** `Math.abs(stop - start) / interval` */
  function Target(start: int, stop: int, n: real): real
    requires n != 0.0
  {
    Abs(stop - start) as real / n
  }

  /** The year interval stepped by `tickStep(start / durationYear, stop / durationYear, n)`. */
  function YearTicker(start: int, stop: int, n: real): Ticker {
    Calendar(Year, YearTickStep(start as real / DurationYear as real, stop as real / DurationYear as real, n))
  }

  /** Row `k` as a ticker: its interval stepped by its step. */
  function RowTicker(k: nat): Ticker
    requires k < |TickIntervals|
  {
    Calendar(TickIntervals[k].unit, Fixed(TickIntervals[k].step as real))
  }

  /**
   * Of the two rows around row `i`, the one whose duration is closer to
   * `target` in ratio: row `i - 1` when `target / dur[i - 1] < dur[i] / target`.
   */
  function Closer(i: nat, target: real): (k: nat)
    requires 0 < i < |TickIntervals| && target > 0.0
    ensures k == i - 1 || k == i
  {
    TableIncreasing();
    var lower, upper := TickIntervals[i - 1].duration as real, TickIntervals[i].duration as real;
    if target / lower < upper / target then i - 1 else i
  }

  /**
   * `tickInterval(interval, start, stop, step)`. A count of zero makes the
   * JavaScript target infinite or NaN, which bisects past the end of the
   * table, so it takes the year branch.
   */
  function TickInterval(interval: IntervalArg, start: int, stop: int, step: Option<real>): Ticker {
    TableIncreasing();
    var iv := if interval.DefaultCount? then Count(10.0) else interval;
    match iv
    case Every(u) => Calendar(u, if step.None? then NoStep else Fixed(step.value))
    case Count(n) =>
      if n == 0.0 then YearTicker(start, stop, n)
      else
        var target := Target(start, stop, n);
        var i := BisectRight(TickIntervals, target);
        if i == |TickIntervals| then YearTicker(start, stop, n)
        else if i > 0 then RowTicker(Closer(i, target))
        else NanoTicks(start, stop, n)
  }

  /**
   * The interval chosen for a tick count: linear ticks below one second per
   * tick, years from one year per tick, and otherwise one of the two rows
   * whose durations bracket the target, the closer one in ratio.
   */
  lemma TickIntervalChoice(n: real, start: int, stop: int, step: Option<real>)
    requires n != 0.0
    ensures var target, r := Target(start, stop, n), TickInterval(Count(n), start, stop, step);
      (target < DurationSecond as real ==> r == NanoTicks(start, stop, n))
      && (target >= DurationYear as real ==> r == YearTicker(start, stop, n))
      && (DurationSecond as real <= target < DurationYear as real ==>
            exists i :: 0 < i < |TickIntervals|
              && TickIntervals[i - 1].duration as real <= target < TickIntervals[i].duration as real
              && r == RowTicker(Closer(i, target)))
  {
    TableIncreasing();
    var target := Target(start, stop, n);
    var i := BisectRight(TickIntervals, target);
    if DurationSecond as real <= target < DurationYear as real {
      assert 0 < i < |TickIntervals|;
      assert TickIntervals[i - 1].duration as real <= target < TickIntervals[i].duration as real;
      assert TickInterval(Count(n), start, stop, step) == RowTicker(Closer(i, target));
    }
  }

  /** The closer row is no further from the target, in ratio, than the other one. */
  lemma CloserIsCloser(i: nat, target: real)
    requires 0 < i < |TickIntervals| && target > 0.0
    ensures TickIntervals[i - 1].duration > 0
    ensures var lower, upper := TickIntervals[i - 1].duration as real, TickIntervals[i].duration as real;
      if Closer(i, target) == i - 1 then target / lower < upper / target
      else upper / target <= target / lower
  {
    TableIncreasing();
  }

  /** The default count is ten ticks. */
  lemma DefaultIsTen(start: int, stop: int, step: Option<real>)
    ensures TickInterval(DefaultCount, start, stop, step) == TickInterval(Count(10.0), start, stop, step)
  {
  }

  // ---------------------------------------------------------------------
  // Ticks.
  // ---------------------------------------------------------------------

  /**
   * The library calls `ticks` delegates to: d3's linear `ticks(start, stop,
   * count)`, and `interval.every(step).range(start, stop)` over millisecond
   * dates.
   */
  datatype Library = Library(linear: (int, int, real) -> seq<int>, range: (Ticker, int, int) -> seq<int>)

  /**
   * `interval.every(step)` floors the step and yields null unless the floor
   * is finite and positive: for an explicit step below one, and for the year
   * step of a zero count, which is `tickStep` of a division by zero.
   */
  predicate EveryIsNull(t: Ticker) {
    t.Calendar? &&
    match t.step
    case NoStep => false
    case Fixed(n) => n < 1.0
    case YearTickStep(_, _, count) => count == 0.0
  }

  function Reverse(s: seq<int>): (r: seq<int>)
    ensures |r| == |s|
    ensures forall k :: 0 <= k < |s| ==> r[k] == s[|s| - 1 - k]
  {
    if s == [] then [] else Reverse(s[1..]) + [s[0]]
  }

  lemma ReverseReverse(s: seq<int>)
    ensures Reverse(Reverse(s)) == s
  {
    var r := Reverse(Reverse(s));
    assert forall k :: 0 <= k < |s| ==> r[k] == s[k];
  }

  /** `map(dateToNs)` */
  function DatesToNs(dates: seq<int>): (r: seq<int>)
    ensures |r| == |dates|
    ensures forall k :: 0 <= k < |r| ==> r[k] == DateToNs(dates[k])
  {
    seq(|dates|, k requires 0 <= k < |dates| => DateToNs(dates[k]))
  }

  /**
   * The ticks of a domain given in order, `t0 <= t1`; `None` where reading
   * `t.NANO` off a null interval throws a `TypeError`.
   */
  function ForwardTicks(lib: Library, interval: IntervalArg, step: Option<real>, t0: int, t1: int): Option<seq<int>> {
    var t := TickInterval(interval, t0, t1, step);
    if EveryIsNull(t) then None
    else if t.NanoTicks? then Some(lib.linear(t0, t1, t.count))
    else Some(DatesToNs(lib.range(t, NsToDate(t0), NsToDate(t1) + 1)))
  }

  /** The ticks of a domain in either direction. */
  function TicksOf(lib: Library, interval: IntervalArg, step: Option<real>, d0: int, d1: int): Option<seq<int>> {
    if d1 < d0 then
      match ForwardTicks(lib, interval, step, d1, d0)
      case None => None
      case Some(ts) => Some(Reverse(ts))
    else ForwardTicks(lib, interval, step, d0, d1)
  }

  /** `Array.prototype.reverse` on the tick array. */
  method ReverseInPlace(a: array<int>)
    modifies a
    ensures a[..] == Reverse(old(a[..]))
  {
    ghost var s := a[..];
    var lo, hi := 0, a.Length - 1;
    while lo < hi
      invariant 0 <= lo <= a.Length && hi == a.Length - 1 - lo
      invariant forall k :: 0 <= k < lo ==> a[k] == s[a.Length - 1 - k] && a[a.Length - 1 - k] == s[k]
      invariant forall k :: lo <= k <= hi ==> a[k] == s[k]
      decreases hi - lo
    {
      a[lo], a[hi] := a[hi], a[lo];
      lo, hi := lo + 1, hi - 1;
    }
  }

  /**
   * `scale.ticks(interval, step)` on the domain `[d0, d1]`: swap a reversed
   * domain, compute the ticks, and reverse them back.
   */
  method Ticks(lib: Library, interval: IntervalArg, step: Option<real>, d0: int, d1: int) returns (r: Option<seq<int>>)
    ensures r == TicksOf(lib, interval, step, d0, d1)
  {
    var t0, t1 := d0, d1;
    var reversed := t1 < t0;
    if reversed {
      t0, t1 := t1, t0;
    }
    var t := TickInterval(interval, t0, t1, step);
    if EveryIsNull(t) {
      return None;
    }
    var ts;
    if t.NanoTicks? {
      ts := lib.linear(t0, t1, t.count);
    } else {
      var m0, m1 := NsToDate(t0), NsToDate(t1);
      ts := DatesToNs(lib.range(t, m0, m1 + 1));
    }
    if reversed {
      var a := new int[|ts|](k requires 0 <= k < |ts| => ts[k]);
      assert a[..] == ts;
      ReverseInPlace(a);
      ts := a[..];
    }
    r := Some(ts);
  }

  /** Reversing the domain reverses the ticks, and throws exactly when the other direction does. */
  lemma TicksReversed(lib: Library, interval: IntervalArg, step: Option<real>, d0: int, d1: int)
    requires d0 != d1
    ensures TicksOf(lib, interval, step, d1, d0).None? <==> TicksOf(lib, interval, step, d0, d1).None?
    ensures TicksOf(lib, interval, step, d0, d1).Some? ==>
              TicksOf(lib, interval, step, d1, d0).value == Reverse(TicksOf(lib, interval, step, d0, d1).value)
  {
    if d1 < d0 && ForwardTicks(lib, interval, step, d1, d0).Some? {
      ReverseReverse(ForwardTicks(lib, interval, step, d1, d0).value);
    }
  }

  /** Calendar ticks fall on whole milliseconds. */
  lemma CalendarTicksWholeMs(lib: Library, interval: IntervalArg, step: Option<real>, t0: int, t1: int)
    requires TickInterval(interval, t0, t1, step).Calendar?
    ensures var r := ForwardTicks(lib, interval, step, t0, t1);
      r.Some? ==> forall k :: 0 <= k < |r.value| ==> r.value[k] % NsPerMs == 0
  {
  }

  /** A zero tick count always throws: its year step is not finite. */
  lemma ZeroCountThrows(lib: Library, step: Option<real>, d0: int, d1: int)
    ensures TicksOf(lib, Count(0.0), step, d0, d1) == None
  {
  }

  /** An explicit interval with an explicit step throws exactly when the step is below one. */
  lemma ExplicitStepThrows(lib: Library, u: TimeUnit, n: real, d0: int, d1: int)
    ensures TicksOf(lib, Every(u), Some(n), d0, d1).None? <==> n < 1.0
  {
  }

  /**
   * A non-zero count never throws: the table's steps are all at least one,
   * and a year step is only asked for with a count.
   */
  lemma CountTicksDefined(lib: Library, n: real, step: Option<real>, d0: int, d1: int)
    requires n != 0.0
    ensures TicksOf(lib, Count(n), step, d0, d1).Some?
  {
    var t0, t1 := if d1 < d0 then d1 else d0, if d1 < d0 then d0 else d1;
    TableRowsConsistent();
    TickIntervalChoice(n, t0, t1, step);
  }

  // ---------------------------------------------------------------------
  // Tick labels.
  // ---------------------------------------------------------------------

  /** A tick label: literal text, or the calendar label of a millisecond date. */
  datatype Label = Text(s: string) | DateLabel(ms: int)

  /** The micro sign, U+00B5. */
  const MicroSign: string := "\U{B5}"

  /** The micro suffix as the source file spells it: U+00C2 U+00B5, the micro sign's UTF-8 bytes read as Latin-1. */
  const MicroSuffixAsWritten: string := "\U{C2}\U{B5}"

  /** The label digits: the last three characters and the three before them. */
  function NanoDigits(ns: int): string {
    SliceLast(DecimalString(ns), 3)
  }

  function MicroDigits(ns: int): string {
    SliceBetween(DecimalString(ns), 6, 3)
  }

  /** `tickFormat` as written, with the two-character micro suffix. */
  function TickFormatAsWritten(ns: int): Label {
    if NanoDigits(ns) != "000" then Text(NanoDigits(ns) + "n")
    else if MicroDigits(ns) != "000" then Text(MicroDigits(ns) + MicroSuffixAsWritten)
    else DateLabel(NsToDate(ns))
  }

  /**
   * `tickFormat`: the last three digits and "n" unless they are "000", else
   * the three before them and the micro sign unless those are "000", else
   * the calendar label of the date.
   */
  function TickFormat(ns: int): Label {
    if NanoDigits(ns) != "000" then Text(NanoDigits(ns) + "n")
    else if MicroDigits(ns) != "000" then Text(MicroDigits(ns) + MicroSign)
    else DateLabel(NsToDate(ns))
  }

  /** One microsecond is labelled "1" followed by two characters, not by the micro sign alone. */
  lemma MicroSuffixMisspelt()
    ensures TickFormatAsWritten(1000) == Text("1\U{C2}\U{B5}")
    ensures TickFormatAsWritten(1000) != Text("1" + MicroSign)
    ensures TickFormat(1000) == Text("1" + MicroSign)
  {
    assert Digits(1) == "1" && Digits(10) == "10" && Digits(100) == "100";
    assert DecimalString(1000) == "1000";
    assert NanoDigits(1000) == "000" && MicroDigits(1000) == "1";
  }

  /**
   * The string slicing reads off decimal digit groups: from a millisecond
   * up, the label is the nanosecond group with "n" unless it is zero, else
   * the microsecond group with the micro sign unless it is zero, else the
   * calendar label.
   */
  lemma TickFormatDigits(ns: int)
    requires Abs(ns) >= NsPerMs
    ensures var m := Abs(ns);
      TickFormat(ns) ==
        if m % 1000 != 0 then Text(Padded(m % 1000, 3) + "n")
        else if (m / 1000) % 1000 != 0 then Text(Padded((m / 1000) % 1000, 3) + MicroSign)
        else DateLabel(NsToDate(ns))
  {
    DigitGroups(ns);
    assert Padded(0, 3) == "000";
    PaddedZero(Abs(ns) % 1000, 3);
    PaddedZero((Abs(ns) / 1000) % 1000, 3);
  }

  /** From a millisecond up, the two sliced groups are the nanosecond and microsecond digits, zero-padded. */
  lemma DigitGroups(ns: int)
    requires Abs(ns) >= NsPerMs
    ensures NanoDigits(ns) == Padded(Abs(ns) % 1000, 3)
    ensures MicroDigits(ns) == Padded((Abs(ns) / 1000) % 1000, 3)
  {
    var m := Abs(ns);
    var hi := m / 1000;
    SplitThree(m);
    SplitThree(hi);
    var sign := if ns < 0 then "-" else "";
    assert DecimalString(ns) == sign + Digits(m);
    SliceGroups(sign, Digits(hi / 1000), Padded(hi % 1000, 3), Padded(m % 1000, 3));
  }

  /** The digits of a number from 1000 up end in its last three digits, zero-padded. */
  lemma SplitThree(n: nat)
    requires n >= 1000
    ensures n / 1000 >= 1 && Digits(n) == Digits(n / 1000) + Padded(n % 1000, 3)
  {
    assert Pow10(3) == 1000;
    DigitsSplit(n, 3);
  }

  /** The last three characters, and the three before them, of a string ending in two groups of three. */
  lemma SliceGroups(sign: string, head: string, a: string, b: string)
    requires |a| == 3 && |b| == 3
    ensures SliceLast(sign + (head + a + b), 3) == b
    ensures SliceBetween(sign + (head + a + b), 6, 3) == a
  {
    var s := sign + (head + a + b);
    assert s[|s| - 3..] == b;
    assert s[|s| - 6..|s| - 3] == a;
  }

  // ---------------------------------------------------------------------
  // The context label.
  // ---------------------------------------------------------------------

  /** The longest common prefix of `a` and `b`, at most `cap` characters long. */
  function CommonPrefix(a: string, b: string, cap: nat): (r: string)
    ensures |r| <= cap && |r| <= |a| && |r| <= |b|
    ensures r == a[..|r|] && r == b[..|r|]
    ensures |r| < cap && |r| < |a| && |r| < |b| ==> a[|r|] != b[|r|]
  {
    if cap == 0 || a == [] || b == [] || a[0] != b[0] then []
    else [a[0]] + CommonPrefix(a[1..], b[1..], cap - 1)
  }

  /** `a[i]`, undefined past the end. */
  function CharAt(s: string, i: nat): Option<char> {
    if i < |s| then Some(s[i]) else None
  }

  /**
   * The digit loop of `contextFormat`: append `a[i]` while it equals `b[i]`,
   * for at most five characters. The loop runs only when `a !== b`, so the
   * two never run out together.
   */
  method CommonDigits(a: string, b: string) returns (digits: string)
    requires a != b
    ensures digits == CommonPrefix(a, b, 5)
  {
    digits := "";
    for i := 0 to 5
      invariant i <= |a| && i <= |b| && digits == a[..i] && digits == b[..i]
    {
      if CharAt(a, i) != CharAt(b, i) {
        CommonPrefixIs(a, b, 5, digits);
        return;
      }
      SamePrefixSameLength(a, b, i);
      digits := digits + [a[i]];
      assert a[..i + 1] == a[..i] + [a[i]] && b[..i + 1] == b[..i] + [b[i]];
    }
    CommonPrefixIs(a, b, 5, digits);
  }

  /** A common prefix that is capped, runs out, or stops at a difference is the longest one. */
  lemma CommonPrefixIs(a: string, b: string, cap: nat, p: string)
    requires |p| <= cap && |p| <= |a| && |p| <= |b| && p == a[..|p|] && p == b[..|p|]
    requires |p| == cap || |p| == |a| || |p| == |b| || a[|p|] != b[|p|]
    ensures CommonPrefix(a, b, cap) == p
  {
    var r := CommonPrefix(a, b, cap);
    assert |r| >= |p| ==> r[..|p|] == p;
  }

  lemma SamePrefixSameLength(a: string, b: string, i: nat)
    requires i <= |a| && i <= |b| && a[..i] == b[..i]
    ensures |a| == i && |b| == i ==> a == b
  {
    if |a| == i && |b| == i {
      assert a == a[..i] && b == b[..i];
    }
  }

  /** `a = (t + "").slice(-6)` */
  function LastSix(t: int): string {
    SliceLast(DecimalString(t), 6)
  }

  /** The breadcrumb formats of `contextFormats`, finest first, each with its calendar floor. */
  datatype ContextLevel = MilliLevel | SecondLevel | MinuteLevel | HourLevel | DayLevel | MonthLevel | YearLevel

  const ContextLevels: seq<ContextLevel> :=
    [MilliLevel, SecondLevel, MinuteLevel, HourLevel, DayLevel, MonthLevel, YearLevel]

  /**
   * The context label: the date's millisecond head, common digits and tail
   * when both ends share a millisecond but not their last six digits; else
   * the finest format whose floors agree; else undefined.
   */
  datatype Context = Remainder(date: int, digits: string) | AtLevel(level: ContextLevel, date: int) | NoContext

  /** The first level from `k` on at which the two dates floor alike. */
  function FirstAgreeing(floor: (ContextLevel, int) -> int, d0: int, d1: int, k: nat): (r: Option<nat>)
    requires k <= |ContextLevels|
    ensures r.Some? ==> k <= r.value < |ContextLevels|
                        && floor(ContextLevels[r.value], d0) == floor(ContextLevels[r.value], d1)
    ensures forall j :: k <= j < |ContextLevels| && (r.None? || j < r.value) ==>
              floor(ContextLevels[j], d0) != floor(ContextLevels[j], d1)
    decreases |ContextLevels| - k
  {
    if k == |ContextLevels| then None
    else if floor(ContextLevels[k], d0) == floor(ContextLevels[k], d1) then Some(k)
    else FirstAgreeing(floor, d0, d1, k + 1)
  }

  function ContextOf(floor: (ContextLevel, int) -> int, t0: int, t1: int): Context {
    var d0, d1 := NsToDate(t0), NsToDate(t1);
    var a, b := LastSix(t0), LastSix(t1);
    if d0 == d1 && a != b then Remainder(d0, CommonPrefix(a, b, 5))
    else match FirstAgreeing(floor, d0, d1, 0)
      case Some(k) => AtLevel(ContextLevels[k], d0)
      case None => NoContext
  }

  /** `scale.contextFormat()` on the domain `[t0, t1]`, with the calendar floors given. */
  method ContextFormat(floor: (ContextLevel, int) -> int, t0: int, t1: int) returns (r: Context)
    ensures r == ContextOf(floor, t0, t1)
  {
    var d0 := NsToDate(t0);
    var d1 := NsToDate(t1);
    var a := LastSix(t0);
    var b := LastSix(t1);
    if d0 == d1 && a != b {
      var digits := CommonDigits(a, b);
      return Remainder(d0, digits);
    }
    for k := 0 to |ContextLevels|
      invariant FirstAgreeing(floor, d0, d1, 0) == FirstAgreeing(floor, d0, d1, k)
    {
      if floor(ContextLevels[k], d0) == floor(ContextLevels[k], d1) {
        return AtLevel(ContextLevels[k], d0);
      }
    }
    return NoContext;
  }

  /**
   * Within one millisecond the context shows the common leading digits of
   * the last six, at most five of them, stopping at the first difference.
   */
  lemma ContextDigits(floor: (ContextLevel, int) -> int, t0: int, t1: int)
    requires NsToDate(t0) == NsToDate(t1) && LastSix(t0) != LastSix(t1)
    ensures var c, a, b := ContextOf(floor, t0, t1), LastSix(t0), LastSix(t1);
      c.Remainder? && c.date == NsToDate(t0)
      && |c.digits| <= 5 && c.digits == a[..|c.digits|] && c.digits == b[..|c.digits|]
      && (|c.digits| < 5 ==> |c.digits| == |a| || |c.digits| == |b| || a[|c.digits|] != b[|c.digits|])
  {
  }

  /** Otherwise the context is the finest format whose floors of the two dates agree. */
  lemma ContextLevelFinest(floor: (ContextLevel, int) -> int, t0: int, t1: int)
    requires !(NsToDate(t0) == NsToDate(t1) && LastSix(t0) != LastSix(t1))
    ensures var c, d0, d1 := ContextOf(floor, t0, t1), NsToDate(t0), NsToDate(t1);
      (c.AtLevel? || c.NoContext?)
      && (c.AtLevel? ==>
            (c.date == d0 && floor(c.level, d0) == floor(c.level, d1)
             && exists k :: 0 <= k < |ContextLevels| && ContextLevels[k] == c.level
                  && forall j :: 0 <= j < k ==> floor(ContextLevels[j], d0) != floor(ContextLevels[j], d1)))
      && (c.NoContext? ==> forall j :: 0 <= j < |ContextLevels| ==> floor(ContextLevels[j], d0) != floor(ContextLevels[j], d1))
  {
    var d0, d1 := NsToDate(t0), NsToDate(t1);
    var f := FirstAgreeing(floor, d0, d1, 0);
    if f.Some? {
      assert ContextLevels[f.value] == ContextOf(floor, t0, t1).level;
    }
  }
}
