/**
 The study-streak tracker: date keys, the count-to-intensity mapping, the
 140-day heatmap window, the current and longest streak over the last 365
 days, and the check-in and reset updates.

 Days are integer offsets back from today (0 is today, 1 is yesterday), and
 the activity record maps a day to the number of sessions checked in on it.

 The streak loop walks back 365 days and leaves in `cur` the run of active
 days that reaches the OLDEST day of that window, not the run that includes
 today, although the code's comment says otherwise. `ComputeStreaks` keeps
 the loop as written and states what it really returns; `Streaks` is the
 intended definition.
 */
module StreakHeatmap {
  import opened Text

  /** Session counts by day offset: 0 is today, k is k days ago. */
  type Activity = map<int, int>

  /** The number of days the streak computation looks back over, today included. */
  const Horizon: int := 365
  /** The number of cells in the heatmap: twenty weeks. */
  const WindowDays: int := 7 * 20

  /** `activity[key] || 0`. */
  function Count(a: Activity, day: int): int
  {
    if day in a then a[day] else 0
  }

  predicate Active(a: Activity, day: int)
  {
    Count(a, day) > 0
  }

  // ---------------------------------------------------------------------------
  // Date keys

  /** `formatDate`: year, then the 1-based month and the day of the month, each zero-padded to two digits. */
  function FormatDate(year: int, monthIndex: int, day: int): (r: string)
    ensures year >= 0 && 0 <= monthIndex <= 11 && 1 <= day <= 31 ==>
              ParseDateKey(r) == Some(DateParts(year, monthIndex, day))
  {
    var ys := IntToString(year);
    var ms := PadStart(IntToString(monthIndex + 1), 2, '0');
    var ds := PadStart(IntToString(day), 2, '0');
    if year >= 0 && 0 <= monthIndex <= 11 && 1 <= day <= 31 then
      TwoDigits(monthIndex + 1);
      TwoDigits(day);
      DecimalRoundTrip(year);
      ParseKeyParts(ys, ms, ds);
      ys + "-" + ms + "-" + ds
    else ys + "-" + ms + "-" + ds
  }

  datatype DateParts = DateParts(year: int, monthIndex: int, day: int)

  /** Reads a `Y-MM-DD` key back: any number of year digits, then two month and two day digits. */
  function ParseDateKey(s: string): Option<DateParts>
  {
    if |s| >= 7 && s[|s| - 6] == '-' && s[|s| - 3] == '-' then
      match (ParseNat(s[..|s| - 6]), ParseNat(s[|s| - 5..|s| - 3]), ParseNat(s[|s| - 2..]))
      case (Some(y), Some(m), Some(d)) => Some(DateParts(y, m as int - 1, d))
      case _ => None
    else None
  }

  /** A one- or two-digit number padded to two digits is exactly two digits with that value. */
  lemma TwoDigits(n: nat)
    requires n < 100
    ensures |PadStart(IntToString(n), 2, '0')| == 2
    ensures ParseNat(PadStart(IntToString(n), 2, '0')) == Some(n)
  {
    PadZerosValue(n, 2);
    if n >= 10 {
      assert NatToString(n) == NatToString(n / 10) + [DigitChar(n % 10)];
    }
  }

  /** A key made of a year numeral and two two-digit fields reads back field by field. */
  lemma ParseKeyParts(ys: string, ms: string, ds: string)
    requires |ms| == 2 && |ds| == 2
    requires ParseNat(ys).Some? && ParseNat(ms).Some? && ParseNat(ds).Some?
    ensures ParseDateKey(ys + "-" + ms + "-" + ds)
            == Some(DateParts(ParseNat(ys).value, ParseNat(ms).value as int - 1, ParseNat(ds).value))
  {
    var s := ys + "-" + ms + "-" + ds;
    assert s[..|s| - 6] == ys;
    assert s[|s| - 5..|s| - 3] == ms;
    assert s[|s| - 2..] == ds;
  }

  /** Every calendar date's key is the year's numeral followed by six characters: `-MM-DD`. */
  lemma FormatDateLength(year: nat, monthIndex: int, day: int)
    requires 0 <= monthIndex <= 11 && 1 <= day <= 31
    ensures |FormatDate(year, monthIndex, day)| == |NatToString(year)| + 6
  {
    TwoDigits(monthIndex + 1);
    TwoDigits(day);
  }

  /** Different calendar dates have different keys. */
  lemma FormatDateInjective(y1: nat, m1: int, d1: int, y2: nat, m2: int, d2: int)
    requires 0 <= m1 <= 11 && 1 <= d1 <= 31
    requires 0 <= m2 <= 11 && 1 <= d2 <= 31
    requires FormatDate(y1, m1, d1) == FormatDate(y2, m2, d2)
    ensures y1 == y2 && m1 == m2 && d1 == d2
  {
  }

  // ---------------------------------------------------------------------------
  // The heatmap

  /** The intensity of a cell, from its session count. */
  function Level(count: int): (l: int)
    ensures 0 <= l <= 4
    ensures l == 0 <==> count < 1
    ensures l == 1 <==> 1 <= count < 3
    ensures l == 2 <==> 3 <= count < 6
    ensures l == 3 <==> 6 <= count < 10
    ensures l == 4 <==> count >= 10
  {
    if count >= 1 && count < 3 then 1
    else if count >= 3 && count < 6 then 2
    else if count >= 6 && count < 10 then 3
    else if count >= 10 then 4
    else 0
  }

  /** More sessions never show as a lighter cell. */
  lemma LevelMonotone(c1: int, c2: int)
    requires c1 <= c2
    ensures Level(c1) <= Level(c2)
  {
  }

  datatype DayCell = DayCell(offset: int, level: int)

  /** The heatmap's cells, oldest first. */
  function Window(a: Activity): (cells: seq<DayCell>)
    ensures |cells| == WindowDays
    ensures forall j :: 0 <= j < |cells| ==> cells[j].offset == WindowDays - 1 - j
    ensures forall j :: 0 <= j < |cells| ==> cells[j].level == Level(Count(a, cells[j].offset))
  {
    seq(WindowDays, j requires 0 <= j < WindowDays => DayCell(WindowDays - 1 - j, Level(Count(a, WindowDays - 1 - j))))
  }

  /** The window runs strictly from older to newer days, ends with today, and covers exactly the last 140 days. */
  lemma WindowCoversLastDays(a: Activity)
    ensures forall i, j :: 0 <= i < j < WindowDays ==> Window(a)[i].offset > Window(a)[j].offset
    ensures Window(a)[WindowDays - 1].offset == 0
    ensures forall j :: 0 <= j < WindowDays ==> 0 <= Window(a)[j].offset < WindowDays
  {
  }

  // ---------------------------------------------------------------------------
  // Runs of active days

  /** The number of consecutive active days starting at `start` and moving back in time, stopping before `end`. */
  function RunFrom(a: Activity, start: int, end: int): (r: nat)
    ensures r <= Max(end - start, 0)
    decreases end - start
  {
    if start >= end || !Active(a, start) then 0 else 1 + RunFrom(a, start + 1, end)
  }

  /** The run from `start` covers only active days, and stops at an inactive one unless the window ends first. */
  lemma {:induction false} RunFromSpans(a: Activity, start: int, end: int)
    ensures forall d :: start <= d < start + RunFrom(a, start, end) ==> Active(a, d)
    ensures start + RunFrom(a, start, end) < end ==> !Active(a, start + RunFrom(a, start, end))
    decreases end - start
  {
    if start < end && Active(a, start) {
      RunFromSpans(a, start + 1, end);
    }
  }

  /** The number of consecutive active days ending at day `i` and moving towards today. */
  function RunBack(a: Activity, i: int): (r: nat)
    ensures r <= Max(i + 1, 0)
    decreases i + 1
  {
    if i < 0 || !Active(a, i) then 0 else 1 + RunBack(a, i - 1)
  }

  /** The run ending at `i` covers only active days, and is bounded by an inactive day unless it reaches today. */
  lemma {:induction false} RunBackSpans(a: Activity, i: int)
    ensures forall d :: i - RunBack(a, i) < d <= i ==> Active(a, d)
    ensures i - RunBack(a, i) >= 0 ==> !Active(a, i - RunBack(a, i))
    decreases i + 1
  {
    if i >= 0 && Active(a, i) {
      RunBackSpans(a, i - 1);
    }
  }

  /** The longest run of active days among the days `0 .. n-1`. */
  function MaxRun(a: Activity, n: nat): (r: nat)
    ensures r <= n
  {
    if n == 0 then 0 else Max(MaxRun(a, n - 1), RunBack(a, n - 1))
  }

  /** `MaxRun` is the maximum: it bounds every run ending in the first `n` days and is attained by one. */
  lemma {:induction false} MaxRunIsMax(a: Activity, n: nat)
    ensures forall i :: 0 <= i < n ==> RunBack(a, i) <= MaxRun(a, n)
    ensures n > 0 ==> exists i :: 0 <= i < n && RunBack(a, i) == MaxRun(a, n)
  {
    if n > 0 {
      MaxRunIsMax(a, n - 1);
      if n == 1 || MaxRun(a, n - 1) <= RunBack(a, n - 1) {
        assert RunBack(a, n - 1) == MaxRun(a, n);
      } else {
        var w :| 0 <= w < n - 1 && RunBack(a, w) == MaxRun(a, n - 1);
        assert RunBack(a, w) == MaxRun(a, n);
      }
    }
  }

  /** A run that ends inside the first `n` days is no longer than the longest run there, nor than `n`. */
  lemma RunBackWithinMax(a: Activity, i: int, n: nat)
    requires 0 <= i < n
    ensures RunBack(a, i) <= MaxRun(a, n) <= n
  {
    MaxRunIsMax(a, n);
  }

  /** A run that starts inside the first `n` days is no longer than the longest run there. */
  lemma {:induction false} RunFromWithinMax(a: Activity, start: int, n: nat)
    requires 0 <= start <= n
    ensures RunFrom(a, start, n) <= MaxRun(a, n)
  {
    var k := RunFrom(a, start, n);
    if k > 0 {
      RunFromSpans(a, start, n);
      RunBackAtLeast(a, start + k - 1, k);
      RunBackWithinMax(a, start + k - 1, n);
    }
  }

  /** `k` active days ending at `i` make a backward run of at least `k`. */
  lemma {:induction false} RunBackAtLeast(a: Activity, i: int, k: nat)
    requires k <= i + 1
    requires forall d :: i - k < d <= i ==> Active(a, d)
    ensures RunBack(a, i) >= k
    decreases k
  {
    if k > 0 {
      RunBackAtLeast(a, i - 1, k - 1);
    }
  }

  // ---------------------------------------------------------------------------
  // Streaks

  /**
   The first loop of the streak computation: walking back over `Horizon`
   days, `cur` counts the active days since the last inactive one and `best`
   keeps the largest value `cur` reached.
   */
  method WalkBack(a: Activity) returns (cur: nat, best: nat)
    ensures cur == RunBack(a, Horizon - 1)
    ensures best == MaxRun(a, Horizon)
  {
    cur, best := 0, 0;
    var i := 0;
    while i < Horizon
      invariant 0 <= i <= Horizon
      invariant cur == RunBack(a, i - 1)
      invariant best == MaxRun(a, i)
    {
      var active := Count(a, i) > 0;
      if i == 0 && !active {
        cur := 0;
      }
      if active {
        cur := if cur == 0 && i != 0 then 1 else cur + 1;
        best := Max(best, cur);
      } else {
        if i != 0 {
          cur := 0;
        }
      }
      i := i + 1;
    }
  }

  /** The second loop: the active days counted back from yesterday, up to the first inactive one. */
  method CountFromYesterday(a: Activity) returns (c: nat)
    ensures c == RunFrom(a, 1, Horizon)
  {
    c := 0;
    var j := 1;
    while j < Horizon
      invariant 1 <= j <= Horizon
      invariant c + RunFrom(a, j, Horizon) == RunFrom(a, 1, Horizon)
    {
      if Count(a, j) > 0 {
        c := c + 1;
      } else {
        break;
      }
      j := j + 1;
    }
  }

  /**
   The streak computation as written: the current streak is `cur` from the
   first loop unless today's count is zero, in which case it is the count back
   from yesterday.
   */
  method ComputeStreaks(a: Activity) returns (current: nat, longest: nat)
    ensures Count(a, 0) == 0 ==> current == RunFrom(a, 1, Horizon)
    ensures Count(a, 0) != 0 ==> current == RunBack(a, Horizon - 1)
    ensures longest == MaxRun(a, Horizon)
    ensures current <= longest <= Horizon
  {
    var cur, best := WalkBack(a);
    if Count(a, 0) == 0 {
      var c := CountFromYesterday(a);
      RunFromWithinMax(a, 1, Horizon);
      current, longest := c, Max(best, c);
    } else {
      RunBackWithinMax(a, Horizon - 1, Horizon);
      current, longest := cur, best;
    }
  }

  /**
   The comment's claim fails: with only today checked in, the streak shown is
   0 (the run at the far end of the window), not the 1 day that includes today.
   */
  lemma TodayStreakClaimFails()
    ensures var a := map[0 := 1];
      && Active(a, 0)
      && RunBack(a, Horizon - 1) == 0
      && RunFrom(a, 0, Horizon) == 1
  {
    var a := map[0 := 1];
    assert RunFrom(a, 1, Horizon) == 0;
  }

  datatype StreakCounts = StreakCounts(current: nat, longest: nat)

  /** The intended streaks: the run that includes today when today is active, otherwise the run ending yesterday. */
  function Streaks(a: Activity): (s: StreakCounts)
    ensures Active(a, 0) ==> s.current >= 1 && s.current == RunFrom(a, 0, Horizon)
    ensures !Active(a, 0) ==> s.current == RunFrom(a, 1, Horizon)
    ensures forall d :: (if Active(a, 0) then 0 else 1) <= d < (if Active(a, 0) then 0 else 1) + s.current ==> Active(a, d)
    ensures s.current <= s.longest <= Horizon
    ensures s.longest == MaxRun(a, Horizon)
    ensures forall i :: 0 <= i < Horizon ==> RunBack(a, i) <= s.longest
    ensures exists i :: 0 <= i < Horizon && RunBack(a, i) == s.longest
  {
    MaxRunIsMax(a, Horizon);
    var current := if Active(a, 0) then RunFrom(a, 0, Horizon) else RunFrom(a, 1, Horizon);
    RunFromSpans(a, if Active(a, 0) then 0 else 1, Horizon);
    RunFromWithinMax(a, if Active(a, 0) then 0 else 1, Horizon);
    StreakCounts(current, MaxRun(a, Horizon))
  }

  /** The code's answer agrees with the intended one whenever today has no sessions. */
  lemma StreaksAgreeWhenTodayEmpty(a: Activity)
    requires Count(a, 0) == 0
    ensures Streaks(a).current == RunFrom(a, 1, Horizon)
    ensures Streaks(a).longest == MaxRun(a, Horizon)
  {
  }

  // ---------------------------------------------------------------------------
  // Updates

  /** "Check in today": one more session today, every other day unchanged. */
  function MarkToday(a: Activity): (r: Activity)
    ensures Count(r, 0) == Count(a, 0) + 1
    ensures forall d :: d != 0 ==> Count(r, d) == Count(a, d)
    ensures r.Keys == a.Keys + {0}
  {
    a[0 := Count(a, 0) + 1]
  }

  /** "Reset": no activity at all. */
  function ResetActivity(): (r: Activity)
    ensures forall d :: Count(r, d) == 0
  {
    map[]
  }

  /** Checking in starts or extends today's streak by exactly one day. */
  lemma MarkTodayExtendsStreak(a: Activity)
    requires Count(a, 0) >= 0
    ensures Active(MarkToday(a), 0)
    ensures Streaks(MarkToday(a)).current == 1 + RunFrom(a, 1, Horizon)
  {
    var m := MarkToday(a);
    RunFromSameDays(a, m, 1, Horizon);
  }

  lemma {:induction false} RunFromSameDays(a: Activity, b: Activity, start: int, end: int)
    requires start >= 1
    requires forall d :: d >= 1 ==> Count(a, d) == Count(b, d)
    ensures RunFrom(a, start, end) == RunFrom(b, start, end)
    decreases end - start
  {
    if start < end {
      RunFromSameDays(a, b, start + 1, end);
    }
  }

  /** After a reset both streaks are zero. */
  lemma ResetClearsStreaks()
    ensures Streaks(ResetActivity()) == StreakCounts(0, 0)
  {
    var a := ResetActivity();
    assert RunFrom(a, 1, Horizon) == 0;
    NoRunsWithoutActivity(a, Horizon);
  }

  lemma {:induction false} NoRunsWithoutActivity(a: Activity, n: nat)
    requires forall d :: !Active(a, d)
    ensures MaxRun(a, n) == 0
  {
    if n > 0 {
      NoRunsWithoutActivity(a, n - 1);
    }
  }
}
