/** The "recent changes" screen: the features that became widely
    available, and those that became newly available, within the last 28
    days, each group newest first, shown as one scrolling list. */
module RecentBaseline {
  import opened Text
  import opened Features
  import opened Paging
  import opened ScrollList

  /** Milliseconds in a day, and in the 28-day window `28 * 24 * 60 * 60 * 1000`. */
  const DayMs: nat := 86400000
  const WindowMs: nat := 28 * DayMs

  /** The value of the four-character digit run `s[i..i+n]`, if every
      character is a digit. */
  function DigitsAt(s: string, i: nat, n: nat): Option<nat>
    requires i + n <= |s|
  {
    var ds := s[i..i + n];
    if forall k :: 0 <= k < |ds| ==> IsDigit(ds[k]) then Some(DigitsValue(ds)) else None
  }

  /** The day number (days since 1970-01-01, proleptic Gregorian) of a
      civil date, counting years from March so that a leap day falls at
      the end of one. */
  function DaysFromCivil(y: int, m: int, d: int): int
    requires 1 <= m <= 12 && 1 <= d <= 31
  {
    var y' := if m <= 2 then y - 1 else y;
    var mp := if m > 2 then m - 3 else m + 9;
    var doy := (153 * mp + 2) / 5 + d - 1;
    DaysBeforeMarchYear(y') + doy - 719468
  }

  /** Days from 0000-03-01 to March 1st of year `y`, by 400-year eras. */
  function DaysBeforeMarchYear(y: int): int
  {
    var era := y / 400;
    var yoe := y - era * 400;
    era * 146097 + yoe * 365 + yoe / 4 - yoe / 100
  }

  /** The year from March 1st of `y` to March 1st of `y + 1` holds the
      February of `y + 1`: 366 days when that is a leap year, else 365. */
  lemma MarchYearLength(y: int)
    ensures DaysBeforeMarchYear(y + 1) == DaysBeforeMarchYear(y) + if IsLeapYear(y + 1) then 366 else 365
  {
    var era := y / 400;
    var yoe := y - era * 400;
    if yoe == 399 {
      assert y + 1 == (era + 1) * 400;
      assert (y + 1) / 400 == era + 1;
      assert IsLeapYear(y + 1);
    } else {
      assert (y + 1) / 400 == era;
      EraOffsetLeap(era, yoe + 1);
      YearOfEraStep(yoe);
    }
  }

  /** Inside an era, one more year adds 365 days and a leap day when the
      new year is a leap year (a century inside an era is not). */
  lemma YearOfEraStep(a: int)
    requires 0 <= a < 399
    ensures (a + 1) * 365 + (a + 1) / 4 - (a + 1) / 100 ==
      a * 365 + a / 4 - a / 100 + if (a + 1) % 4 == 0 && (a + 1) % 100 != 0 then 366 else 365
  {
  }

  /** Shifting a year by whole eras leaves its leap-year status alone. */
  lemma EraOffsetLeap(era: int, b: int)
    requires 0 < b < 400
    ensures IsLeapYear(era * 400 + b) <==> b % 4 == 0 && b % 100 != 0
  {
    var y := era * 400 + b;
    assert y == (era * 100 + b / 4) * 4 + b % 4;
    assert y % 4 == b % 4;
    assert y == (era * 4 + b / 100) * 100 + b % 100;
    assert y % 100 == b % 100;
    assert y % 400 == b;
  }

  /** Consecutive days of a month are consecutive day numbers. */
  lemma DaysFromCivilNextDay(y: int, m: int, d: int)
    requires 1 <= m <= 12 && 1 <= d < 31
    ensures DaysFromCivil(y, m, d + 1) == DaysFromCivil(y, m, d) + 1
  {
  }

  /** The Gregorian leap-year rule: every fourth year, except centuries
      not divisible by 400. */
  predicate IsLeapYear(y: int)
  {
    y % 4 == 0 && (y % 100 != 0 || y % 400 == 0)
  }

  function DaysInMonth(y: int, m: int): (n: int)
    requires 1 <= m <= 12
    ensures 28 <= n <= 31
    ensures m == 2 ==> (n == 29 <==> IsLeapYear(y))
  {
    if m == 2 then (if IsLeapYear(y) then 29 else 28)
    else if m == 4 || m == 6 || m == 9 || m == 11 then 30
    else 31
  }

  /** The day after the last day of a month is the 1st of the next one. */
  lemma DaysFromCivilNextMonth(y: int, m: int)
    requires 1 <= m < 12
    ensures DaysFromCivil(y, m + 1, 1) == DaysFromCivil(y, m, DaysInMonth(y, m)) + 1
  {
    if m == 2 {
      MarchYearLength(y - 1);
    }
  }

  /** The day after December 31st is January 1st of the next year. */
  lemma DaysFromCivilNewYear(y: int)
    ensures DaysFromCivil(y + 1, 1, 1) == DaysFromCivil(y, 12, 31) + 1
  {
  }

  /** The epoch is day 0. */
  lemma EpochIsDayZero()
    ensures DaysFromCivil(1970, 1, 1) == 0
  {
  }

  /** `new Date(s)` for the date-only form `YYYY-MM-DD`, as a day number;
      `None` for an Invalid Date. */
  function ParseIsoDate(s: string): (r: Option<int>)
    ensures r.Some? <==> IsoDateShape(s) && 1 <= IsoMonth(s) <= 12 && 1 <= IsoDay(s) <= 31
    ensures r.Some? ==> r.value == DaysFromCivil(IsoYear(s), IsoMonth(s), IsoDay(s))
  {
    if |s| != 10 || s[4] != '-' || s[7] != '-' then None
    else
      DigitsAtValues(s);
      match (DigitsAt(s, 0, 4), DigitsAt(s, 5, 2), DigitsAt(s, 8, 2))
      case (Some(y), Some(m), Some(d)) =>
        if 1 <= m <= 12 && 1 <= d <= 31 then Some(DaysFromCivil(y, m, d)) else None
      case _ => None
  }

  /** Ten characters: four digits, a dash, two digits, a dash, two digits. */
  predicate IsoDateShape(s: string)
  {
    |s| == 10 && s[4] == '-' && s[7] == '-' &&
    forall k :: 0 <= k < 10 && k != 4 && k != 7 ==> IsDigit(s[k])
  }

  function IsoYear(s: string): nat
    requires IsoDateShape(s)
  {
    DigitValue(s[0]) * 1000 + DigitValue(s[1]) * 100 + DigitValue(s[2]) * 10 + DigitValue(s[3])
  }

  function IsoMonth(s: string): nat
    requires IsoDateShape(s)
  {
    DigitValue(s[5]) * 10 + DigitValue(s[6])
  }

  function IsoDay(s: string): nat
    requires IsoDateShape(s)
  {
    DigitValue(s[8]) * 10 + DigitValue(s[9])
  }

  /** The three digit runs of a dashed ten-character string, read one
      character at a time. */
  lemma DigitsAtValues(s: string)
    requires |s| == 10 && s[4] == '-' && s[7] == '-'
    ensures (DigitsAt(s, 0, 4).Some? && DigitsAt(s, 5, 2).Some? && DigitsAt(s, 8, 2).Some?) <==> IsoDateShape(s)
    ensures IsoDateShape(s) ==>
      DigitsAt(s, 0, 4) == Some(IsoYear(s)) && DigitsAt(s, 5, 2) == Some(IsoMonth(s)) && DigitsAt(s, 8, 2) == Some(IsoDay(s))
  {
    DigitRun(s, 0, 4);
    DigitRun(s, 5, 2);
    DigitRun(s, 8, 2);
    if IsoDateShape(s) {
      var y, m, d := s[0..4], s[5..7], s[8..10];
      assert y[0] == s[0] && y[1] == s[1] && y[2] == s[2] && y[3] == s[3];
      assert m[0] == s[5] && m[1] == s[6] && d[0] == s[8] && d[1] == s[9];
      FourDigitsValue(y);
      TwoDigitsValue(m);
      TwoDigitsValue(d);
    }
  }

  lemma TwoDigitsValue(ds: string)
    requires |ds| == 2 && IsDigit(ds[0]) && IsDigit(ds[1])
    ensures DigitsValue(ds) == DigitValue(ds[0]) * 10 + DigitValue(ds[1])
  {
    var p1 := ds[..1];
    assert p1[..0] == [] && p1[0] == ds[0];
    assert DigitsValue(p1) == DigitValue(ds[0]);
    assert DigitsValue(ds) == DigitsValue(p1) * 10 + DigitValue(ds[1]);
  }

  lemma FourDigitsValue(ds: string)
    requires |ds| == 4 && forall k :: 0 <= k < 4 ==> IsDigit(ds[k])
    ensures DigitsValue(ds) ==
      DigitValue(ds[0]) * 1000 + DigitValue(ds[1]) * 100 + DigitValue(ds[2]) * 10 + DigitValue(ds[3])
  {
    var p3 := ds[..3];
    var p2 := p3[..2];
    assert DigitsValue(ds) == DigitsValue(p3) * 10 + DigitValue(ds[3]);
    assert DigitsValue(p3) == DigitsValue(p2) * 10 + DigitValue(ds[2]);
    TwoDigitsValue(p2);
  }

  lemma DigitRun(s: string, i: nat, n: nat)
    requires i + n <= |s|
    ensures DigitsAt(s, i, n).Some? <==> forall k :: i <= k < i + n ==> IsDigit(s[k])
  {
    var ds := s[i..i + n];
    assert forall k :: 0 <= k < n ==> ds[k] == s[i + k];
  }

  /** A date string (a leading `≤` removed) lies inside the window
      `[now - 28 days, now]`, both ends included. An Invalid Date compares
      false both ways and is never recent. */
  predicate IsRecent(date: string, nowMs: int)
  {
    var day := ParseIsoDate(StripLeading(date, '≤'));
    day.Some? && nowMs - WindowMs <= day.value * DayMs <= nowMs
  }

  /** In whole days: at midnight the window holds the 29 days
      `today - 28 .. today`, at any other time the 28 days
      `today - 27 .. today`. */
  lemma {:induction false} RecentDays(day: int, nowMs: int)
    ensures var today := nowMs / DayMs;
      var first := if nowMs % DayMs == 0 then today - 28 else today - 27;
      (nowMs - WindowMs <= day * DayMs <= nowMs) <==> first <= day <= today
  {
    var today := nowMs / DayMs;
    var rem := nowMs % DayMs;
    assert nowMs == today * DayMs + rem;
    if day <= today {
      assert day * DayMs <= today * DayMs;
    } else {
      assert day * DayMs >= (today + 1) * DayMs;
    }
    if rem == 0 {
      if day >= today - 28 {
        assert day * DayMs >= (today - 28) * DayMs;
      } else {
        assert day * DayMs <= (today - 29) * DayMs;
      }
    } else {
      if day >= today - 27 {
        assert day * DayMs >= (today - 27) * DayMs;
      } else {
        assert day * DayMs <= (today - 28) * DayMs;
      }
    }
  }

  /** The entries the screen considers: of kind `feature`, with a status. */
  predicate Considered(f: Feature)
  {
    f.kind == FeatureKind && f.status.Some?
  }

  /** Goes into the widely available group: a non-empty recent
      `baseline_high_date`. */
  predicate RecentHigh(nowMs: int, f: Feature)
  {
    Considered(f) && Truthy(f.status.value.highDate) && IsRecent(f.status.value.highDate.value, nowMs)
  }

  /** Goes into the newly available group: a non-empty recent
      `baseline_low_date`. */
  predicate RecentLow(nowMs: int, f: Feature)
  {
    Considered(f) && Truthy(f.status.value.lowDate) && IsRecent(f.status.value.lowDate.value, nowMs)
  }

  function RecentHighAt(nowMs: int): Feature -> bool
  {
    f => RecentHigh(nowMs, f)
  }

  function RecentLowAt(nowMs: int): Feature -> bool
  {
    f => RecentLow(nowMs, f)
  }

  /** The sort key of a date: `date?.replace("≤", "") || ""`. */
  function DateKey(date: Option<string>): string
  {
    if date.Some? then ReplaceFirst(date.value, "≤", "") else ""
  }

  function HighKey(f: Feature): string
  {
    DateKey(HighDate(f))
  }

  function LowKey(f: Feature): string
  {
    DateKey(LowDate(f))
  }

  /** The two pushing loops of the loading effect, run in one pass. */
  method CollectRecent(all: seq<Feature>, nowMs: int) returns (high: seq<Feature>, low: seq<Feature>)
    ensures high == Filter(all, RecentHighAt(nowMs))
    ensures low == Filter(all, RecentLowAt(nowMs))
  {
    var isHigh, isLow := RecentHighAt(nowMs), RecentLowAt(nowMs);
    high, low := [], [];
    var i := 0;
    while i < |all|
      invariant 0 <= i <= |all|
      invariant high == Filter(all[..i], isHigh)
      invariant low == Filter(all[..i], isLow)
    {
      FilterPrefixStep(all, i, isHigh);
      FilterPrefixStep(all, i, isLow);
      if isHigh(all[i]) {
        high := high + [all[i]];
      }
      if isLow(all[i]) {
        low := low + [all[i]];
      }
      i := i + 1;
    }
    assert all[..i] == all;
  }

  /** The loading effect: the recent entries of each group, every one of
      them and only those, each group sorted newest first. */
  method LoadRecent(all: seq<Feature>, nowMs: int) returns (high: seq<Feature>, low: seq<Feature>)
    ensures forall f :: f in high <==> f in all && RecentHigh(nowMs, f)
    ensures forall f :: f in low <==> f in all && RecentLow(nowMs, f)
    ensures multiset(high) == multiset(Filter(all, RecentHighAt(nowMs)))
    ensures multiset(low) == multiset(Filter(all, RecentLowAt(nowMs)))
    ensures SortedBy(high, DescendingBy(HighKey))
    ensures SortedBy(low, DescendingBy(LowKey))
    ensures StableOrder(high, Filter(all, RecentHighAt(nowMs)), DescendingBy(HighKey))
    ensures StableOrder(low, Filter(all, RecentLowAt(nowMs)), DescendingBy(LowKey))
  {
    var h, l := CollectRecent(all, nowMs);
    DescendingIsPreorder(HighKey);
    DescendingIsPreorder(LowKey);
    high := Sort(h, DescendingBy(HighKey));
    low := Sort(l, DescendingBy(LowKey));
    SameElements(high, h);
    SameElements(low, l);
  }

  /** `[...recentHighFeatures, ...recentLowFeatures]` */
  function AllFeatures(high: seq<Feature>, low: seq<Feature>): seq<Feature>
  {
    high + low
  }

  /** `index < recentHighFeatures.length`: the row is labelled widely
      available and shows its high date; otherwise newly available with
      its low date. */
  predicate IsWidelyAvailable(high: seq<Feature>, index: nat)
  {
    index < |high|
  }

  function ShownDate(high: seq<Feature>, low: seq<Feature>, index: nat): Option<string>
    requires index < |AllFeatures(high, low)|
  {
    var f := AllFeatures(high, low)[index];
    if IsWidelyAvailable(high, index) then HighDate(f) else LowDate(f)
  }

  /** Every row of the combined list comes from exactly one group: the
      first `|high|` rows are the widely available group in order, the
      rest the newly available group in order, and each row shows the
      date that put it in its group. */
  lemma SectionSplit(high: seq<Feature>, low: seq<Feature>, index: nat)
    requires index < |AllFeatures(high, low)|
    ensures IsWidelyAvailable(high, index) ==> AllFeatures(high, low)[index] == high[index]
    ensures IsWidelyAvailable(high, index) ==> ShownDate(high, low, index) == HighDate(high[index])
    ensures !IsWidelyAvailable(high, index) ==> index - |high| < |low|
    ensures !IsWidelyAvailable(high, index) ==> AllFeatures(high, low)[index] == low[index - |high|]
    ensures !IsWidelyAvailable(high, index) ==> ShownDate(high, low, index) == LowDate(low[index - |high|])
  {
  }

  /** `new Date("2024-03-01")` is the day 2024-03-01. */
  lemma ParseExampleDate()
    ensures ParseIsoDate("2024-03-01") == Some(DaysFromCivil(2024, 3, 1))
  {
    var date := "2024-03-01";
    assert date[0..4] == "2024" && date[5..7] == "03" && date[8..10] == "01";
    assert DigitsValue("2024") == 2024 by {
      assert "2024"[..3] == "202" && "202"[..2] == "20" && "20"[..1] == "2";
    }
    assert DigitsValue("03") == 3 by {
      assert "03"[..1] == "0";
    }
    assert DigitsValue("01") == 1 by {
      assert "01"[..1] == "0";
    }
  }

  /** A feature that reached both statuses on the same recent day is
      listed twice, once in each group. */
  lemma {:induction false} OneFeatureInBothGroups()
    ensures var date := "2024-03-01";
      var f := Feature("x", FeatureKind, None, None, Some(Status(High, Some(date), Some(date))));
      var nowMs := DaysFromCivil(2024, 3, 1) * DayMs;
      && RecentHigh(nowMs, f) && RecentLow(nowMs, f)
      && var (high, low) := (Filter([f], RecentHighAt(nowMs)), Filter([f], RecentLowAt(nowMs)));
        AllFeatures(high, low) == [f, f]
  {
    var date := "2024-03-01";
    var f := Feature("x", FeatureKind, None, None, Some(Status(High, Some(date), Some(date))));
    var nowMs := DaysFromCivil(2024, 3, 1) * DayMs;
    assert StripLeading(date, '≤') == date;
    ParseExampleDate();
    assert IsRecent(date, nowMs);
    assert RecentHigh(nowMs, f) && RecentLow(nowMs, f);
    assert Filter([f], RecentHighAt(nowMs)) == [f];
    assert Filter([f], RecentLowAt(nowMs)) == [f];
  }

  /** Mounting the screen: the groups are loaded and the list starts at
      its first row. */
  method OpenRecent(all: seq<Feature>, nowMs: int) returns (high: seq<Feature>, low: seq<Feature>, screen: Picker<Feature>)
    ensures fresh(screen) && screen.Valid() && screen.State() == Initial
    ensures screen.items == AllFeatures(high, low)
    ensures forall f :: f in high <==> f in all && RecentHigh(nowMs, f)
    ensures forall f :: f in low <==> f in all && RecentLow(nowMs, f)
    ensures multiset(high) == multiset(Filter(all, RecentHighAt(nowMs)))
    ensures multiset(low) == multiset(Filter(all, RecentLowAt(nowMs)))
    ensures SortedBy(high, DescendingBy(HighKey)) && SortedBy(low, DescendingBy(LowKey))
    ensures StableOrder(high, Filter(all, RecentHighAt(nowMs)), DescendingBy(HighKey))
    ensures StableOrder(low, Filter(all, RecentLowAt(nowMs)), DescendingBy(LowKey))
  {
    high, low := LoadRecent(all, nowMs);
    screen := new Picker(AllFeatures(high, low));
  }
}
