/** The "Baseline Target" browse: the years in which features became
    newly available, newest first, and for a chosen year its features in
    date order, each list shown in a scrolling picker. */
module BaselineTarget {
  import opened Text
  import opened Features
  import opened ScrollList

  /** The year of a `baseline_low_date`: the text before the first `-`,
      without one leading `≤`. */
  function YearOf(date: string): string
  {
    StripLeading(BeforeFirst(date, '-'), '≤')
  }

  lemma BeforeFirstOfJoin(y: string, rest: string)
    requires '-' !in y
    ensures BeforeFirst(y + "-" + rest, '-') == y
  {
    var s := y + "-" + rest;
    var r := BeforeFirst(s, '-');
    assert s[|y|] == '-';
    assert forall i :: 0 <= i < |y| ==> s[i] == y[i];
  }

  /** `"2021-04-20"` has the year `"2021"`, and so has `"≤2021-04-20"`. */
  lemma YearOfDate(y: string, rest: string)
    requires '-' !in y && !StartsWith(y, "≤")
    ensures YearOf(y + "-" + rest) == y
    ensures YearOf("≤" + y + "-" + rest) == y
  {
    BeforeFirstOfJoin(y, rest);
    assert '-' !in "≤" + y;
    BeforeFirstOfJoin("≤" + y, rest);
    assert ("≤" + y)[1..] == y;
  }

  /** The entries the browse considers: of kind `feature`, with a status
      whose `baseline_low_date` is a non-empty string. */
  predicate HasLowDate(f: Feature)
  {
    f.kind == FeatureKind && f.status.Some? && Truthy(f.status.value.lowDate)
  }

  function FeatureYear(f: Feature): string
    requires HasLowDate(f)
  {
    YearOf(f.status.value.lowDate.value)
  }

  /** The predicate shared by `getFeatureCountForYear` and the year's list. */
  predicate InYear(f: Feature, year: string)
  {
    HasLowDate(f) && FeatureYear(f) == year
  }

  function InYearOf(year: string): Feature -> bool
  {
    f => InYear(f, year)
  }

  /** No value occurs twice. */
  ghost predicate NoDuplicates<T(!new)>(s: seq<T>)
  {
    forall x :: multiset(s)[x] <= 1
  }

  /** The sort comparator `parseInt(b) - parseInt(a)`: larger years first.
      A year that is not a number is placed after all numeric years. */
  predicate YearBefore(a: string, b: string)
  {
    match (ParseInt(a), ParseInt(b))
    case (Some(x), Some(y)) => y <= x
    case (Some(_), None) => true
    case (None, Some(_)) => false
    case (None, None) => true
  }

  lemma YearBeforeIsPreorder()
    ensures TotalPreorder(YearBefore)
  {
  }

  /** The year list effect: collect the distinct years of the dated
      `feature` entries into a set (insertion order), then sort it newest
      first. */
  method LoadYears(all: seq<Feature>) returns (years: seq<string>)
    ensures NoDuplicates(years)
    ensures forall y :: y in years <==> exists j :: 0 <= j < |all| && InYear(all[j], y)
    ensures SortedBy(years, YearBefore)
  {
    var seen: seq<string> := [];
    var i := 0;
    while i < |all|
      invariant 0 <= i <= |all|
      invariant NoDuplicates(seen)
      invariant forall y :: y in seen <==> exists j :: 0 <= j < i && InYear(all[j], y)
    {
      var f := all[i];
      if HasLowDate(f) {
        var y := FeatureYear(f);
        assert InYear(all[i], y);
        if y !in seen {
          seen := seen + [y];
        }
      }
      i := i + 1;
    }
    YearBeforeIsPreorder();
    years := Sort(seen, YearBefore);
    SameElements(years, seen);
  }

  /** `getFeatureCountForYear(year)` */
  function FeatureCountForYear(all: seq<Feature>, year: string): (n: nat)
    ensures n <= |all|
    ensures n == 0 <==> forall f :: f in all ==> !InYear(f, year)
  {
    |Filter(all, InYearOf(year))|
  }

  /** `baseline_low_date || ""`, the sort key of the year's list. */
  function LowDateKey(f: Feature): string
  {
    if Truthy(LowDate(f)) then LowDate(f).value else ""
  }

  /** The feature list effect: push every dated `feature` entry of the
      year, then sort by `baseline_low_date`, oldest first. The list has
      exactly as many entries as the year picker announced. */
  method LoadFeaturesForYear(all: seq<Feature>, year: string) returns (list: seq<Feature>)
    ensures forall f :: f in list <==> f in all && InYear(f, year)
    ensures multiset(list) == multiset(Filter(all, InYearOf(year)))
    ensures |list| == FeatureCountForYear(all, year)
    ensures SortedBy(list, AscendingBy(LowDateKey))
    ensures StableOrder(list, Filter(all, InYearOf(year)), AscendingBy(LowDateKey))
  {
    var pushed := CollectYear(all, year);
    AscendingIsPreorder(LowDateKey);
    list := Sort(pushed, AscendingBy(LowDateKey));
    SameElements(list, pushed);
  }

  /** The pushing loop of the feature list effect. */
  method CollectYear(all: seq<Feature>, year: string) returns (pushed: seq<Feature>)
    ensures pushed == Filter(all, InYearOf(year))
  {
    var matches := InYearOf(year);
    pushed := [];
    var i := 0;
    while i < |all|
      invariant 0 <= i <= |all|
      invariant pushed == Filter(all[..i], matches)
    {
      FilterPrefixStep(all, i, matches);
      if matches(all[i]) {
        pushed := pushed + [all[i]];
      }
      i := i + 1;
    }
    assert all[..i] == all;
  }

  /** Mounting the year picker. */
  method OpenYearSelection(all: seq<Feature>) returns (screen: Picker<string>)
    ensures fresh(screen) && screen.Valid() && screen.State() == Initial
    ensures NoDuplicates(screen.items) && SortedBy(screen.items, YearBefore)
    ensures forall y :: y in screen.items <==> exists j :: 0 <= j < |all| && InYear(all[j], y)
  {
    var years := LoadYears(all);
    screen := new Picker(years);
  }

  /** Mounting the feature picker for `year`. */
  method OpenFeatureSelection(all: seq<Feature>, year: string) returns (screen: Picker<Feature>)
    ensures fresh(screen) && screen.Valid() && screen.State() == Initial
    ensures |screen.items| == FeatureCountForYear(all, year)
    ensures forall f :: f in screen.items <==> f in all && InYear(f, year)
    ensures multiset(screen.items) == multiset(Filter(all, InYearOf(year)))
    ensures SortedBy(screen.items, AscendingBy(LowDateKey))
    ensures StableOrder(screen.items, Filter(all, InYearOf(year)), AscendingBy(LowDateKey))
  {
    var list := LoadFeaturesForYear(all, year);
    screen := new Picker(list);
  }
}
