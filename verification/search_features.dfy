/** The line-oriented free-text search: a keyword prompt, a search over
    key, name and description, and numbered result pages of ten with a
    choice prompt. Each prompt re-enters a screen; the model is the
    transition from a screen and the typed line to the next screen. */
module ReadlineSearch {
  import opened Text
  import opened Features
  import opened Paging
  import SearchPagination

  /** The match: the lower-cased key contains the lower-cased keyword, or
      the entry is of kind `feature` and its lower-cased name or
      description does. */
  predicate ReadlineMatches(f: Feature, lowerKeyword: string)
  {
    || Contains(Lower(f.key), lowerKeyword)
    || (f.kind == FeatureKind &&
        (|| (Truthy(f.name) && Contains(Lower(f.name.value), lowerKeyword))
         || (Truthy(f.description) && Contains(Lower(f.description.value), lowerKeyword))))
  }

  function MatchesKeyword(keyword: string): Feature -> bool
  {
    f => ReadlineMatches(f, Lower(keyword))
  }

  /** `searchFeatures(allFeatures, keyword)`: the matching entries in
      dataset order. */
  function SearchFeatures(all: seq<Feature>, keyword: string): (r: seq<Feature>)
    ensures IsSubsequence(r, all)
    ensures forall f :: f in r <==> f in all && ReadlineMatches(f, Lower(keyword))
    ensures forall f :: multiset(r)[f] == if ReadlineMatches(f, Lower(keyword)) then multiset(all)[f] else 0
  {
    FilterCounts(all, MatchesKeyword(keyword));
    Filter(all, MatchesKeyword(keyword))
  }

  /** For the same non-blank keyword the Ink screen finds a subset of
      these results, in the same relative order: its match is this one
      without the description. */
  lemma InkResultsWithinReadlineResults(all: seq<Feature>, keyword: string)
    requires Trim(keyword) != []
    ensures IsSubsequence(SearchPagination.SearchFeatures(all, keyword), SearchFeatures(all, keyword))
  {
    var lk := Lower(keyword);
    var p := (f: Feature) => SearchPagination.InkMatches(f, lk);
    var q := MatchesKeyword(keyword);
    assert forall f :: p(f) ==> q(f);
    FilterMonotone(all, p, q);
  }

  /** The screens of the flow: the keyword prompt, the no-results menu,
      a results page starting at `start`, the detail view of a selected
      entry (which returns to the page it was opened from), and `Back`,
      the caller's callback. */
  datatype Screen =
    | Prompt
    | NoResults(keyword: string)
    | Results(keyword: string, start: nat)
    | Detail(keyword: string, feature: Feature, returnTo: nat)
    | Back

  /** `performSearch(keyword)`: the no-results menu, or the first page. */
  function Perform(all: seq<Feature>, keyword: string): (s: Screen)
    ensures s.NoResults? <==> |SearchFeatures(all, keyword)| == 0
    ensures s == NoResults(keyword) || s == Results(keyword, 0)
    ensures Reachable(all, s)
  {
    if |SearchFeatures(all, keyword)| == 0 then NoResults(keyword) else Results(keyword, 0)
  }

  /** The keyword prompt: a blank line asks again; otherwise the trimmed
      line is searched. */
  function ReadKeyword(all: seq<Feature>, line: string): (s: Screen)
    ensures s == Prompt <==> IsBlank(line)
    ensures !IsBlank(line) ==> s == Perform(all, Trim(line))
  {
    TrimEmptyIffBlank(line);
    if Trim(line) == [] then Prompt else Perform(all, Trim(line))
  }

  /** The no-results menu: `1` searches again from the prompt, `2` goes
      back, anything else repeats the same search. */
  function NoResultsChoice(all: seq<Feature>, keyword: string, line: string): Screen
  {
    var choice := Trim(line);
    if choice == "1" then Prompt
    else if choice == "2" then Back
    else Perform(all, keyword)
  }

  /** What a results page shows: the entries `start .. endIndex`, the
      page number `floor(start / 10) + 1` of `ceil(n / 10)`, and whether
      Enter leads to a next page. */
  datatype PageView = PageView(
    items: seq<Feature>,
    endIndex: nat,
    currentPage: nat,
    totalPages: nat,
    hasNext: bool)

  function View(results: seq<Feature>, start: nat): PageView
  {
    var endIndex := PageEnd(start, |results|);
    PageView(
      Slice(results, start, endIndex),
      endIndex,
      start / PageSize + 1,
      TotalPages(|results|),
      endIndex < |results|)
  }

  /** Pages are numbered from 1 and hold the same entries as the page
      `start / 10` of the Ink screen; the next page is offered exactly
      when entries remain after this one. */
  lemma ViewIsPage(results: seq<Feature>, start: nat)
    requires start % PageSize == 0 && start < |results|
    ensures var v := View(results, start);
      && v.items == Page(results, start / PageSize)
      && 1 <= v.currentPage <= v.totalPages
      && 0 < |v.items| <= PageSize
      && v.endIndex == start + |v.items|
      && (forall i :: 0 <= i < |v.items| ==> v.items[i] == results[start + i])
      && (v.hasNext <==> v.currentPage < v.totalPages)
  {
    assert start / PageSize * PageSize == start;
  }

  /** The choice prompt of a results page. On the numbers shown: `1` to
      `len` open that entry, `len + 1` searches again, `len + 2` goes
      back. An empty line turns the page when there is a next one. Any
      other line is invalid and the same page is shown again. */
  function ResultsChoice(results: seq<Feature>, keyword: string, start: nat, line: string): Screen
  {
    AnswerChoice(results, keyword, start, Trim(line))
  }

  /** The choice prompt once the answer is trimmed. */
  function AnswerChoice(results: seq<Feature>, keyword: string, start: nat, input: string): Screen
  {
    var v := View(results, start);
    if input == "" && v.hasNext then Results(keyword, v.endIndex)
    else NumberChoice(v.items, keyword, start, ParseInt(input))
  }

  /** The numbered part of the choice prompt; `None` is `NaN`, which
      every comparison rejects. */
  function NumberChoice(items: seq<Feature>, keyword: string, start: nat, choice: Option<int>): Screen
  {
    match choice
    case Some(k) =>
      if 1 <= k <= |items| then Detail(keyword, items[k - 1], start)
      else if k == |items| + 1 then Prompt
      else if k == |items| + 2 then Back
      else Results(keyword, start)
    case None => Results(keyword, start)
  }

  /** From a page that starts at a multiple of ten inside the results,
      the choice prompt leads to such a page, to a detail view of one of
      the results that returns to this page, or out of the results. */
  lemma ResultsChoiceReachable(results: seq<Feature>, keyword: string, start: nat, line: string)
    requires start % PageSize == 0 && start < |results|
    ensures var s := ResultsChoice(results, keyword, start, line);
      && (s.Results? ==> s.keyword == keyword && s.start % PageSize == 0 && s.start < |results|)
      && (s.Detail? ==> s.keyword == keyword && s.returnTo == start && s.feature in results)
      && (s.Prompt? || s.Back? || s.Results? || s.Detail?)
  {
    AnswerChoiceReachable(results, keyword, start, Trim(line));
  }

  lemma AnswerChoiceReachable(results: seq<Feature>, keyword: string, start: nat, input: string)
    requires start % PageSize == 0 && start < |results|
    ensures var s := AnswerChoice(results, keyword, start, input);
      && (s.Results? ==> s.keyword == keyword && s.start % PageSize == 0 && s.start < |results|)
      && (s.Detail? ==> s.keyword == keyword && s.returnTo == start && s.feature in results)
      && (s.Prompt? || s.Back? || s.Results? || s.Detail?)
  {
    var v := View(results, start);
    var s := AnswerChoice(results, keyword, start, input);
    if input == "" && v.hasNext {
      assert s == Results(keyword, v.endIndex);
      assert v.endIndex == start + PageSize;
      assert (start + PageSize) % PageSize == 0;
    } else {
      assert s == NumberChoice(v.items, keyword, start, ParseInt(input));
      forall i | 0 <= i < |v.items| ensures v.items[i] in results {
        assert v.items[i] == results[start + i];
      }
      NumberChoiceReachable(results, v.items, keyword, start, ParseInt(input));
    }
  }

  lemma NumberChoiceReachable(results: seq<Feature>, items: seq<Feature>, keyword: string, start: nat, choice: Option<int>)
    requires start % PageSize == 0 && start < |results|
    requires forall i :: 0 <= i < |items| ==> items[i] in results
    ensures var s := NumberChoice(items, keyword, start, choice);
      && (s.Results? ==> s.keyword == keyword && s.start % PageSize == 0 && s.start < |results|)
      && (s.Detail? ==> s.keyword == keyword && s.returnTo == start && s.feature in results)
      && (s.Prompt? || s.Back? || s.Results? || s.Detail?)
  {
  }

  /** One answered prompt. The detail view's own prompt is not part of
      this flow; leaving it shows the page it was opened from. */
  function Step(all: seq<Feature>, s: Screen, line: string): Screen
  {
    match s
    case Prompt => ReadKeyword(all, line)
    case NoResults(keyword) => NoResultsChoice(all, keyword, line)
    case Results(keyword, start) => ResultsChoice(SearchFeatures(all, keyword), keyword, start, line)
    case Detail(keyword, _, returnTo) => Results(keyword, returnTo)
    case Back => Back
  }

  /** What every reachable screen satisfies: a results page starts at a
      multiple of ten inside the results, a detail view shows one of the
      results and returns to such a page, and the no-results menu is
      reached only for a keyword with no results. */
  predicate Reachable(all: seq<Feature>, s: Screen)
  {
    match s
    case Prompt => true
    case NoResults(keyword) => |SearchFeatures(all, keyword)| == 0
    case Results(keyword, start) =>
      start % PageSize == 0 && start < |SearchFeatures(all, keyword)|
    case Detail(keyword, f, returnTo) =>
      && returnTo % PageSize == 0 && returnTo < |SearchFeatures(all, keyword)|
      && f in SearchFeatures(all, keyword)
    case Back => true
  }

  /** Every answered prompt leads to a screen that again satisfies
      `Reachable`. */
  lemma StepKeepsReachable(all: seq<Feature>, s: Screen, line: string)
    requires Reachable(all, s)
    ensures Reachable(all, Step(all, s, line))
  {
    if s.Results? {
      ResultsChoiceReachable(SearchFeatures(all, s.keyword), s.keyword, s.start, line);
    }
  }

  /** A trimmed choice of digits selects: `k` opens the `k`-th entry of
      the page, `len + 1` returns to the prompt and `len + 2` goes back,
      whatever white space surrounds them. */
  lemma {:induction false} NumberedChoices(results: seq<Feature>, keyword: string, start: nat, k: nat, pad: string)
    requires IsBlank(pad)
    ensures var v := View(results, start);
      var s := ResultsChoice(results, keyword, start, pad + IntToString(k) + pad);
      && (1 <= k <= |v.items| ==> s == Detail(keyword, v.items[k - 1], start))
      && (k == |v.items| + 1 ==> s == Prompt)
      && (k == |v.items| + 2 ==> s == Back)
      && (k == 0 || k > |v.items| + 2 ==> s == Results(keyword, start))
  {
    var v := View(results, start);
    var line := pad + IntToString(k) + pad;
    TrimPaddedNumber(k, pad);
    ParseIntOfIntToString(k);
    ChoiceIsNumber(results, keyword, start, line, k);
    NumberChoiceCases(v.items, keyword, start, k);
  }

  lemma NumberChoiceCases(items: seq<Feature>, keyword: string, start: nat, k: int)
    ensures var s := NumberChoice(items, keyword, start, Some(k));
      && (1 <= k <= |items| ==> s == Detail(keyword, items[k - 1], start))
      && (k == |items| + 1 ==> s == Prompt)
      && (k == |items| + 2 ==> s == Back)
      && (k <= 0 || k > |items| + 2 ==> s == Results(keyword, start))
  {
  }

  lemma TrimPaddedNumber(k: nat, pad: string)
    requires IsBlank(pad)
    ensures Trim(pad + IntToString(k) + pad) == IntToString(k)
  {
    var digits := IntToString(k);
    assert IsDigit(digits[0]) && IsDigit(digits[|digits| - 1]);
    TrimPadded(pad, digits);
  }

  /** A non-empty line that reads as a number is dispatched on that
      number. */
  lemma ChoiceIsNumber(results: seq<Feature>, keyword: string, start: nat, line: string, k: int)
    requires Trim(line) != "" && ParseInt(Trim(line)) == Some(k)
    ensures ResultsChoice(results, keyword, start, line)
      == NumberChoice(View(results, start).items, keyword, start, Some(k))
  {
  }

  /** An empty line turns the page when there is a next one, and
      otherwise shows the same page again. */
  lemma EmptyChoice(results: seq<Feature>, keyword: string, start: nat)
    ensures View(results, start).hasNext ==>
      ResultsChoice(results, keyword, start, "") == Results(keyword, PageEnd(start, |results|))
    ensures !View(results, start).hasNext ==>
      ResultsChoice(results, keyword, start, "") == Results(keyword, start)
  {
    assert Trim("") == "";
    assert LeadingDigits("") == "";
  }

  /** Surrounding a string that neither starts nor ends with white space
      by blanks, then trimming, gives the string back. */
  lemma {:induction false} TrimPadded(pad: string, s: string)
    requires IsBlank(pad)
    requires s != [] && !IsWhitespace(s[0]) && !IsWhitespace(s[|s| - 1])
    ensures Trim(pad + s + pad) == s
  {
    assert pad + s + pad == pad + (s + pad);
    TrimStartPadded(pad, s + pad);
    TrimEndPadded(s, pad);
  }

  lemma {:induction false} TrimStartPadded(pad: string, s: string)
    requires IsBlank(pad)
    requires s != [] && !IsWhitespace(s[0])
    ensures TrimStart(pad + s) == s
    decreases |pad|
  {
    if pad != [] {
      var t := pad + s;
      assert t[0] == pad[0] && IsWhitespace(t[0]);
      assert t[1..] == pad[1..] + s;
      assert IsBlank(pad[1..]);
      TrimStartPadded(pad[1..], s);
      assert TrimStart(t) == TrimStart(t[1..]);
    } else {
      assert pad + s == s;
    }
  }

  lemma {:induction false} TrimEndPadded(s: string, pad: string)
    requires IsBlank(pad)
    requires s != [] && !IsWhitespace(s[|s| - 1])
    ensures TrimEnd(s + pad) == s
    decreases |pad|
  {
    if pad != [] {
      var t := s + pad;
      assert t[|t| - 1] == pad[|pad| - 1] && IsWhitespace(t[|t| - 1]);
      assert t[..|t| - 1] == s + pad[..|pad| - 1];
      assert IsBlank(pad[..|pad| - 1]);
      TrimEndPadded(s, pad[..|pad| - 1]);
      assert TrimEnd(t) == TrimEnd(t[..|t| - 1]);
    } else {
      assert s + pad == s;
    }
  }

  /** The no-results menu: its two choices, and any other line repeats
      the search, which again finds nothing. */
  lemma NoResultsChoices(all: seq<Feature>, keyword: string, line: string)
    requires |SearchFeatures(all, keyword)| == 0
    ensures Trim(line) == "1" ==> NoResultsChoice(all, keyword, line) == Prompt
    ensures Trim(line) == "2" ==> NoResultsChoice(all, keyword, line) == Back
    ensures Trim(line) != "1" && Trim(line) != "2" ==> NoResultsChoice(all, keyword, line) == NoResults(keyword)
  {
  }
}
