/** The Ink free-text search screen: a live filter over all features, cut
    into pages of ten, driven by a key handler over four pieces of state
    and two effects that reset the page and the selection. */
module SearchPagination {
  import opened Text
  import opened Features
  import opened Keys
  import opened Paging

  /** The screen's match: the lower-cased key contains the lower-cased
      keyword, or the entry is of kind `feature` and its lower-cased name
      does. */
  predicate InkMatches(f: Feature, lowerKeyword: string)
  {
    || Contains(Lower(f.key), lowerKeyword)
    || (f.kind == FeatureKind && Truthy(f.name) && Contains(Lower(f.name.value), lowerKeyword))
  }

  /** `searchFeatures(keyword)`: a blank keyword shows every feature in
      dataset order; otherwise the matching features, in dataset order.
      The keyword is lower-cased but not trimmed. */
  function SearchFeatures(all: seq<Feature>, keyword: string): (r: seq<Feature>)
    ensures Trim(keyword) == [] ==> r == all
    ensures Trim(keyword) != [] ==> IsSubsequence(r, all)
    ensures Trim(keyword) != [] ==> forall f :: f in r <==> f in all && InkMatches(f, Lower(keyword))
    ensures Trim(keyword) != [] ==>
      forall f :: multiset(r)[f] == if InkMatches(f, Lower(keyword)) then multiset(all)[f] else 0
  {
    if Trim(keyword) == [] then all
    else
      var matches := (f: Feature) => InkMatches(f, Lower(keyword));
      FilterCounts(all, matches);
      Filter(all, matches)
  }

  /** A keyword made only of white space leaves the list unchanged. */
  lemma SearchBlankIsAll(all: seq<Feature>, keyword: string)
    requires IsBlank(keyword)
    ensures SearchFeatures(all, keyword) == all
  {
    TrimEmptyIffBlank(keyword);
  }

  /** The handler's state: `searchTerm`, `currentPage`, `selectedIndex`
      and `isSearchMode` (the cursor blink is presentation). */
  datatype SearchState = SearchState(
    searchTerm: string,
    currentPage: nat,
    selectedIndex: int,
    isSearchMode: bool)

  const Initial := SearchState("", 0, 0, false)

  /** `displayFeatures` */
  function Display(all: seq<Feature>, st: SearchState): seq<Feature>
  {
    SearchFeatures(all, st.searchTerm)
  }

  /** `currentPageFeatures` */
  function PageFeatures(all: seq<Feature>, st: SearchState): seq<Feature>
  {
    Page(Display(all, st), st.currentPage)
  }

  /** `/^[1-9]$/.test(input)` */
  predicate IsPageDigit(input: string)
  {
    |input| == 1 && '1' <= input[0] <= '9'
  }

  /** `prev.slice(0, -1)` */
  function DropLast(s: string): (r: string)
    ensures s == [] ==> r == []
    ensures s != [] ==> r + [s[|s| - 1]] == s
  {
    if s == [] then [] else s[..|s| - 1]
  }

  /** The `useInput` callback, given `displayFeatures`: the state it sets
      and whether it calls `onExit`, before the effects run. */
  function Handle(display: seq<Feature>, st: SearchState, k: KeyEvent): (SearchState, Outcome<Feature>)
  {
    var page := Page(display, st.currentPage);
    var total := TotalPages(|display|);
    if k.escape then
      if st.isSearchMode then (st.(isSearchMode := false), Continue)
      else (st, Exit(None, true))
    else if k.input == "q" && !st.isSearchMode then (st, Exit(None, true))
    else if k.returnKey then
      if |page| > 0 && st.selectedIndex < |page| then
        // a negative index reads `undefined`
        (st, Exit(if 0 <= st.selectedIndex then Some(page[st.selectedIndex]) else None, false))
      else (st, Continue)
    else if (k.input == "/" || k.input == "s") && !st.isSearchMode then
      (st.(isSearchMode := true), Continue)
    else if k.ctrl && k.input == "c" then
      (st.(searchTerm := "", isSearchMode := false), Continue)
    else if k.upArrow then
      (st.(selectedIndex := Max(0, st.selectedIndex - 1)), Continue)
    else if k.downArrow then
      (st.(selectedIndex := Min(|page| - 1, st.selectedIndex + 1)), Continue)
    else if k.leftArrow && st.currentPage > 0 then
      (st.(currentPage := Max(0, st.currentPage - 1)), Continue)
    else if k.rightArrow && st.currentPage < total - 1 then
      (st.(currentPage := Min(total - 1, st.currentPage + 1)), Continue)
    else if st.isSearchMode && (k.backspace || k.delete) then
      (st.(searchTerm := DropLast(st.searchTerm)), Continue)
    else if st.isSearchMode && k.input != "" && !k.ctrl && !k.meta && !IsPageDigit(k.input) then
      (st.(searchTerm := st.searchTerm + k.input), Continue)
    else if k.input != "" && IsPageDigit(k.input) then
      var p := DigitValue(k.input[0]) - 1;
      if p < total then (st.(currentPage := p), Continue) else (st, Continue)
    else (st, Continue)
  }

  /** The two effects: a new search term resets the page and the
      selection, a new page resets the selection; nothing else changes. */
  function ApplyEffects(before: SearchState, after: SearchState): (r: SearchState)
    ensures r.searchTerm == after.searchTerm && r.isSearchMode == after.isSearchMode
    ensures r.searchTerm != before.searchTerm ==> r.currentPage == 0 && r.selectedIndex == 0
    ensures r.currentPage != before.currentPage ==> r.selectedIndex == 0
    ensures r.searchTerm == before.searchTerm ==> r.currentPage == after.currentPage
    ensures r.searchTerm == before.searchTerm && after.currentPage == before.currentPage ==> r == after
  {
    var s1 := if after.searchTerm != before.searchTerm then after.(currentPage := 0, selectedIndex := 0) else after;
    if s1.currentPage != before.currentPage then s1.(selectedIndex := 0) else s1
  }

  /** One key press on a screen showing `display`: the handler, then the
      effects. */
  function Step(display: seq<Feature>, st: SearchState, k: KeyEvent): (SearchState, Outcome<Feature>)
  {
    var (after, out) := Handle(display, st, k);
    (ApplyEffects(st, after), out)
  }

  /** One key press on the screen over the dataset `all`. */
  function Next(all: seq<Feature>, st: SearchState, k: KeyEvent): (SearchState, Outcome<Feature>)
  {
    Step(Display(all, st), st, k)
  }

  /** A key press is the handler's result with the effects applied, and
      it keeps the invariant. */
  lemma NextIsHandleThenEffects(all: seq<Feature>, st: SearchState, k: KeyEvent, after: SearchState, out: Outcome<Feature>)
    requires Consistent(all, st)
    requires (after, out) == Handle(Display(all, st), st, k)
    ensures Next(all, st, k) == (ApplyEffects(st, after), out)
    ensures Consistent(all, ApplyEffects(st, after))
  {
    NextConsistent(all, st, k);
  }

  /** The invariant the handler and the effects keep on a screen showing
      `display`: the page exists (page 0 always does), the selection is a
      row of a non-empty page, and on an empty page it is 0 or -1. */
  predicate ConsistentOn(display: seq<Feature>, st: SearchState)
  {
    var len := |Page(display, st.currentPage)|;
    && (st.currentPage == 0 || st.currentPage < TotalPages(|display|))
    && (len > 0 ==> 0 <= st.selectedIndex < len)
    && (len == 0 ==> -1 <= st.selectedIndex <= 0)
  }

  /** The invariant over the dataset: it holds of the list the term shows. */
  predicate Consistent(all: seq<Feature>, st: SearchState)
  {
    ConsistentOn(Display(all, st), st)
  }

  lemma InitialConsistent(all: seq<Feature>)
    ensures Consistent(all, Initial)
  {
  }

  /** A key press that keeps the term keeps the invariant on the same
      list; one that changes the term lands on the first row of the first
      page, which is consistent whatever the new list is. */
  lemma StepConsistent(display: seq<Feature>, st: SearchState, k: KeyEvent)
    requires ConsistentOn(display, st)
    ensures var r := Step(display, st, k).0;
      && (r.searchTerm == st.searchTerm ==> ConsistentOn(display, r))
      && (r.searchTerm != st.searchTerm ==> r.currentPage == 0 && r.selectedIndex == 0)
      && (forall other: seq<Feature> :: r.currentPage == 0 && r.selectedIndex == 0 ==> ConsistentOn(other, r))
  {
  }

  /** Every key press keeps the invariant. */
  lemma NextConsistent(all: seq<Feature>, st: SearchState, k: KeyEvent)
    requires Consistent(all, st)
    ensures Consistent(all, Next(all, st, k).0)
  {
    var d := Display(all, st);
    StepConsistent(d, st, k);
    var r := Next(all, st, k).0;
    if r.searchTerm == st.searchTerm {
      assert Display(all, r) == d;
    } else {
      assert ConsistentOn(Display(all, r), r);
    }
  }

  /** Up and down clamp the selection: on a non-empty page it stays a row
      of the page; on an empty page down arrow makes it -1. */
  lemma ArrowsClamp(display: seq<Feature>, st: SearchState)
    requires ConsistentOn(display, st)
    ensures var len := |Page(display, st.currentPage)|;
      && Step(display, st, UpArrow) == (st.(selectedIndex := Max(0, st.selectedIndex - 1)), Continue)
      && Step(display, st, DownArrow) == (st.(selectedIndex := Min(len - 1, st.selectedIndex + 1)), Continue)
      && (len > 0 ==> 0 <= Max(0, st.selectedIndex - 1) < len && 0 <= Min(len - 1, st.selectedIndex + 1) < len)
      && (len == 0 ==> Min(len - 1, st.selectedIndex + 1) == -1)
  {
  }

  /** Left and right move one page only while the page stays in
      `[0, totalPages - 1]`, and a page move selects the first row. */
  lemma PageArrows(display: seq<Feature>, st: SearchState)
    requires ConsistentOn(display, st)
    ensures var total := TotalPages(|display|);
      && Step(display, st, LeftArrow).0 == (if st.currentPage > 0 then st.(currentPage := st.currentPage - 1, selectedIndex := 0) else st)
      && Step(display, st, RightArrow).0 == (if st.currentPage + 1 < total then st.(currentPage := st.currentPage + 1, selectedIndex := 0) else st)
  {
  }

  /** A digit 1-9 jumps to page `d - 1` when that page exists, in search
      mode too, and is never typed into the search term. */
  lemma DigitJumps(display: seq<Feature>, st: SearchState, d: char)
    requires '1' <= d <= '9'
    ensures var p := d as int - '1' as int;
      var total := TotalPages(|display|);
      var (r, out) := Step(display, st, Typed([d]));
      && out == Continue
      && r.searchTerm == st.searchTerm
      && r.isSearchMode == st.isSearchMode
      && r.currentPage == (if p < total then p else st.currentPage)
  {
    assert Typed([d]).input != "q" && Typed([d]).input != "/" && Typed([d]).input != "s";
    assert IsPageDigit([d]);
  }

  /** Escape leaves search mode and does nothing else; outside search mode
      Escape or `q` cancels with no feature, and in search mode `q` is
      typed. */
  lemma EscapeAndQuit(display: seq<Feature>, st: SearchState)
    ensures st.isSearchMode ==> Step(display, st, Escape) == (st.(isSearchMode := false), Continue)
    ensures !st.isSearchMode ==> Step(display, st, Escape).1 == Exit(None, true)
    ensures !st.isSearchMode ==> Step(display, st, Typed("q")).1 == Exit(None, true)
    ensures st.isSearchMode ==> Step(display, st, Typed("q")).0.searchTerm == st.searchTerm + "q"
  {
  }

  /** Enter picks the selected row of the page, a feature of the current
      result list, exactly when the page is non-empty; on an empty page it
      does nothing. */
  lemma EnterSelects(display: seq<Feature>, st: SearchState)
    requires ConsistentOn(display, st)
    ensures var page := Page(display, st.currentPage);
      && (|page| > 0 ==> Step(display, st, Enter) == (st, Exit(Some(page[st.selectedIndex]), false)))
      && (|page| > 0 ==> page[st.selectedIndex] in display)
      && (|page| == 0 ==> Step(display, st, Enter) == (st, Continue))
  {
    var page := Page(display, st.currentPage);
    if |page| > 0 {
      var i := st.currentPage * PageSize + st.selectedIndex;
      assert page[st.selectedIndex] == display[i];
    }
  }

  /** In search mode Backspace and Delete drop the last character, and any
      other plain character but a page digit (`q`, `/` and `s` included)
      is appended, which shows the first row of the first page; Ctrl+C
      clears the term and leaves search mode. */
  lemma EditSearchTerm(display: seq<Feature>, st: SearchState, c: char)
    requires st.isSearchMode
    requires !('1' <= c <= '9')
    ensures Step(display, st, Backspace).0.searchTerm == DropLast(st.searchTerm)
    ensures Step(display, st, Delete).0.searchTerm == DropLast(st.searchTerm)
    ensures var r := Step(display, st, Typed([c])).0;
      r.searchTerm == st.searchTerm + [c] && r.currentPage == 0 && r.selectedIndex == 0
    ensures Step(display, st, CtrlC).0.searchTerm == "" && !Step(display, st, CtrlC).0.isSearchMode
  {
    assert !IsPageDigit([c]);
    assert st.searchTerm + [c] != st.searchTerm;
  }

  /** The screen as a React component: the dataset it was mounted with
      and its four state variables. */
  class SearchScreen {
    const allFeatures: seq<Feature>
    var searchTerm: string
    var currentPage: nat
    var selectedIndex: int
    var isSearchMode: bool

    function State(): SearchState
      reads this
    {
      SearchState(searchTerm, currentPage, selectedIndex, isSearchMode)
    }

    ghost predicate Valid()
      reads this
    {
      Consistent(allFeatures, State())
    }

    /** Mounting: empty term, first page, first row, not in search mode. */
    constructor (all: seq<Feature>)
      ensures allFeatures == all && State() == Initial && Valid()
    {
      allFeatures := all;
      searchTerm, currentPage, selectedIndex, isSearchMode := "", 0, 0, false;
    }

    /** The `useInput` callback over the list the screen shows. */
    method OnInput(display: seq<Feature>, k: KeyEvent) returns (out: Outcome<Feature>)
      modifies this
      ensures (State(), out) == Handle(display, old(State()), k)
    {
      var page := Page(display, currentPage);
      var total: int := TotalPages(|display|);
      out := Continue;
      if k.escape {
        if isSearchMode {
          isSearchMode := false;
        } else {
          out := Exit(None, true);
        }
      } else if k.input == "q" && !isSearchMode {
        out := Exit(None, true);
      } else if k.returnKey {
        if |page| > 0 && selectedIndex < |page| {
          out := Exit(if 0 <= selectedIndex then Some(page[selectedIndex]) else None, false);
        }
      } else if (k.input == "/" || k.input == "s") && !isSearchMode {
        isSearchMode := true;
      } else if k.ctrl && k.input == "c" {
        searchTerm := "";
        isSearchMode := false;
      } else if k.upArrow {
        selectedIndex := Max(0, selectedIndex - 1);
      } else if k.downArrow {
        selectedIndex := Min(|page| - 1, selectedIndex + 1);
      } else if k.leftArrow && currentPage > 0 {
        currentPage := Max(0, currentPage - 1);
      } else if k.rightArrow && currentPage < total - 1 {
        currentPage := Min(total - 1, currentPage + 1);
      } else if isSearchMode && (k.backspace || k.delete) {
        searchTerm := DropLast(searchTerm);
      } else if isSearchMode && k.input != "" && !k.ctrl && !k.meta && !IsPageDigit(k.input) {
        searchTerm := searchTerm + k.input;
      } else if k.input != "" && IsPageDigit(k.input) {
        var p := DigitValue(k.input[0]) - 1;
        if p < total {
          currentPage := p;
        }
      }
    }

    /** One key press: the callback, then the effects whose dependencies
        changed. */
    method HandleKey(k: KeyEvent) returns (out: Outcome<Feature>)
      requires Valid()
      modifies this
      ensures Valid()
      ensures (State(), out) == Next(allFeatures, old(State()), k)
    {
      ghost var before := State();
      var oldTerm, oldPage := searchTerm, currentPage;
      var display := Display(allFeatures, State());
      out := OnInput(display, k);
      ghost var after := State();
      // useEffect(..., [searchTerm])
      if searchTerm != oldTerm {
        currentPage := 0;
        selectedIndex := 0;
      }
      // useEffect(..., [currentPage])
      if currentPage != oldPage {
        selectedIndex := 0;
      }
      assert State() == ApplyEffects(before, after);
      NextIsHandleThenEffects(allFeatures, before, k, after, out);
    }
  }
}
