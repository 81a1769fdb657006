/** The scrolling pickers (years, features of a year, recent changes): a
    fixed list, a selected row and the first visible row of a ten-row
    window that follows the selection. */
module ScrollList {
  import opened Text
  import opened Keys
  import opened Paging

  /** `VISIBLE_ITEMS` */
  const VisibleItems: nat := 10

  /** The scroll effect: centre the selection (`selectedIndex - 5`), then
      clamp into `[0, max(0, n - 10)]`. Whenever the selection is a row of
      the list it lies inside the ten visible rows. */
  function ScrollWindow(selected: int, n: nat): (w: nat)
    ensures w <= Max(0, n - VisibleItems)
    ensures 0 <= selected < n ==> w <= selected < w + VisibleItems
  {
    var start := selected - VisibleItems / 2;
    if start < 0 then 0
    else if start + VisibleItems > n then Max(0, n - VisibleItems)
    else start
  }

  /** The scroll hint "showing first-last" (1-based, inclusive) for a
      window starting at `visibleStart`. */
  function ShownRange(visibleStart: nat, n: nat): (nat, nat)
  {
    (visibleStart + 1, Min(visibleStart + VisibleItems, n))
  }

  /** The hint of a window placed by the scroll effect names the selected
      row and covers `min(10, n)` rows, all of them inside the list. */
  lemma ShownRangeCoversSelection(selected: nat, n: nat)
    requires selected < n
    ensures var (first, last) := ShownRange(ScrollWindow(selected, n), n);
      && 1 <= first <= selected + 1 <= last <= n
      && last - first + 1 == Min(VisibleItems, n)
  {
  }

  datatype ListState = ListState(selectedIndex: int, visibleStart: nat)

  /** `useState(0)` twice */
  const Initial := ListState(0, 0)

  /** The `useInput` callback: Escape cancels; Enter picks the selected
      item if the list is non-empty and the index is below its length;
      the arrows clamp the index. */
  function Handle<T>(items: seq<T>, st: ListState, k: KeyEvent): (ListState, Outcome<T>)
  {
    if k.escape then (st, Exit(None, true))
    else if k.returnKey then
      if |items| > 0 && st.selectedIndex < |items| then
        // a negative index reads `undefined`
        (st, Exit(if 0 <= st.selectedIndex then Some(items[st.selectedIndex]) else None, false))
      else (st, Continue)
    else if k.upArrow then (st.(selectedIndex := Max(0, st.selectedIndex - 1)), Continue)
    else if k.downArrow then (st.(selectedIndex := Min(|items| - 1, st.selectedIndex + 1)), Continue)
    else (st, Continue)
  }

  /** The scroll effect, run when the selection changed; skipped on an
      empty list. */
  function ApplyScroll(before: ListState, after: ListState, n: nat): (r: ListState)
    ensures r.selectedIndex == after.selectedIndex
    ensures after.selectedIndex != before.selectedIndex && n > 0 ==> r.visibleStart == ScrollWindow(r.selectedIndex, n)
    ensures after.selectedIndex == before.selectedIndex || n == 0 ==> r == after
  {
    if after.selectedIndex == before.selectedIndex || n == 0 then after
    else after.(visibleStart := ScrollWindow(after.selectedIndex, n))
  }

  /** One key press: the callback, then the scroll effect. */
  function Next<T>(items: seq<T>, st: ListState, k: KeyEvent): (ListState, Outcome<T>)
  {
    var (after, out) := Handle(items, st, k);
    (ApplyScroll(st, after, |items|), out)
  }

  /** What the pickers keep: on a non-empty list the selection is a row
      and the window is where the scroll effect puts it; on an empty list
      the selection is 0 or -1 and the window never moved. */
  predicate Consistent(n: nat, st: ListState)
  {
    && (n > 0 ==> 0 <= st.selectedIndex < n && st.visibleStart == ScrollWindow(st.selectedIndex, n))
    && (n == 0 ==> -1 <= st.selectedIndex <= 0 && st.visibleStart == 0)
  }

  lemma InitialConsistent(n: nat)
    ensures Consistent(n, Initial)
  {
  }

  /** Every key press keeps the invariant, so the selected row is always
      one of the ten visible rows. */
  lemma NextConsistent<T>(items: seq<T>, st: ListState, k: KeyEvent)
    requires Consistent(|items|, st)
    ensures var r := Next(items, st, k).0;
      && Consistent(|items|, r)
      && (|items| > 0 ==> r.visibleStart <= r.selectedIndex < r.visibleStart + VisibleItems)
      && r.visibleStart <= Max(0, |items| - VisibleItems)
  {
  }

  /** Escape cancels with no selection, from any state. */
  lemma EscapeCancels<T>(items: seq<T>, st: ListState)
    ensures Next(items, st, Escape) == (st, Exit(None, true))
  {
  }

  /** Enter returns the selected item exactly when the list is non-empty,
      and otherwise does nothing. */
  lemma EnterSelects<T>(items: seq<T>, st: ListState)
    requires Consistent(|items|, st)
    ensures |items| > 0 ==> Next(items, st, Enter) == (st, Exit(Some(items[st.selectedIndex]), false))
    ensures |items| == 0 ==> Next(items, st, Enter) == (st, Continue)
  {
  }

  /** Up and down move by one, clamped at the first and the last row;
      on an empty list down arrow sets the index to -1 and up arrow back
      to 0, and the window stays at 0. */
  lemma ArrowsClamp<T>(items: seq<T>, st: ListState)
    requires Consistent(|items|, st)
    ensures Next(items, st, UpArrow).0.selectedIndex == Max(0, st.selectedIndex - 1)
    ensures Next(items, st, DownArrow).0.selectedIndex == Min(|items| - 1, st.selectedIndex + 1)
    ensures |items| == 0 ==> Next(items, st, DownArrow).0 == ListState(-1, 0)
    ensures |items| == 0 ==> Next(items, st, UpArrow).0 == ListState(0, 0)
  {
  }

  /** A picker screen: the list it loaded on mount, `selectedIndex` and
      `visibleStart`. */
  class Picker<T> {
    const items: seq<T>
    var selectedIndex: int
    var visibleStart: nat

    function State(): ListState
      reads this
    {
      ListState(selectedIndex, visibleStart)
    }

    ghost predicate Valid()
      reads this
    {
      Consistent(|items|, State())
    }

    /** Mounting: the list is loaded and the scroll effect leaves the
        window at the top. */
    constructor (items: seq<T>)
      ensures this.items == items && State() == Initial && Valid()
    {
      this.items := items;
      selectedIndex, visibleStart := 0, 0;
    }

    /** The rows on screen: `items.slice(visibleStart, visibleStart + 10)`. */
    function Visible(): (r: seq<T>)
      reads this
      requires Valid()
      ensures |r| == Min(VisibleItems, |items|)
      ensures forall i :: 0 <= i < |r| ==> r[i] == items[visibleStart + i]
      ensures |items| > 0 ==> r[selectedIndex - visibleStart] == items[selectedIndex]
    {
      Slice(items, visibleStart, Min(visibleStart + VisibleItems, |items|))
    }

    /** One key press: the callback, then the scroll effect. */
    method HandleKey(k: KeyEvent) returns (out: Outcome<T>)
      requires Valid()
      modifies this
      ensures Valid()
      ensures (State(), out) == Next(items, old(State()), k)
    {
      ghost var before := State();
      var oldSelected := selectedIndex;
      out := Continue;
      if k.escape {
        out := Exit(None, true);
      } else if k.returnKey {
        if |items| > 0 && selectedIndex < |items| {
          out := Exit(if 0 <= selectedIndex then Some(items[selectedIndex]) else None, false);
        }
      } else if k.upArrow {
        selectedIndex := Max(0, selectedIndex - 1);
      } else if k.downArrow {
        selectedIndex := Min(|items| - 1, selectedIndex + 1);
      }
      // useEffect(..., [selectedIndex, items])
      if selectedIndex != oldSelected && |items| > 0 {
        visibleStart := ScrollWindow(selectedIndex, |items|);
      }
      NextConsistent(items, before, k);
    }
  }
}
