/** The Ink main menu: three numbered items, a selection moved by the
    arrow keys, and a choice made with Enter or a digit key. */
module MainMenu {
  import opened Text
  import opened Keys
  import opened Paging

  /** A menu entry: the number the menu returns and its title. */
  datatype MenuItem = MenuItem(key: nat, title: string)

  /** `menuItems` */
  const MenuItems: seq<MenuItem> := [
    MenuItem(1, "フリーワード検索（ページネーション+フリーワード）"),
    MenuItem(2, "Baseline Target（年別一覧）"),
    MenuItem(3, "Exit (終了)")
  ]

  /** Each entry's number is its position plus one. */
  lemma MenuKeysArePositions()
    ensures |MenuItems| == 3
    ensures forall i :: 0 <= i < |MenuItems| ==> MenuItems[i].key == i + 1
  {
  }

  /** The `useInput` callback: the new `selectedIndex` and whether
      `onExit` is called with a choice (`None` for `null`) and the
      `cancelled` flag. */
  function Handle(selected: int, k: KeyEvent): (int, Outcome<nat>)
    requires 0 <= selected < |MenuItems|
  {
    if k.escape || k.input == "q" then (selected, Exit(None, true))
    else if k.upArrow then (Max(0, selected - 1), Continue)
    else if k.downArrow then (Min(|MenuItems| - 1, selected + 1), Continue)
    else if k.returnKey then (selected, Exit(Some(MenuItems[selected].key), false))
    else
      match ParseInt(k.input)
      case Some(n) => if 1 <= n <= 3 then (selected, Exit(Some(n as nat), false)) else (selected, Continue)
      case None => (selected, Continue)
  }

  /** Every key keeps the selection on one of the three items. */
  lemma HandleKeepsSelection(selected: int, k: KeyEvent)
    requires 0 <= selected < |MenuItems|
    ensures 0 <= Handle(selected, k).0 < |MenuItems|
  {
  }

  /** Escape and `q` cancel without a choice, from any item. */
  lemma EscapeOrQCancels(selected: int, k: KeyEvent)
    requires 0 <= selected < |MenuItems|
    requires k.escape || k.input == "q"
    ensures Handle(selected, k) == (selected, Exit(None, true))
  {
  }

  /** The arrows move by one, stopping at the first and the last item. */
  lemma ArrowsClamp(selected: int)
    requires 0 <= selected < |MenuItems|
    ensures Handle(selected, UpArrow) == (if selected == 0 then 0 else selected - 1, Continue)
    ensures Handle(selected, DownArrow) == (if selected == 2 then 2 else selected + 1, Continue)
  {
  }

  /** Enter returns the number of the selected item, `selectedIndex + 1`. */
  lemma EnterChoosesSelected(selected: int)
    requires 0 <= selected < |MenuItems|
    ensures Handle(selected, Enter) == (selected, Exit(Some((selected + 1) as nat), false))
  {
  }

  /** Typing a digit `1`-`3` chooses that item directly, whatever is
      selected. */
  lemma DigitChooses(selected: int, n: nat)
    requires 0 <= selected < |MenuItems|
    requires 1 <= n <= 3
    ensures Handle(selected, Typed(IntToString(n))) == (selected, Exit(Some(n), false))
  {
    ParseIntOfIntToString(n);
    assert IntToString(n) == [DigitChar(n)];
  }

  /** Any other input neither moves the selection nor leaves the menu. */
  lemma OtherInputIgnored(selected: int, k: KeyEvent)
    requires 0 <= selected < |MenuItems|
    requires !k.escape && k.input != "q" && !k.upArrow && !k.downArrow && !k.returnKey
    requires ParseInt(k.input).None? || !(1 <= ParseInt(k.input).value <= 3)
    ensures Handle(selected, k) == (selected, Continue)
  {
  }

  /** The menu screen and its `selectedIndex`. */
  class Menu {
    var selectedIndex: int

    ghost predicate Valid()
      reads this
    {
      0 <= selectedIndex < |MenuItems|
    }

    constructor ()
      ensures selectedIndex == 0 && Valid()
    {
      selectedIndex := 0;
    }

    /** One key press. */
    method HandleKey(k: KeyEvent) returns (out: Outcome<nat>)
      requires Valid()
      modifies this
      ensures Valid()
      ensures (selectedIndex, out) == Handle(old(selectedIndex), k)
    {
      out := Continue;
      if k.escape || k.input == "q" {
        out := Exit(None, true);
        return;
      }
      if k.upArrow {
        selectedIndex := Max(0, selectedIndex - 1);
        return;
      }
      if k.downArrow {
        selectedIndex := Min(|MenuItems| - 1, selectedIndex + 1);
        return;
      }
      if k.returnKey {
        out := Exit(Some(MenuItems[selectedIndex].key), false);
        return;
      }
      var num := ParseInt(k.input);
      if num.Some? && 1 <= num.value <= 3 {
        out := Exit(Some(num.value as nat), false);
      }
    }
  }
}
