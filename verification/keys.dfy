/** The input events and the exit results shared by the Ink screens. */
module Keys {
  import opened Text

  /** The `(input, key)` pair Ink hands to a `useInput` handler: the typed
      text and the flags of the special keys. */
  datatype KeyEvent = KeyEvent(
    input: string,
    upArrow: bool,
    downArrow: bool,
    leftArrow: bool,
    rightArrow: bool,
    returnKey: bool,
    escape: bool,
    ctrl: bool,
    meta: bool,
    backspace: bool,
    delete: bool)

  /** An event with no flag set and no text. */
  const NoKey := KeyEvent("", false, false, false, false, false, false, false, false, false, false)

  /** The events Ink reports for single keys. */
  const UpArrow := NoKey.(upArrow := true)
  const DownArrow := NoKey.(downArrow := true)
  const LeftArrow := NoKey.(leftArrow := true)
  const RightArrow := NoKey.(rightArrow := true)
  const Enter := NoKey.(returnKey := true)
  const Escape := NoKey.(escape := true)
  const Backspace := NoKey.(backspace := true)
  const Delete := NoKey.(delete := true)
  const CtrlC := NoKey.(ctrl := true, input := "c")

  /** Plain typed text with no modifier. */
  function Typed(s: string): KeyEvent
  {
    NoKey.(input := s)
  }

  /** What a handler does with one event: stay on the screen, or call
      `onExit` with the selected item (`None` for `null`/`undefined`)
      and the `cancelled` flag. */
  datatype Outcome<T> = Continue | Exit(selected: Option<T>, cancelled: bool)
}
