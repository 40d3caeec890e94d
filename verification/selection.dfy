/** The combobox's own state: whether the popover is open and which slug is chosen ("" for none). */
module Selection {

  datatype State = State(open: bool, value: string)

  /** Both `useState` hooks at their initial values: closed, nothing chosen. */
  function Initial(): (s: State)
    ensures !s.open && s.value == ""
  {
    State(false, "")
  }

  /** An item's `onSelect`: choosing the current value again clears it, any other value replaces it,
      and the popover always closes. */
  function Select(s: State, v: string): (r: State)
    ensures !r.open
    ensures r.value == "" <==> v == s.value || v == ""
    ensures r.value != "" ==> r.value == v && v != s.value
    ensures v != s.value ==> r.value == v
  {
    State(false, if v == s.value then "" else v)
  }

  /** The popover's `onOpenChange`: sets `open` and nothing else. */
  function OnOpenChange(s: State, b: bool): (r: State)
    ensures r.open == b
    ensures r.value == s.value
  {
    s.(open := b)
  }

  /** Selecting the same item twice in a row leaves that item chosen only if it was chosen before
      both; otherwise the second selection clears what the first one set. */
  lemma SelectTwice(s: State, v: string)
    ensures Select(Select(s, v), v).value == (if s.value == v then v else "")
    ensures !Select(Select(s, v), v).open
  {
  }

  /** Toggle-off: from any state not already holding `v`, two selections of `v` leave nothing chosen. */
  lemma ToggleOff(s: State, v: string)
    requires s.value != v
    ensures Select(s, v).value == v
    ensures Select(Select(s, v), v).value == ""
  {
  }
}
