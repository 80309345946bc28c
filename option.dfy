/** A JavaScript value that may be `null` or `undefined`. */
module Options {

  datatype Option<+T> = None | Some(value: T)

  /** `s || fallback` for a possibly missing string: the empty string is falsy too. */
  function OrElse(s: Option<string>, fallback: string): (r: string)
    ensures s.Some? && s.value != "" ==> r == s.value
    ensures s.None? || s.value == "" ==> r == fallback
  {
    if s.Some? && s.value != "" then s.value else fallback
  }
}
