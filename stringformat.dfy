/** `format_none` from the yaturl string formatting helpers. */
module StringFormat {
  import opened Common

  const NOT_AVAILABLE := "n/A"

  /** `format_none(phrase)`: None becomes "n/A"; every other value is passed through. */
  function FormatNone(phrase: PyValue): (r: PyValue)
    ensures r != PyNone
    ensures phrase == PyNone ==> r == PyStr(NOT_AVAILABLE)
    ensures phrase != PyNone ==> r == phrase
  {
    if phrase == PyNone then PyStr(NOT_AVAILABLE) else phrase
  }

  /** Formatting an already formatted value changes nothing. */
  lemma FormatNoneIdempotent(phrase: PyValue)
    ensures FormatNone(FormatNone(phrase)) == FormatNone(phrase)
  {
  }
}
