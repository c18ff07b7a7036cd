/** Plain-text predicates shared by the name parser and the printer. */
module Text {

  /** Text made of ' ' only (tabs and other white space do not count). */
  predicate IsBlank(s: string)
  {
    forall i :: 0 <= i < |s| ==> s[i] == ' '
  }
}
