/** The regular-expression engine, kept abstract. */
module Regex {

  /**
   * A regular-expression dialect: which pattern texts compile, and whether a
   * pattern is found somewhere in a text (search, not full match).
   */
  datatype Dialect = Dialect(compiles: string -> bool, matches: (string, string) -> bool)

  /**
   * `regexp.MatchString(pattern, content)` with its error dropped: a pattern
   * that does not compile reports no match.
   */
  predicate MatchString(d: Dialect, pattern: string, content: string)
  {
    d.compiles(pattern) && d.matches(pattern, content)
  }
}
