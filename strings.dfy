/** The two string tests of Go's `strings` package that the core uses. */
module Strings {

  /** strings.HasPrefix: `s` begins with `p`. */
  predicate HasPrefix(s: string, p: string)
  {
    |p| <= |s| && s[..|p|] == p
  }

  /** strings.HasSuffix: `s` ends with `p`. */
  predicate HasSuffix(s: string, p: string)
  {
    |p| <= |s| && s[|s| - |p|..] == p
  }
}
