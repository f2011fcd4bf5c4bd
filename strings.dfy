/** Prefix and suffix tests on strings, shared by the path filter and the comment filter. */
module Strings {

  predicate HasPrefix(s: string, p: string) { |p| <= |s| && s[..|p|] == p }

  predicate HasSuffix(s: string, p: string) { |p| <= |s| && s[|s| - |p|..] == p }
}
