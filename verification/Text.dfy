/** String helpers that several components share. */
module Text {
  predicate HasPrefix(s: string, prefix': string) {
    |prefix'| <= |s| && s[..|prefix'|] == prefix'
  }
}
