/** The few string routines of the Go library that the rules depend on, over ASCII. */
module Text {

  predicate IsSpace(c: char) {
    c in "\t\n\r " || c == '\U{0B}' || c == '\U{0C}'
  }

  predicate AllSpace(s: string) {
    forall i | 0 <= i < |s| :: IsSpace(s[i])
  }

  predicate IsDigit(c: char) {
    '0' <= c <= '9'
  }

  function TrimLeft(s: string): string {
    if s != [] && IsSpace(s[0]) then TrimLeft(s[1..]) else s
  }

  function TrimRight(s: string): string {
    if s != [] && IsSpace(s[|s| - 1]) then TrimRight(s[..|s| - 1]) else s
  }

  /** What is left is the end of the text from its first byte that is not blank. */
  lemma {:induction false} TrimLeftIs(s: string)
    ensures var t := TrimLeft(s);
            && |t| <= |s| && t == s[|s| - |t|..]
            && (t == [] || !IsSpace(t[0]))
            && (forall i | 0 <= i < |s| - |t| :: IsSpace(s[i]))
  {
    if s != [] && IsSpace(s[0]) { TrimLeftIs(s[1..]); }
  }

  /** What is left is the text up to its last byte that is not blank. */
  lemma {:induction false} TrimRightIs(s: string)
    ensures var t := TrimRight(s);
            && |t| <= |s| && t == s[..|t|]
            && (t == [] || !IsSpace(t[|t| - 1]))
            && (forall i | |t| <= i < |s| :: IsSpace(s[i]))
  {
    if s != [] && IsSpace(s[|s| - 1]) { TrimRightIs(s[..|s| - 1]); }
  }

  /** strings.TrimSpace. */
  function TrimSpace(s: string): string {
    TrimRight(TrimLeft(s))
  }
}
