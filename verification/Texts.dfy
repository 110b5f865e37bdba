/** Positions in a text: what stands where, and the character classes of the JSON reader. */
module Texts {

  datatype Option<+T> = None | Some(value: T)

  /** `t` is written in `s` starting at position `i`. */
  predicate At(s: string, i: nat, t: string) {
    i <= |s| && t <= s[i..]
  }

  lemma AtSlice(s: string, i: nat, t: string)
    ensures At(s, i, t) <==> i + |t| <= |s| && s[i..i + |t|] == t
  {
    if At(s, i, t) {
      assert s[i..][..|t|] == t;
      assert s[i..i + |t|] == s[i..][..|t|];
    }
  }

  lemma AtSplit(s: string, i: nat, t: string, u: string)
    ensures At(s, i, t + u) <==> At(s, i, t) && At(s, i + |t|, u)
  {
    if At(s, i, t) {
      assert s[i..] == t + s[i + |t|..];
    }
  }

  lemma AtChar(s: string, i: nat, c: char)
    ensures At(s, i, [c]) <==> i < |s| && s[i] == c
  {
  }

  lemma AtCons(s: string, i: nat, c: char, t: string)
    ensures At(s, i, [c] + t) <==> i < |s| && s[i] == c && At(s, i + 1, t)
  {
    AtSplit(s, i, [c], t);
    AtChar(s, i, c);
  }

  /** A character the JSON reader steps over. */
  predicate Skippable(c: char) {
    c == ' ' || c == '\n' || c == '\r' || c == '\t'
  }

  predicate Digit(c: char) {
    '0' <= c <= '9'
  }

  /** A character that may stand in the text of a number. */
  predicate Numeric(c: char) {
    Digit(c) || c == '+' || c == '-' || c == '.' || c == 'E' || c == 'e'
  }

  /** Every character of the text is skipped. */
  predicate Blank(t: string) {
    forall c | c in t :: Skippable(c)
  }
}
