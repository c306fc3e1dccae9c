/**
 * The two string primitives the solver relies on, restricted to ASCII:
 * `str::trim` (for the guess and the feedback line) and `str::to_lowercase`
 * (for the dictionary filter).
 */
module Text {

  /** ASCII white space as `char::is_whitespace` sees it: space and '\t'..'\r'. */
  predicate IsWhitespace(c: char) {
    c == ' ' || ('\t' <= c <= '\r')
  }

  predicate IsUpper(c: char) {
    'A' <= c <= 'Z'
  }

  function ToLowerChar(c: char): (r: char)
    ensures IsUpper(c) ==> r != c && !IsUpper(r)
    ensures !IsUpper(c) ==> r == c
  {
    if IsUpper(c) then (c as int + 32) as char else c
  }

  function ToLower(s: string): (r: string)
    ensures |r| == |s|
  {
    seq(|s|, i requires 0 <= i < |s| => ToLowerChar(s[i]))
  }

  /** A string equals its lower-case form exactly when it holds no upper-case letter. */
  lemma LowercaseFixedPoint(s: string)
    ensures s == ToLower(s) <==> forall i :: 0 <= i < |s| ==> !IsUpper(s[i])
  {
  }

  /** `trim_start`: drops the leading white space and nothing else. */
  function TrimStart(s: string): (r: string)
    ensures |r| <= |s| && r == s[|s| - |r|..]
    ensures forall i :: 0 <= i < |s| - |r| ==> IsWhitespace(s[i])
    ensures r == [] || !IsWhitespace(r[0])
  {
    if |s| > 0 && IsWhitespace(s[0]) then TrimStart(s[1..]) else s
  }

  /** `trim_end`: drops the trailing white space and nothing else. */
  function TrimEnd(s: string): (r: string)
    ensures |r| <= |s| && r == s[..|r|]
    ensures forall i :: |r| <= i < |s| ==> IsWhitespace(s[i])
    ensures r == [] || !IsWhitespace(r[|r| - 1])
  {
    if |s| > 0 && IsWhitespace(s[|s| - 1]) then TrimEnd(s[..|s| - 1]) else s
  }

  function Trim(s: string): string {
    TrimEnd(TrimStart(s))
  }

  /** What `trim` leaves out after the kept slice is white space. */
  lemma TrimDropsTrailing(s: string)
    ensures var r, a := Trim(s), |s| - |TrimStart(s)|;
      forall i :: a + |r| <= i < |s| ==> IsWhitespace(s[i])
  {
  }

  /** What `trim` keeps starts and ends with a character that is not white space. */
  lemma TrimEndsAreNotWhitespace(s: string)
    ensures var r := Trim(s);
      r == [] || (!IsWhitespace(r[0]) && !IsWhitespace(r[|r| - 1]))
  {
  }

  /** What `trim` keeps is a contiguous slice of its input. */
  lemma TrimKeepsSlice(s: string)
    ensures var r, a := Trim(s), |s| - |TrimStart(s)|;
      a + |r| <= |s| && r == s[a..a + |r|]
  {
  }

  /**
   * `trim` returns the slice of `s` that starts after its leading white space
   * (offset `a`) and leaves out its trailing white space.
   */
  lemma TrimIsSlice(s: string)
    ensures var r, a := Trim(s), |s| - |TrimStart(s)|;
      a + |r| <= |s| && r == s[a..a + |r|]
      && (forall i :: 0 <= i < a ==> IsWhitespace(s[i]))
      && (forall i :: a + |r| <= i < |s| ==> IsWhitespace(s[i]))
      && (r == [] || (!IsWhitespace(r[0]) && !IsWhitespace(r[|r| - 1])))
  {
    TrimKeepsSlice(s);
    TrimDropsTrailing(s);
    TrimEndsAreNotWhitespace(s);
  }

  /** A string with no white space at either end is its own trim. */
  lemma TrimUntouched(s: string)
    requires s == [] || (!IsWhitespace(s[0]) && !IsWhitespace(s[|s| - 1]))
    ensures Trim(s) == s
  {
  }
}
