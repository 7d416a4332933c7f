/**
 * What getQueryString does to the text the rendering hook produces: trim it as
 * java.lang.String.trim does, then append the statement terminator ';' unless the
 * trimmed text already ends with one.
 */
module QueryText {

  /** String.trim removes every character whose code is at most U+0020. */
  predicate IsBlank(c: char) {
    c <= ' '
  }

  /** The number of blank characters at the front of `s`. */
  function LeadingBlanks(s: string): (n: nat)
    ensures n <= |s|
    ensures forall k :: 0 <= k < n ==> IsBlank(s[k])
    ensures n < |s| ==> !IsBlank(s[n])
  {
    if s == [] || !IsBlank(s[0]) then 0 else 1 + LeadingBlanks(s[1..])
  }

  /** The number of blank characters at the back of `s`. */
  function TrailingBlanks(s: string): (n: nat)
    ensures n <= |s|
    ensures forall k :: |s| - n <= k < |s| ==> IsBlank(s[k])
    ensures n < |s| ==> !IsBlank(s[|s| - 1 - n])
  {
    if s == [] || !IsBlank(s[|s| - 1]) then 0 else 1 + TrailingBlanks(s[..|s| - 1])
  }

  /** Neither end of `t` is blank. */
  predicate IsTrimmed(t: string) {
    t == [] || (!IsBlank(t[0]) && !IsBlank(t[|t| - 1]))
  }

  /** String.endsWith(";"). */
  predicate EndsWithSemicolon(t: string)
  {
    |t| > 0 && t[|t| - 1] == ';'
  }

  /**
   * String.trim: the blank characters at both ends are removed. The result is a
   * slice of `s` with no blank at either end, and everything cut away is blank.
   */
  function Trim(s: string): (t: string)
    ensures IsTrimmed(t)
    ensures LeadingBlanks(s) + |t| <= |s|
    ensures s[LeadingBlanks(s)..LeadingBlanks(s) + |t|] == t
    ensures forall k :: 0 <= k < LeadingBlanks(s) ==> IsBlank(s[k])
    ensures forall k :: LeadingBlanks(s) + |t| <= k < |s| ==> IsBlank(s[k])
  {
    var rest := s[LeadingBlanks(s)..];
    rest[..|rest| - TrailingBlanks(rest)]
  }

  /**
   * The text getQueryString caches and returns for the hook's output `raw`: it is
   * trimmed and always ends with ';'; the ';' is added only when missing.
   */
  function Normalize(raw: string): (q: string)
    ensures EndsWithSemicolon(q)
    ensures IsTrimmed(q)
    ensures q == Trim(raw) || q == Trim(raw) + ";"
  {
    var t := Trim(raw);
    if EndsWithSemicolon(t) then t else t + ";"
  }

  /** String.endsWith(";") holds exactly of the texts that are some text followed by ';'. */
  lemma EndsWithSemicolonCharacterized(t: string, p: string)
    ensures EndsWithSemicolon(t) <==> |t| > 0 && t == t[..|t| - 1] + ";"
    ensures EndsWithSemicolon(p + ";")
  {
  }

  /** Trimming text that has no blank at either end changes nothing. */
  lemma {:induction false} TrimOfTrimmed(t: string)
    requires IsTrimmed(t)
    ensures Trim(t) == t
  {
    if t != [] {
      assert LeadingBlanks(t) == 0;
      assert TrailingBlanks(t) == 0;
    }
  }

  /** The terminator is appended exactly when the trimmed text lacks one. */
  lemma NormalizeAppendsOnlyWhenMissing(raw: string)
    ensures Normalize(raw) == Trim(raw) <==> EndsWithSemicolon(Trim(raw))
    ensures !EndsWithSemicolon(Trim(raw)) <==> Normalize(raw) == Trim(raw) + ";"
  {
  }

  /** Text that is already trimmed and terminated, such as "x;;", is kept as it is. */
  lemma NormalizeKeepsTerminatedText(t: string)
    requires IsTrimmed(t) && EndsWithSemicolon(t)
    ensures Normalize(t) == t
  {
    TrimOfTrimmed(t);
  }

  /** Rendering the cached text once more yields it again. */
  lemma NormalizeIdempotent(raw: string)
    ensures Normalize(Normalize(raw)) == Normalize(raw)
  {
    NormalizeKeepsTerminatedText(Normalize(raw));
  }

  /** Trailing blanks after the terminator are dropped and no second ';' is added. */
  lemma NormalizeExampleTrailingBlanks()
    ensures Normalize("SELECT * FROM t;  ") == "SELECT * FROM t;"
  {
    var s := "SELECT * FROM t;  ";
    assert LeadingBlanks(s) == 0;
    assert TrailingBlanks(s) == 2 by {
      assert TrailingBlanks(s[..|s| - 1]) == 1 by {
        assert TrailingBlanks(s[..|s| - 2]) == 0;
      }
    }
  }

  /** A missing terminator is appended. */
  lemma NormalizeExampleMissingTerminator()
    ensures Normalize("SELECT * FROM t") == "SELECT * FROM t;"
  {
    TrimOfTrimmed("SELECT * FROM t");
  }

  /** Two terminators stay two: the code only tests for a trailing ';'. */
  lemma NormalizeExampleDoubleTerminator()
    ensures Normalize(" x;; ") == "x;;"
  {
    var s := " x;; ";
    assert LeadingBlanks(s) == 1 by {
      assert LeadingBlanks(s[1..]) == 0;
    }
    var rest := s[1..];
    assert rest == "x;; ";
    assert TrailingBlanks(rest) == 1 by {
      assert TrailingBlanks(rest[..|rest| - 1]) == 0;
    }
  }
}
