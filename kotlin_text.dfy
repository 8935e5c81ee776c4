/**
 * The few pieces of Kotlin's string library that the memory ledger relies on:
 * `Char.isWhitespace`, `trim`, `isBlank`, `removePrefix` and `removeSuffix`,
 * and the character class `\s` of `java.util.regex`.
 */
module KotlinText {

  /**
   * Kotlin's `Char.isWhitespace()`: Java's `Character.isWhitespace` (the
   * ASCII controls TAB..CR and FS..US plus the space separators other than the
   * non-breaking ones) together with `Character.isSpaceChar` (every space,
   * line and paragraph separator, non-breaking ones included).
   */
  predicate IsWhitespace(c: char) {
    ('\t' <= c <= '\r') || ('\U{1C}' <= c <= '\U{1F}') || c == ' '
    || c == '\U{A0}' || c == '\U{1680}' || ('\U{2000}' <= c <= '\U{200A}')
    || c == '\U{2028}' || c == '\U{2029}' || c == '\U{202F}' || c == '\U{205F}'
    || c == '\U{3000}'
  }

  /**
   * The Unicode separators (general category Z): the space separators Zs,
   * the line separator Zl and the paragraph separator Zp.
   */
  predicate IsSeparator(c: char) {
    c == ' ' || c == '\U{A0}' || c == '\U{1680}' || ('\U{2000}' <= c <= '\U{200A}')
    || c == '\U{2028}' || c == '\U{2029}' || c == '\U{202F}' || c == '\U{205F}'
    || c == '\U{3000}'
  }

  /**
   * The regular-expression class `\s` of Android's `java.util.regex`, which
   * is backed by ICU: `[\t\n\f\r\p{Z}]`. Unlike the desktop JVM's
   * `[ \t\n\x0B\f\r]` it leaves out the vertical tab and takes in every
   * Unicode separator, the no-break spaces included.
   */
  predicate IsRegexSpace(c: char) {
    c == '\t' || c == '\n' || c == '\U{C}' || c == '\r' || IsSeparator(c)
  }

  lemma RegexSpaceIsWhitespace(c: char)
    requires IsRegexSpace(c)
    ensures IsWhitespace(c)
  {
  }

  /** `s.isBlank()`: empty or made of whitespace only. */
  predicate IsBlank(s: string) {
    forall i :: 0 <= i < |s| ==> IsWhitespace(s[i])
  }

  /** `s.trimStart()`: drops the leading whitespace. */
  function TrimStart(s: string): string
    decreases |s|
  {
    if s != [] && IsWhitespace(s[0]) then TrimStart(s[1..]) else s
  }

  /** `s.trimEnd()`: drops the trailing whitespace. */
  function TrimEnd(s: string): string
    decreases |s|
  {
    if s != [] && IsWhitespace(s[|s| - 1]) then TrimEnd(s[..|s| - 1]) else s
  }

  /** `s.trim()`: drops whitespace at both ends. */
  function Trim(s: string): string {
    TrimEnd(TrimStart(s))
  }

  /** `trimStart` removes exactly the longest whitespace prefix. */
  lemma {:induction false} TrimStartSpec(s: string)
    ensures var r := TrimStart(s);
      |r| <= |s| && r == s[|s| - |r|..] &&
      (forall i :: 0 <= i < |s| - |r| ==> IsWhitespace(s[i])) &&
      (r == [] || !IsWhitespace(r[0]))
    decreases |s|
  {
    if s != [] && IsWhitespace(s[0]) {
      TrimStartSpec(s[1..]);
    }
  }

  /** `trimEnd` removes exactly the longest whitespace suffix. */
  lemma {:induction false} TrimEndSpec(s: string)
    ensures var r := TrimEnd(s);
      |r| <= |s| && r == s[..|r|] &&
      (forall i :: |r| <= i < |s| ==> IsWhitespace(s[i])) &&
      (r == [] || !IsWhitespace(r[|r| - 1]))
    decreases |s|
  {
    if s != [] && IsWhitespace(s[|s| - 1]) {
      TrimEndSpec(s[..|s| - 1]);
    }
  }

  /** `s.removePrefix(",")`. */
  function RemoveLeadingComma(s: string): string {
    if |s| > 0 && s[0] == ',' then s[1..] else s
  }

  /** `s.removeSuffix(",")`. */
  function RemoveTrailingComma(s: string): string {
    if |s| > 0 && s[|s| - 1] == ',' then s[..|s| - 1] else s
  }

  /** A string is blank exactly when trimming leaves nothing. */
  lemma BlankIffTrimEmpty(s: string)
    ensures IsBlank(s) <==> Trim(s) == []
  {
    TrimStartSpec(s);
    var t := TrimStart(s);
    TrimEndSpec(t);
    if t != [] {
      assert s[|s| - |t|] == t[0];
    }
  }

  /** Trimming leaves a string alone when neither end is whitespace. */
  lemma TrimUntouched(s: string)
    requires s == [] || (!IsWhitespace(s[0]) && !IsWhitespace(s[|s| - 1]))
    ensures Trim(s) == s
  {
  }
}
