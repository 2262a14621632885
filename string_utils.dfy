/** The text test that decides whether a string condition is applied. */
module StringUtils {
  import opened Wrappers

  /**
   * Java's `Character.isWhitespace`: the Unicode space, line and paragraph
   * separators except the three non-breaking spaces, plus the ASCII controls
   * U+0009..U+000D and U+001C..U+001F.
   */
  predicate IsWhitespace(c: char)
  {
    var n := c as int;
    (0x09 <= n <= 0x0D) || (0x1C <= n <= 0x1F) || n == 0x20
    || n == 0x1680 || (0x2000 <= n <= 0x2006) || (0x2008 <= n <= 0x200A)
    || n == 0x2028 || n == 0x2029 || n == 0x205F || n == 0x3000
  }

  /** Scans for a character that is not whitespace, front to back. */
  predicate ContainsText(s: string)
  {
    s != [] && (!IsWhitespace(s[0]) || ContainsText(s[1..]))
  }

  /** `StringUtils.hasText`: non-null, non-empty and not all whitespace. */
  predicate HasText(s: Option<string>)
  {
    s.Some? && ContainsText(s.value)
  }

  /** The scan finds text exactly when some character is not whitespace. */
  lemma {:induction false} ContainsTextIff(s: string)
    ensures ContainsText(s) <==> exists i :: 0 <= i < |s| && !IsWhitespace(s[i])
  {
    if s != [] {
      ContainsTextIff(s[1..]);
      if !IsWhitespace(s[0]) {
        assert 0 <= 0 < |s| && !IsWhitespace(s[0]);
      } else {
        assert forall i :: 1 <= i < |s| ==> s[i] == s[1..][i - 1];
        if ContainsText(s[1..]) {
          var j :| 0 <= j < |s[1..]| && !IsWhitespace(s[1..][j]);
          assert !IsWhitespace(s[j + 1]);
        }
      }
    }
  }

  /** Null, the empty string and blank strings have no text. */
  lemma NoTextCases(s: Option<string>)
    requires s.None? || (forall i :: 0 <= i < |s.value| ==> IsWhitespace(s.value[i]))
    ensures !HasText(s)
  {
    if s.Some? {
      ContainsTextIff(s.value);
    }
  }

  /** A string with a non-whitespace character has text. */
  lemma TextCase(s: string, i: nat)
    requires i < |s| && !IsWhitespace(s[i])
    ensures HasText(Some(s))
  {
    ContainsTextIff(s);
  }
}
