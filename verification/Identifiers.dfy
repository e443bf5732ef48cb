/** The shapes of identifiers and digests. */
module Identifiers {

  /** A lower-case hexadecimal SHA-256. */
  predicate IsSha256(s: string) {
    |s| == 64 && forall i :: 0 <= i < |s| ==> '0' <= s[i] <= '9' || 'a' <= s[i] <= 'f'
  }

  /** Sixty-four of the sixteen lower-case hexadecimal digits. */
  lemma Sha256Exact(s: string)
    ensures IsSha256(s) <==> |s| == 64 && forall i :: 0 <= i < 64 ==> s[i] in "0123456789abcdef"
  {
    hide IsSha256;
    if |s| == 64 {
      forall i | 0 <= i < 64 ensures IsHexDigit(s[i]) <==> s[i] in "0123456789abcdef" { HexDigits(s[i]); }
      Sha256ByDigit(s);
    } else {
      Sha256ByDigit(s);
    }
  }

  predicate IsHexDigit(c: char) { '0' <= c <= '9' || 'a' <= c <= 'f' }

  lemma Sha256ByDigit(s: string)
    ensures IsSha256(s) <==> |s| == 64 && forall i :: 0 <= i < |s| ==> IsHexDigit(s[i])
  {}

  lemma HexDigits(c: char)
    ensures IsHexDigit(c) <==> c in "0123456789abcdef"
  {
    var digits := "0123456789abcdef";
    if '0' <= c <= '9' {
      assert digits[c as int - '0' as int] == c;
    } else if 'a' <= c <= 'f' {
      assert digits[10 + c as int - 'a' as int] == c;
    }
  }

  /** Eight to 128 letters, digits, dots, underscores and hyphens. */
  predicate IsStableId(s: string) {
    && 8 <= |s| <= 128
    && forall i :: 0 <= i < |s| ==>
         'A' <= s[i] <= 'Z' || 'a' <= s[i] <= 'z' || '0' <= s[i] <= '9' || s[i] == '.' || s[i] == '_' || s[i] == '-'
  }
}
