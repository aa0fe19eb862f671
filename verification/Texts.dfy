/** Which texts the program accepts as names, identifiers and fingerprints. */
module Texts {

  /** Characters that Python strips from both ends of a string. */
  predicate IsSpace(c: char) {
    || '\t' <= c <= '\r' || '\U{1C}' <= c <= ' ' || c == '\U{85}' || c == '\U{A0}'
    || c == '\U{1680}' || '\U{2000}' <= c <= '\U{200A}' || c == '\U{2028}' || c == '\U{2029}'
    || c == '\U{202F}' || c == '\U{205F}' || c == '\U{3000}'
  }

  predicate NonBlank(s: string) {
    exists k :: 0 <= k < |s| && !IsSpace(s[k])
  }

  /** A text with something in it and no NUL. */
  predicate ValidText(s: string) { NonBlank(s) && '\0' !in s }

  function SomeText(): (s: string)
    ensures ValidText(s) && |s| == 1
  {
    var s := "x";
    assert s[0] == 'x';
    s
  }

  predicate IsHexDigit(c: char) { '0' <= c <= '9' || 'a' <= c <= 'f' }

  /** The fingerprint pattern: the algorithm's name and 64 lower-case hexadecimal digits. */
  predicate IsFingerprint(s: string) {
    |s| == 71 && s[..7] == "sha256:" && forall k :: 7 <= k < |s| ==> IsHexDigit(s[k])
  }
}
