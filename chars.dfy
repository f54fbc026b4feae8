/** Character classes shared by the score parser and the skill-list helpers. */
module Chars {

  /** A decimal digit, as matched by `\d` (restricted to ASCII '0'..'9'). */
  predicate IsDigit(c: char) {
    '0' <= c <= '9'
  }

  /** The characters Python's `str.isspace` accepts; `str.strip()` removes exactly these. */
  predicate IsSpace(c: char) {
    c == ' ' || ('\t' <= c <= '\r') || ('\U{1C}' <= c <= '\U{1F}')
    || c == '\U{85}' || c == '\U{A0}' || c == '\U{1680}'
    || ('\U{2000}' <= c <= '\U{200A}')
    || c == '\U{2028}' || c == '\U{2029}' || c == '\U{202F}' || c == '\U{205F}' || c == '\U{3000}'
  }

  predicate NoDigits(s: string) {
    forall p :: 0 <= p < |s| ==> !IsDigit(s[p])
  }

  predicate AllDigits(s: string) {
    forall p :: 0 <= p < |s| ==> IsDigit(s[p])
  }
}
