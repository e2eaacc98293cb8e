/** Character classes used by the text-cleaning step and by whitespace splitting. */
module Chars {

  /** Code points below 128: exactly what survives `.encode('ASCII', 'ignore')`. */
  predicate IsAscii(c: char) {
    c < '\U{80}'
  }

  predicate IsAsciiUpper(c: char) {
    'A' <= c <= 'Z'
  }

  /** `str.lower` restricted to ASCII: only A-Z change. */
  function AsciiLower(c: char): (r: char)
    ensures !IsAsciiUpper(r)
    ensures IsAscii(c) <==> IsAscii(r)
    ensures !IsAsciiUpper(c) ==> r == c
  {
    if IsAsciiUpper(c) then (c as int + 32) as char else c
  }

  /** The regular-expression class `\w` on ASCII text: letters, digits and underscore.
      The cleaning step applies `\w` only after every non-ASCII character is gone. */
  predicate IsWordChar(c: char) {
    ('a' <= c <= 'z') || ('A' <= c <= 'Z') || ('0' <= c <= '9') || c == '_'
  }

  /** Python's whitespace (`\s` in a str pattern, `str.strip()`, `str.split()`):
      TAB..CR, the four information separators 0x1C..0x1F, SPACE, and the
      Unicode space characters. */
  predicate IsSpace(c: char) {
    || ('\t' <= c <= '\r')
    || ('\U{1C}' <= c <= ' ')
    || c == '\U{85}' || c == '\U{A0}' || c == '\U{1680}'
    || ('\U{2000}' <= c <= '\U{200A}')
    || c == '\U{2028}' || c == '\U{2029}' || c == '\U{202F}' || c == '\U{205F}'
    || c == '\U{3000}'
  }

  predicate IsNonSpace(c: char) {
    !IsSpace(c)
  }

  /** What `re.sub(r'[^\w\s]', '', ...)` keeps. */
  predicate IsWordOrSpace(c: char) {
    IsWordChar(c) || IsSpace(c)
  }

  /** Word characters are never whitespace, and both are ASCII-or-space. */
  lemma WordCharFacts(c: char)
    ensures IsWordChar(c) ==> !IsSpace(c) && IsAscii(c)
    ensures IsWordChar(c) <==> IsWordChar(AsciiLower(c))
    ensures IsSpace(c) <==> IsSpace(AsciiLower(c))
  {
  }
}
