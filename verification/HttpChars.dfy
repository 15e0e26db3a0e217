/** Bytes and the character classes of third/http_parser/http_parser.c in strict mode. */
module HttpChars {
  type Byte = b: int | 0 <= b < 256

  const TAB: Byte := 9
  const LF: Byte := 10
  const FF: Byte := 12
  const CR: Byte := 13
  const SPACE: Byte := 32
  const EXCLAMATION: Byte := 33
  const HASH: Byte := 35
  const DOLLAR: Byte := 36
  const PERCENT: Byte := 37
  const AMPERSAND: Byte := 38
  const QUOTE: Byte := 39
  const LPAREN: Byte := 40
  const RPAREN: Byte := 41
  const STAR: Byte := 42
  const PLUS: Byte := 43
  const COMMA: Byte := 44
  const MINUS: Byte := 45
  const DOT: Byte := 46
  const SLASH: Byte := 47
  const COLON: Byte := 58
  const SEMICOLON: Byte := 59
  const EQUALS: Byte := 61
  const QUESTION: Byte := 63
  const AT: Byte := 64
  const LBRACKET: Byte := 91
  const RBRACKET: Byte := 93
  const UNDERSCORE: Byte := 95
  const TILDE: Byte := 126

  /** c | 0x20 */
  function Lower(c: Byte): Byte {
    if c < 32 || 64 <= c < 96 || 128 <= c < 160 || 192 <= c < 224 then c + 32 else c
  }

  predicate IsNum(c: Byte) { 48 <= c <= 57 }
  predicate IsAlpha(c: Byte) { 97 <= Lower(c) <= 122 }
  predicate IsAlphaNum(c: Byte) { IsAlpha(c) || IsNum(c) }
  predicate IsHex(c: Byte) { IsNum(c) || 97 <= Lower(c) <= 102 }

  predicate IsMark(c: Byte) {
    c == MINUS || c == UNDERSCORE || c == DOT || c == EXCLAMATION || c == TILDE || c == STAR || c == QUOTE
    || c == LPAREN || c == RPAREN
  }

  predicate IsUserinfoChar(c: Byte) {
    IsAlphaNum(c) || IsMark(c) || c == PERCENT || c == SEMICOLON || c == COLON || c == AMPERSAND || c == EQUALS
    || c == PLUS || c == DOLLAR || c == COMMA
  }

  predicate IsHostChar(c: Byte) { IsAlphaNum(c) || c == DOT || c == MINUS }

  /** The bits of normal_url_char: the printable ASCII characters but space, '#' and '?'. */
  predicate IsUrlChar(c: Byte) { 33 <= c <= 126 && c != HASH && c != QUESTION }

  predicate IsHeaderChar(c: Byte) { c == CR || c == LF || c == TAB || (c > 31 && c != 127) }

  /** STRICT_TOKEN: the lower-cased token character, or 0. */
  function Token(c: Byte): Byte {
    if 65 <= c <= 90 then c + 32
    else if IsNum(c) || 94 <= c <= 122 then c
    else if c == EXCLAMATION || 35 <= c <= 39 || c == STAR || c == PLUS || c == MINUS || c == DOT then c
    else if c == 124 || c == TILDE then c
    else 0
  }

  /** The value of a hexadecimal digit, or -1. */
  function Unhex(c: Byte): int {
    if IsNum(c) then c - 48
    else if 65 <= c <= 70 then c - 55
    else if 97 <= c <= 102 then c - 87
    else -1
  }
}
