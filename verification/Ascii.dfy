/**
 Character classes of the HTTP/1 parser (strict mode).  An octet is a `char`;
 every table lookup is total, so the definitions also make sense for octets
 above 127 and nothing depends on an upper bound.
 */
module Ascii {
  const CR: char := '\r'
  const LF: char := '\n'
  const SP: char := ' '
  const HT: char := '\t'
  const CRLF: string := "\r\n"

  /**
   `LOWER`: sets bit 0x20, on every octet below 0x80 and not only on letters; above, it is
   never compared with anything.
   */
  function Lower(c: char): char {
    var i := c as int;
    if i < 0x80 && (i / 0x20) % 2 == 0 then (i + 0x20) as char else c
  }

  predicate IsNum(c: char) { '0' <= c <= '9' }

  predicate IsAlpha(c: char) { 'a' <= c <= 'z' || 'A' <= c <= 'Z' }

  function DigitValue(c: char): nat
    requires IsNum(c)
  {
    c as int - '0' as int
  }

  /** `unhex`: the value of a hexadecimal digit, or -1. */
  function Unhex(c: char): int {
    if IsNum(c) then DigitValue(c)
    else if 'a' <= c <= 'f' then c as int - 'a' as int + 10
    else if 'A' <= c <= 'F' then c as int - 'A' as int + 10
    else -1
  }

  /** `tokens`: field-name octets (section 3.2.6 of RFC 7230). */
  predicate IsToken(c: char) {
    IsAlpha(c) || IsNum(c) || c in "!#$%&'*+-.^_`|~"
  }

  /** The lower-cased entry of `tokens` for a token octet. */
  function TokenLower(c: char): char
    requires IsToken(c)
  {
    if 'A' <= c <= 'Z' then (c as int + 0x20) as char else c
  }

  /** `IS_HEADER_CHAR`: visible octets, obs-text, HTAB, and line ends. */
  predicate IsHeaderChar(c: char) {
    c == CR || c == LF || c == HT || (c as int > 31 && c as int != 127)
  }

  predicate IsUrlChar(c: char) {
    33 <= c as int <= 126 && c != '#' && c != '?'
  }

  predicate IsMark(c: char) { c in "-_.!~*'()" }

  predicate IsUserinfoChar(c: char) {
    IsAlpha(c) || IsNum(c) || IsMark(c) || c in "%;:&=+$,"
  }

  predicate IsHostChar(c: char) { IsAlpha(c) || IsNum(c) || c == '.' || c == '-' }

  predicate IsHex(c: char) { IsNum(c) || 'a' <= c <= 'f' || 'A' <= c <= 'F' }
}
