/**
 String literals (lib/cJSON.c:178-309): the escaper of `print_string_ptr` and
 the two passes of `parse_string`, as functions on what follows the opening quote.
 */
module Literal {
  import opened CText

  // ---------------------------------------------------------------- escaping

  /** The escape letter of a byte that has a two-character escape. */
  function ShortEscape(c: char): Option<char> {
    match c
    case '\\' => Some('\\')
    case '\"' => Some('\"')
    case '\U{0008}' => Some('b')
    case '\U{000C}' => Some('f')
    case '\n' => Some('n')
    case '\r' => Some('r')
    case '\t' => Some('t')
    case _ => None
  }

  function HexDigit(n: nat): char
    requires n < 16
  {
    if n < 10 then ('0' as int + n) as char else ('a' as int + n - 10) as char
  }

  function EscapeChar(c: char): string {
    if c as int > 31 && c != '\"' && c != '\\' then [c]
    else match ShortEscape(c)
      case Some(e) => ['\\', e]
      case None => if c as int < 32 then ['\\', 'u', '0', '0', HexDigit(c as int / 16), HexDigit(c as int % 16)] else ""
  }

  function Escape(s: string): string {
    if s == "" then "" else EscapeChar(s[0]) + Escape(s[1..])
  }

  /** The text `print_string_ptr` writes. */
  function Quote(s: string): string {
    "\"" + Escape(s) + "\""
  }

  // -------------------------------------------------------------- unescaping

  predicate IsHexDigit(c: char) {
    '0' <= c <= '9' || 'A' <= c <= 'F' || 'a' <= c <= 'f'
  }

  function HexValue(c: char): (v: nat)
    requires IsHexDigit(c)
    ensures v < 16
  {
    if '0' <= c <= '9' then c as int - '0' as int
    else if 'A' <= c <= 'F' then 10 + c as int - 'A' as int
    else 10 + c as int - 'a' as int
  }

  predicate HexFour(s: string) {
    |s| >= 4 && IsHexDigit(s[0]) && IsHexDigit(s[1]) && IsHexDigit(s[2]) && IsHexDigit(s[3])
  }

  /** `parse_hex4`: zero unless four hexadecimal digits follow. */
  function Hex4(s: string): (h: nat)
    ensures h < 0x1_0000
  {
    if HexFour(s) then
      ((HexValue(s[0]) * 16 + HexValue(s[1])) * 16 + HexValue(s[2])) * 16 + HexValue(s[3])
    else 0
  }

  predicate HighSurrogate(u: int) { 0xD800 <= u <= 0xDBFF }
  predicate LowSurrogate(u: int) { 0xDC00 <= u <= 0xDFFF }

  /** UTF-8 as section 3 of RFC 3629 tabulates it. */
  function Utf8(u: nat): string
    requires u < 0x11_0000
  {
    if u < 0x80 then [u as char]
    else if u < 0x800 then [(0xC0 + u / 0x40) as char, (0x80 + u % 0x40) as char]
    else if u < 0x1_0000 then
      [(0xE0 + u / 0x40 / 0x40) as char, (0x80 + u / 0x40 % 0x40) as char, (0x80 + u % 0x40) as char]
    else
      [(0xF0 + u / 0x40 / 0x40 / 0x40) as char, (0x80 + u / 0x40 / 0x40 % 0x40) as char,
       (0x80 + u / 0x40 % 0x40) as char, (0x80 + u % 0x40) as char]
  }

  function JoinSurrogates(high: nat, low: nat): nat {
    0x1_0000 + high % 0x400 * 0x400 + low % 0x400
  }

  /** The effect of one turn of the decoding loop at a `\u` escape: the bytes it
      writes and how far it moves from the backslash. */
  function UnicodeToken(s: string): (string, nat) {
    var u := Hex4(if |s| >= 2 then s[2..] else "");
    if LowSurrogate(u) || u == 0 then ("", 6)
    else if HighSurrogate(u) then
      if At(s, 6) != '\\' || At(s, 7) != 'u' then ("", 6)
      else
        var low := Hex4(if |s| >= 8 then s[8..] else "");
        if !LowSurrogate(low) then ("", 12) else (Utf8(JoinSurrogates(u, low)), 12)
    else (Utf8(u), 6)
  }

  /** The effect of one turn of the decoding loop. */
  function Token(s: string): (t: (string, nat))
    requires s != "" && s[0] != '\"'
    ensures t.1 > 0
  {
    if s[0] != '\\' then ([s[0]], 1)
    else match At(s, 1)
      case 'b' => ("\U{0008}", 2)
      case 'f' => ("\U{000C}", 2)
      case 'n' => ("\n", 2)
      case 'r' => ("\r", 2)
      case 't' => ("\t", 2)
      case 'u' => UnicodeToken(s)
      case c => ([c], 2)
  }

  /** The second pass: the bytes written, and the cursor after the closing quote
      or at the terminator of an unclosed literal. */
  function Decode(s: string): (r: Parse<string>)
    ensures r.Ok? ==> |r.rest| <= |s|
    ensures !r.Fail?
    decreases |s|
  {
    if s == "" then Ok("", "")
    else if s[0] == '\"' then Ok("", s[1..])
    else
      var (out, used) := Token(s);
      if used > |s| then Overrun
      else
        var (tail, rest) :- Decode(s[used..]);
        Ok(out + tail, rest)
  }

  /** The first pass: how many bytes it counts, and the closing quote or terminator it stops at. */
  function CountPass(s: string): (r: Parse<nat>)
    ensures r.Ok? ==> Consumed(s, r.rest, 0) && (r.rest == "" || r.rest[0] == '\"')
    ensures !r.Fail?
    decreases |s|
  {
    if s == "" || s[0] == '\"' then Ok(0, s)
    else
      var used := if s[0] == '\\' then 2 else 1;
      if used > |s| then Overrun
      else
        var (n, rest) :- CountPass(s[used..]);
        Ok(n + 1, rest)
  }

  /** `parse_string`: an overrun if either pass leaves the text or the second pass
      writes more bytes than the first one allocated. */
  function ParseString(s: string): (r: Parse<string>)
    ensures r.Ok? ==> |r.rest| < |s|
    ensures r.Fail? ==> r.at == s
  {
    if At(s, 0) != '\"' then Fail(s)
    else
      var (n, _) :- CountPass(s[1..]);
      var (bytes, rest) :- Decode(s[1..]);
      if |bytes| > n then Overrun else Ok(bytes, rest)
  }
}
