/** What the literal codec promises: decoding undoes escaping, the second pass fits
    the first pass's allocation, and `\u` escapes become UTF-8. */
module LiteralProofs {
  import opened CText
  import opened Literal

  /** `r` with the bytes `b` written before its own. */
  function Prepend(b: string, r: Parse<string>): Parse<string> {
    if r.Ok? then Ok(b + r.value, r.rest) else r
  }

  /** `r` with `k` more bytes counted. */
  function Plus(r: Parse<nat>, k: nat): Parse<nat> {
    if r.Ok? then Ok(r.value + k, r.rest) else r
  }

  /** One turn of the decoding loop. */
  lemma DecodeStep(s: string, out: string, used: nat)
    requires s != "" && s[0] != '\"' && Token(s) == (out, used) && used <= |s|
    ensures Decode(s) == Prepend(out, Decode(s[used..]))
  {
    hide Token;
  }

  // ------------------------------------------------------------- round trip

  /** A control byte without a short escape comes back from its six characters. */
  lemma HexEscapeTaken(c: char, rest: string)
    requires 0 < c as int < 32 && ShortEscape(c) == None
    ensures Decode(EscapeChar(c) + rest) == Prepend([c], Decode(rest))
    ensures CountPass(EscapeChar(c) + rest) == Plus(CountPass(rest), 5)
    ensures CompleteEscapes(EscapeChar(c) + rest) == CompleteEscapes(rest)
  {
    hide Token, EscapeChar, ShortEscape, Hex4, CountPass, CompleteEscapes, Decode;
    var s := EscapeChar(c) + rest;
    HexText(c, rest);
    HexToken(c, rest);
    DecodeStep(s, [c], 6);
    HexCounted(s);
  }

  lemma HexText(c: char, rest: string)
    requires 0 < c as int < 32 && ShortEscape(c) == None
    ensures var s := EscapeChar(c) + rest;
      && |s| == |rest| + 6 && s[0] == '\\' && s[1] == 'u' && s[2] == '0' && s[3] == '0'
      && s[4] == HexDigit(c as int / 16) && s[5] == HexDigit(c as int % 16) && HexFour(s[2..]) && s[6..] == rest
  {
  }

  lemma HexToken(c: char, rest: string)
    requires 0 < c as int < 32 && ShortEscape(c) == None
    ensures Token(EscapeChar(c) + rest) == ([c], 6)
  {
    hide EscapeChar, ShortEscape, Hex4, HexFour, HexDigit;
    HexText(c, rest);
    HexOfByte(c as int, (EscapeChar(c) + rest)[2..]);
  }

  /** To the first pass an escape of a byte is a pair and four ordinary bytes. */
  lemma HexCounted(s: string)
    requires |s| >= 6 && s[0] == '\\' && s[1] == 'u' && HexFour(s[2..])
    ensures CountPass(s) == Plus(CountPass(s[6..]), 5) && CompleteEscapes(s) == CompleteEscapes(s[6..])
  {
    hide CountPass, CompleteEscapes, HexFour;
    PairCounted(s);
    FourDigits(s[2..]);
    assert s[2..][4..] == s[6..];
  }

  lemma PairCounted(s: string)
    requires |s| >= 6 && s[0] == '\\' && s[1] == 'u' && HexFour(s[2..])
    ensures CountPass(s) == Plus(CountPass(s[2..]), 1) && CompleteEscapes(s) == CompleteEscapes(s[2..])
  {
    hide HexFour;
  }

  lemma HexOfByte(c: int, s: string)
    requires 0 < c < 32 && |s| >= 4
    requires s[0] == '0' && s[1] == '0' && s[2] == HexDigit(c / 16) && s[3] == HexDigit(c % 16)
    ensures HexFour(s) && Hex4(s) == c
  {
  }

  lemma ShortEscapeToken(c: char, s: string)
    requires 0 < c as int < 256 && (c as int >= 32 || ShortEscape(c).Some?)
    requires EscapeChar(c) <= s
    ensures Token(s) == ([c], |EscapeChar(c)|) && s[0] != '\"'
    ensures if s[0] == '\\' then |EscapeChar(c)| == 2 && s[1] != 'u' else |EscapeChar(c)| == 1
  {
    hide UnicodeToken;
  }

  /** One escaped byte is one, two or six characters that both passes take back. */
  lemma EscapeCharTaken(c: char, rest: string)
    requires 0 < c as int < 256
    ensures Decode(EscapeChar(c) + rest) == Prepend([c], Decode(rest))
    ensures exists k :: k > 0 && CountPass(EscapeChar(c) + rest) == Plus(CountPass(rest), k)
    ensures CompleteEscapes(EscapeChar(c) + rest) == CompleteEscapes(rest)
  {
    hide Token, CountPass, Decode, EscapeChar, CompleteEscapes;
    if c as int < 32 && ShortEscape(c) == None {
      HexEscapeTaken(c, rest);
    } else {
      var e := EscapeChar(c);
      var s := e + rest;
      assert s[|e|..] == rest;
      ShortEscapeToken(c, s);
      DecodeStep(s, [c], |e|);
      PlainCounted(s, |e|);
    }
  }

  /** Both passes at the closing quote. */
  lemma AtQuote(r: string)
    ensures Decode("\"" + r) == Ok("", r) && CountPass("\"" + r) == Ok(0, "\"" + r) && CompleteEscapes("\"" + r)
  {
    assert ("\"" + r)[1..] == r;
  }

  /** Decoding what the escaper wrote gives back every byte and stops after the closing quote. */
  lemma {:induction false} EscapeTaken(s: string, rest: string)
    requires CString(s)
    ensures Decode(Escape(s) + "\"" + rest) == Ok(s, rest)
    ensures var count := CountPass(Escape(s) + "\"" + rest); count.Ok? && count.value >= |s| && count.rest == "\"" + rest
    ensures CompleteEscapes(Escape(s) + "\"" + rest)
  {
    hide Decode, CountPass, EscapeChar, CompleteEscapes;
    if s == "" {
      assert Escape(s) + "\"" + rest == "\"" + rest;
      AtQuote(rest);
    } else {
      EscapeTaken(s[1..], rest);
      var tail := Escape(s[1..]) + "\"" + rest;
      EscapeCharTaken(s[0], tail);
      assert Escape(s) + "\"" + rest == EscapeChar(s[0]) + tail;
      assert [s[0]] + s[1..] == s;
    }
  }

  lemma LiteralRoundTrip(s: string, rest: string)
    requires CString(s)
    ensures ParseString(Quote(s) + rest) == Ok(s, rest)
  {
    hide Escape, Decode, CountPass;
    EscapeTaken(s, rest);
    assert (Quote(s) + rest)[1..] == Escape(s) + "\"" + rest;
  }

  // ------------------------------------------------------- allocation suffices

  /** After the opening quote: no backslash ends the text, and each `\u` has its four digits. */
  ghost predicate CompleteEscapes(s: string)
    decreases |s|
  {
    if s == "" || s[0] == '\"' then true
    else if s[0] != '\\' then CompleteEscapes(s[1..])
    else |s| >= 2 && (s[1] == 'u' ==> HexFour(s[2..])) && CompleteEscapes(s[2..])
  }

  /** The cursor `parse_string` returns when its first pass stops at `q`. */
  ghost function AfterQuote(q: string): string {
    if q == "" then q else q[1..]
  }

  /** The first pass over one ordinary byte. */
  lemma OrdinaryByte(s: string)
    requires s != "" && s[0] != '\"' && s[0] != '\\'
    ensures CountPass(s) == Plus(CountPass(s[1..]), 1)
    ensures CompleteEscapes(s) == CompleteEscapes(s[1..])
  {
  }

  /** Four digits of an escape are four ordinary bytes to the first pass. */
  lemma FourDigits(s: string)
    requires HexFour(s)
    ensures CountPass(s) == Plus(CountPass(s[4..]), 4)
    ensures CompleteEscapes(s) == CompleteEscapes(s[4..])
  {
    hide CountPass, CompleteEscapes;
    assert s[1..][1..] == s[2..] && s[2..][1..] == s[3..] && s[3..][1..] == s[4..];
    OrdinaryByte(s);
    OrdinaryByte(s[1..]);
    OrdinaryByte(s[2..]);
    OrdinaryByte(s[3..]);
  }

  /** A complete `\u` escape is counted as five bytes. */
  lemma UnicodeCounted(s: string)
    requires |s| >= 2 && s[0] == '\\' && s[1] == 'u' && CompleteEscapes(s)
    ensures |s| >= 6 && HexFour(s[2..]) && CompleteEscapes(s[6..])
    ensures CountPass(s) == Plus(CountPass(s[6..]), 5)
  {
    assert |s| >= 6 && HexFour(s[2..]);
    hide CountPass, CompleteEscapes, HexFour;
    HexCounted(s);
  }

  lemma UnicodeTokenSize(s: string)
    ensures |UnicodeToken(s).0| <= if UnicodeToken(s).1 == 6 then 3 else 4
    ensures UnicodeToken(s).1 == 6 || (UnicodeToken(s).1 == 12 && At(s, 6) == '\\' && At(s, 7) == 'u')
  {
    hide Hex4;
  }

  /** The first pass counts at least `n` bytes before it reaches `s[used..]`. */
  ghost predicate CountedPast(s: string, used: nat, n: nat) {
    used <= |s| && (CountPass(s[used..]).Ok? ==>
      CountPass(s).Ok? && CountPass(s).rest == CountPass(s[used..]).rest
      && CountPass(s).value >= CountPass(s[used..]).value + n)
  }

  lemma UnicodeTokenCounted(s: string)
    requires |s| >= 2 && s[0] == '\\' && s[1] == 'u' && CompleteEscapes(s)
    ensures UnicodeToken(s).1 <= |s| && CompleteEscapes(s[UnicodeToken(s).1..])
    ensures CountedPast(s, UnicodeToken(s).1, |UnicodeToken(s).0|)
  {
    hide UnicodeToken, CountPass, CompleteEscapes;
    UnicodeCounted(s);
    UnicodeTokenSize(s);
    if UnicodeToken(s).1 == 12 {
      UnicodeCounted(s[6..]);
      assert s[6..][6..] == s[12..];
      assert CountPass(s) == Plus(CountPass(s[12..]), 10);
    }
  }

  /** Any token but a `\u` escape is one byte, written as one or two. */
  lemma PlainToken(s: string)
    requires s != "" && s[0] != '\"' && !(s[0] == '\\' && At(s, 1) == 'u')
    ensures |Token(s).0| == 1 && Token(s).1 == if s[0] == '\\' then 2 else 1
  {
  }

  lemma TokenOfUnicode(s: string)
    requires |s| >= 2 && s[0] == '\\' && s[1] == 'u'
    ensures Token(s) == UnicodeToken(s)
  {
    hide UnicodeToken;
  }

  lemma PlainCounted(s: string, n: nat)
    requires s != "" && s[0] != '\"' && n == (if s[0] == '\\' then 2 else 1) <= |s|
    ensures CountPass(s) == Plus(CountPass(s[n..]), 1)
    ensures !(n == 2 && s[1] == 'u') ==> CompleteEscapes(s) == CompleteEscapes(s[n..])
  {
  }

  /** Where the first pass stands when the second has taken one token of a complete literal. */
  lemma TokenCounted(s: string)
    requires s != "" && s[0] != '\"' && CompleteEscapes(s)
    ensures Token(s).1 <= |s| && CompleteEscapes(s[Token(s).1..])
    ensures CountedPast(s, Token(s).1, |Token(s).0|)
  {
    hide Token, UnicodeToken, CountPass;
    if s[0] == '\\' && s[1] == 'u' {
      UnicodeTokenCounted(s);
      TokenOfUnicode(s);
    } else {
      PlainToken(s);
      PlainCounted(s, Token(s).1);
    }
  }

  /** With complete escapes the second pass stays inside the text, stops where the first
      did, and writes at most the bytes counted, lone surrogates included. */
  lemma {:induction false} SecondPassFits(s: string)
    requires CompleteEscapes(s)
    ensures CountPass(s).Ok? && Decode(s).Ok?
    ensures |Decode(s).value| <= CountPass(s).value
    ensures Decode(s).rest == AfterQuote(CountPass(s).rest)
    decreases |s|
  {
    if s != "" && s[0] != '\"' {
      TokenCounted(s);
      SecondPassFits(s[Token(s).1..]);
    }
  }

  lemma Hex4Local(a: string, b: string)
    requires |a| >= 4 && |b| >= 4 && a[..4] == b[..4]
    ensures Hex4(a) == Hex4(b) && HexFour(a) == HexFour(b)
  {
    assert forall i :: 0 <= i < 4 ==> a[..4][i] == b[..4][i];
  }

  lemma UnicodeTokenIsLocal(s: string, t: string, n: nat)
    requires |s| >= 2 && s[0] == '\\' && s[1] == 'u' && CompleteEscapes(s)
    requires UnicodeToken(s).1 < n <= |s| && n <= |t| && s[..n] == t[..n]
    requires n == 7 ==> s[6] == '\"'
    ensures UnicodeToken(t) == UnicodeToken(s)
  {
    hide Hex4, Utf8, CompleteEscapes, CountPass;
    UnicodeCounted(s);
    UnicodeTokenSize(s);
    assert forall i :: 0 <= i < n ==> s[i] == s[..n][i] == t[..n][i] == t[i];
    assert s[2..][..4] == s[..n][2..6] == t[2..][..4];
    Hex4Local(s[2..], t[2..]);
    if UnicodeToken(s).1 == 12 {
      assert s[8..][..4] == s[..n][8..12] == t[8..][..4];
      Hex4Local(s[8..], t[8..]);
    }
  }

  /** A token depends on the bytes it takes, and for a high surrogate on the two after them. */
  lemma TokenIsLocal(s: string, t: string, n: nat)
    requires s != "" && s[0] != '\"' && CompleteEscapes(s)
    requires Token(s).1 < n <= |s| && n <= |t| && s[..n] == t[..n]
    requires n == 7 ==> s[6] == '\"'
    ensures Token(t) == Token(s)
  {
    hide UnicodeToken;
    assert forall i :: 0 <= i < n ==> s[i] == s[..n][i] == t[..n][i] == t[i];
    if s[0] == '\\' && s[1] == 'u' {
      UnicodeTokenIsLocal(s, t, n);
    }
  }

  lemma LocalDecode(s: string, k: nat, r: string)
    requires s != "" && s[0] != '\"' && CompleteEscapes(s) && Token(s).1 < k <= |s| && (k == 7 ==> s[6] == '\"')
    requires var u := Token(s).1; Decode(s[u..]).Ok? && Decode(s[u..][..k - u] + r) == Ok(Decode(s[u..]).value, r)
    ensures Decode(s).Ok? && Decode(s[..k] + r) == Ok(Decode(s).value, r)
  {
    hide Token, CompleteEscapes, Decode, CountPass;
    var t := s[..k] + r;
    assert s[..k] == t[..k] && s[0] == t[0];
    TokenIsLocal(s, t, k);
    var (out, used) := Token(s);
    DecodeStep(s, out, used);
    DecodeStep(t, out, used);
    assert s[used..][..k - used] + r == t[used..];
  }

  lemma LocalCount(s: string, k: nat, r: string, n: nat)
    requires s != "" && s[0] != '\"' && n == (if s[0] == '\\' then 2 else 1) < k <= |s| && CompleteEscapes(s)
    requires s[0] == '\\' && s[1] == 'u' ==> k >= 6
    requires CompleteEscapes(s[n..][..k - n] + r)
    ensures CompleteEscapes(s[..k] + r)
    ensures CountPass(s[..k] + r) == Plus(CountPass(s[n..][..k - n] + r), 1)
  {
    hide CountPass;
    var t := s[..k] + r;
    assert s[n..][..k - n] + r == t[n..];
    assert s[0] == t[0] && (n == 2 ==> s[1] == t[1]);
    if n == 2 && s[1] == 'u' {
      assert s[2..][..4] == t[2..][..4];
      Hex4Local(s[2..], t[2..]);
    }
    PlainCounted(t, n);
  }

  /** The bytes of a closed literal through its closing quote are the first `ClosedAt` of `s`. */
  ghost function ClosedAt(s: string): (k: nat)
    requires CountPass(s).Ok? && CountPass(s).rest != ""
    ensures 0 < k <= |s|
  {
    |s| - |CountPass(s).rest| + 1
  }

  /** A closed literal starts with its closing quote or a byte or escape before it. */
  lemma ClosedStep(s: string, n: nat)
    requires CompleteEscapes(s) && CountPass(s).Ok? && CountPass(s).rest != "" && s[0] != '\"'
    requires n == if s[0] == '\\' then 2 else 1
    ensures n <= |s| && CompleteEscapes(s[n..]) && CountPass(s[n..]).Ok? && CountPass(s[n..]).rest != ""
    ensures ClosedAt(s) == ClosedAt(s[n..]) + n && CountPass(s).value == CountPass(s[n..]).value + 1
    ensures s[0] == '\\' && s[1] == 'u' ==> |s| >= 6 && HexFour(s[2..]) && ClosedAt(s) > 6
  {
    CompleteStep(s, n);
    hide CountPass, CompleteEscapes, HexFour;
    PlainCounted(s, n);
    if s[0] == '\\' && s[1] == 'u' {
      UnicodeCounted(s);
      CountedEnds(s[6..]);
    }
  }

  lemma CompleteStep(s: string, n: nat)
    requires CompleteEscapes(s) && s != "" && s[0] != '\"' && n == if s[0] == '\\' then 2 else 1
    ensures n <= |s| && CompleteEscapes(s[n..])
  {
    hide HexFour;
  }

  lemma CountedEnds(s: string)
    ensures CountPass(s).Ok? ==> |CountPass(s).rest| <= |s|
  {
  }

  lemma ClosedAtQuote(s: string, r: string)
    requires CountPass(s).Ok? && CountPass(s).rest != ""
    ensures s != ""
    ensures s[0] == '\"' ==> CompleteEscapes(s[..ClosedAt(s)] + r) && Decode(s).Ok? && Decode(s).value == ""
    ensures s[0] == '\"' ==> CountPass(s[..ClosedAt(s)] + r) == Ok(CountPass(s).value, "\"" + r)
    ensures s[0] == '\"' ==> Decode(s[..ClosedAt(s)] + r) == Ok("", r)
  {
    if s[0] == '\"' {
      assert s[..1] + r == "\"" + r;
      AtQuote(r);
    }
  }

  lemma ClosedToken(s: string)
    requires CompleteEscapes(s) && CountPass(s).Ok? && CountPass(s).rest != "" && s[0] != '\"'
    ensures var used := Token(s).1;
      && used <= |s| && CompleteEscapes(s[used..]) && CountPass(s[used..]).Ok? && CountPass(s[used..]).rest != ""
      && ClosedAt(s) == ClosedAt(s[used..]) + used
      && (ClosedAt(s) == 7 ==> s[6] == '\"')
  {
    hide Token, Decode;
    TokenCounted(s);
    SecondPassFits(s[Token(s).1..]);
    assert s[ClosedAt(s) - 1] == '\"';
  }

  lemma {:induction false} CountIsLocal(s: string, r: string)
    requires CompleteEscapes(s) && CountPass(s).Ok? && CountPass(s).rest != ""
    ensures CompleteEscapes(s[..ClosedAt(s)] + r)
    ensures CountPass(s[..ClosedAt(s)] + r) == Ok(CountPass(s).value, "\"" + r)
    decreases |s|
  {
    hide CountPass, CompleteEscapes, ClosedAt, Consumed;
    ClosedAtQuote(s, r);
    if s[0] != '\"' {
      var n := if s[0] == '\\' then 2 else 1;
      ClosedStep(s, n);
      CountIsLocal(s[n..], r);
      LocalCount(s, ClosedAt(s), r, n);
    }
  }

  /** A closed literal with complete escapes is read by the parser up to its closing
      quote whatever follows, so its value depends on the literal alone. */
  lemma {:induction false} LiteralIsLocal(s: string, r: string)
    requires CompleteEscapes(s) && CountPass(s).Ok? && CountPass(s).rest != ""
    ensures Decode(s).Ok? && Decode(s[..ClosedAt(s)] + r) == Ok(Decode(s).value, r)
    decreases |s|
  {
    hide CountPass, CompleteEscapes, ClosedAt, Consumed, Decode, Token;
    ClosedAtQuote(s, r);
    if s[0] != '\"' {
      ClosedToken(s);
      LiteralIsLocal(s[Token(s).1..], r);
      LocalDecode(s, ClosedAt(s), r);
    }
  }

  // ------------------------------------------------------------- transcoding

  /** A strict UTF-8 decoder of one character, by section 4 of RFC 3629: no overlong
      forms, no surrogates, nothing above U+10FFFF. */
  function Utf8Decode(b: string): Option<nat> {
    if |b| == 1 && b[0] as int < 0x80 then Some(b[0] as int)
    else if |b| == 2 && 0xC2 <= b[0] as int <= 0xDF && Tail(b[1]) then
      Some((b[0] as int - 0xC0) * 0x40 + (b[1] as int - 0x80))
    else if |b| == 3 && 0xE0 <= b[0] as int <= 0xEF && Tail(b[1]) && Tail(b[2])
            && (b[0] as int == 0xE0 ==> b[1] as int >= 0xA0) && (b[0] as int == 0xED ==> b[1] as int <= 0x9F) then
      Some(((b[0] as int - 0xE0) * 0x40 + (b[1] as int - 0x80)) * 0x40 + (b[2] as int - 0x80))
    else if |b| == 4 && 0xF0 <= b[0] as int <= 0xF4 && Tail(b[1]) && Tail(b[2]) && Tail(b[3])
            && (b[0] as int == 0xF0 ==> b[1] as int >= 0x90) && (b[0] as int == 0xF4 ==> b[1] as int <= 0x8F) then
      Some((((b[0] as int - 0xF0) * 0x40 + (b[1] as int - 0x80)) * 0x40 + (b[2] as int - 0x80)) * 0x40
           + (b[3] as int - 0x80))
    else None
  }

  predicate Tail(c: char) {
    0x80 <= c as int <= 0xBF
  }

  ghost predicate ScalarValue(u: int) {
    0 <= u < 0x11_0000 && !HighSurrogate(u) && !LowSurrogate(u)
  }

  /** Base-64 digits come apart and together again. */
  lemma Sextets(u: nat)
    ensures u == u / 0x40 * 0x40 + u % 0x40 && u % 0x40 < 0x40
    ensures u == (u / 0x40 / 0x40 * 0x40 + u / 0x40 % 0x40) * 0x40 + u % 0x40
    ensures u == ((u / 0x40 / 0x40 / 0x40 * 0x40 + u / 0x40 / 0x40 % 0x40) * 0x40 + u / 0x40 % 0x40) * 0x40 + u % 0x40
  {
  }

  lemma SextetsOf(a: nat, b: nat)
    requires b < 0x40
    ensures (a * 0x40 + b) / 0x40 == a && (a * 0x40 + b) % 0x40 == b
  {
  }

  /** The bytes written for a scalar value are the one form a strict decoder maps back to it. */
  lemma Utf8Inverse(u: nat)
    requires ScalarValue(u)
    ensures Utf8Decode(Utf8(u)) == Some(u)
  {
    Sextets(u);
  }

  /** Conversely, only the UTF-8 form of a scalar value is decoded to it. */
  lemma Utf8Unique(b: string)
    requires Utf8Decode(b).Some?
    ensures ScalarValue(Utf8Decode(b).value) && b == Utf8(Utf8Decode(b).value)
  {
    if |b| == 3 {
      Utf8Three(b);
    } else if |b| == 4 {
      Utf8Four(b);
    }
  }

  lemma Utf8Three(b: string)
    requires |b| == 3 && Utf8Decode(b).Some?
    ensures ScalarValue(Utf8Decode(b).value) && b == Utf8(Utf8Decode(b).value)
  {
    var u := Utf8Decode(b).value;
    var (x, y, z) := (b[0] as int - 0xE0, b[1] as int - 0x80, b[2] as int - 0x80);
    assert u == (x * 0x40 + y) * 0x40 + z && 0x800 <= u < 0x1_0000;
    SextetsOf(x * 0x40 + y, z);
    SextetsOf(x, y);
    hide Utf8Decode;
    assert b == [b[0], b[1], b[2]];
  }

  lemma Utf8Four(b: string)
    requires |b| == 4 && Utf8Decode(b).Some?
    ensures ScalarValue(Utf8Decode(b).value) && b == Utf8(Utf8Decode(b).value)
  {
    var u := Utf8Decode(b).value;
    var (w, x, y, z) := (b[0] as int - 0xF0, b[1] as int - 0x80, b[2] as int - 0x80, b[3] as int - 0x80);
    assert u == ((w * 0x40 + x) * 0x40 + y) * 0x40 + z && 0x1_0000 <= u < 0x11_0000;
    SextetsOf((w * 0x40 + x) * 0x40 + y, z);
    SextetsOf(w * 0x40 + x, y);
    SextetsOf(w, x);
    hide Utf8Decode;
    assert b == [b[0], b[1], b[2], b[3]];
  }

  /** The surrogate pair of a supplementary character, by section 2.1 of RFC 2781. */
  function SurrogatePair(u: nat): (nat, nat)
    requires 0x1_0000 <= u < 0x11_0000
  {
    (0xD800 + (u - 0x1_0000) / 0x400, 0xDC00 + (u - 0x1_0000) % 0x400)
  }

  /** A scalar value written as one `\u` escape, in any case of its digits, is emitted as its UTF-8. */
  lemma EscapeTranscodes(u: nat, digits: string, rest: string)
    requires ScalarValue(u) && 0 < u < 0x1_0000
    requires |digits| == 4 && HexFour(digits) && Hex4(digits) == u
    ensures Decode("\\u" + digits + rest) == Prepend(Utf8(u), Decode(rest))
  {
    var s := "\\u" + digits + rest;
    assert s[2..] == digits + rest && s[6..] == rest;
    assert Hex4(s[2..]) == Hex4(digits);
    assert Token(s) == (Utf8(u), 6) by { hide Hex4, Utf8; }
    DecodeStep(s, Utf8(u), 6);
  }

  lemma SurrogatesJoin(u: nat)
    requires 0x1_0000 <= u < 0x11_0000
    ensures JoinSurrogates(SurrogatePair(u).0, SurrogatePair(u).1) == u
    ensures HighSurrogate(SurrogatePair(u).0) && LowSurrogate(SurrogatePair(u).1)
  {
  }

  /** A scalar value written as a surrogate pair is emitted as its UTF-8. */
  lemma PairTranscodes(u: nat, high: string, low: string, rest: string)
    requires 0x1_0000 <= u < 0x11_0000
    requires |high| == 4 && HexFour(high) && Hex4(high) == SurrogatePair(u).0
    requires |low| == 4 && HexFour(low) && Hex4(low) == SurrogatePair(u).1
    ensures Decode("\\u" + high + "\\u" + low + rest) == Prepend(Utf8(u), Decode(rest))
  {
    var s := "\\u" + high + "\\u" + low + rest;
    assert s[2..] == high + ("\\u" + low + rest) && s[8..] == low + rest && s[12..] == rest;
    assert Hex4(s[2..]) == Hex4(high) && Hex4(s[8..]) == Hex4(low);
    SurrogatesJoin(u);
    assert Token(s) == (Utf8(u), 12) by { hide Hex4, Utf8, JoinSurrogates, SurrogatePair; }
    DecodeStep(s, Utf8(u), 12);
  }

  // ---------------------------------------------------------------- C strings

  lemma Utf8CString(u: nat)
    requires 0 < u < 0x11_0000
    ensures CString(Utf8(u))
  {
  }

  lemma TokenCString(s: string)
    requires s != "" && s[0] != '\"' && CString(s) && Token(s).1 <= |s|
    ensures CString(Token(s).0)
  {
    if s[0] == '\\' && At(s, 1) == 'u' {
      hide Hex4, Utf8, CString;
      var u := Hex4(s[2..]);
      if u > 0 { Utf8CString(u); }
      Utf8CString(JoinSurrogates(u, Hex4(if |s| >= 8 then s[8..] else "")));
    }
  }

  /** No escape makes a NUL: the decoded bytes are a C string. */
  lemma {:induction false} DecodeCString(s: string)
    requires CString(s) && Decode(s).Ok?
    ensures CString(Decode(s).value)
    decreases |s|
  {
    if s != "" && s[0] != '\"' {
      var used := Token(s).1;
      TokenCString(s);
      DecodeCString(s[used..]) by { hide Token; }
      hide Token;
    }
  }
}
