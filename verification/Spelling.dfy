/**
 Every way to write a string literal, piece by piece, and what each piece means: a table
 beside the code, against which both passes of `parse_string` are proved.
 */
module Spelling {
  import opened CText
  import opened Literal
  import opened LiteralProofs

  /** A part of a literal between its quotes; `u` is the number that four digits spell. */
  datatype Piece =
    | Plain(c: char)
    | Escaped(e: char)
    | Unicode(u: nat, four: string)
    | Pair(u: nat, high: string, low: string)
    | Dropped(four: string)
    | Alone(u: nat, four: string)
    | Mismatched(u: nat, high: string, second: string)

  // ------------------------------------------------------------------ digits

  /** `c` is the hexadecimal digit `v`, in either case. */
  predicate Nibble(c: char, v: nat) {
    v < 16 && (c == "0123456789abcdef"[v] || c == "0123456789ABCDEF"[v])
  }

  /** The four characters are the hexadecimal digits of `u`. */
  predicate Spelt(four: string, u: nat) {
    && |four| == 4 && u < 0x1_0000
    && Nibble(four[0], u / 0x1000) && Nibble(four[1], u / 0x100 % 0x10)
    && Nibble(four[2], u / 0x10 % 0x10) && Nibble(four[3], u % 0x10)
  }

  /** Four characters that neither end the literal nor start an escape. */
  predicate Harmless(four: string) {
    |four| == 4 && forall i | 0 <= i < 4 :: four[i] != '\"' && four[i] != '\\'
  }

  // ----------------------------------------------------------------- meaning

  /** What a backslash and a letter stand for: the five control characters that have a letter of
      their own, and every other character for itself. */
  function Meant(e: char): char {
    if e == 'b' then 8 as char else if e == 't' then 9 as char else if e == 'n' then 10 as char
    else if e == 'f' then 12 as char else if e == 'r' then 13 as char else e
  }

  function PieceText(p: Piece): string {
    match p
    case Plain(c) => [c]
    case Escaped(e) => "\\" + [e]
    case Unicode(_, four) => "\\u" + four
    case Pair(_, high, low) => "\\u" + high + "\\u" + low
    case Dropped(four) => "\\u" + four
    case Alone(_, four) => "\\u" + four
    case Mismatched(_, high, second) => "\\u" + high + "\\u" + second
  }

  /** The bytes a piece is decoded to; surrogates that do not pair, the zero character and what is no
      number are dropped. */
  function PieceBytes(p: Piece): string
    requires ValidPiece(p)
  {
    match p
    case Plain(c) => [c]
    case Escaped(e) => [Meant(e)]
    case Unicode(u, _) => Utf8(u)
    case Pair(u, _, _) => Utf8(u)
    case _ => ""
  }

  /** What the first pass counts for it. */
  function PieceCount(p: Piece): nat {
    match p
    case Plain(_) => 1
    case Escaped(_) => 1
    case Pair(_, _, _) => 10
    case Mismatched(_, _, _) => 10
    case _ => 5
  }

  predicate ValidPiece(p: Piece) {
    match p
    case Plain(c) => c != '\"' && c != '\\'
    case Escaped(e) => e != 'u'
    case Unicode(u, four) => Spelt(four, u) && 0 < u && !(0xD800 <= u <= 0xDFFF)
    case Pair(u, high, low) =>
      && 0x1_0000 <= u < 0x11_0000
      && Spelt(high, 0xD800 + (u - 0x1_0000) / 0x400) && Spelt(low, 0xDC00 + (u - 0x1_0000) % 0x400)
    case Dropped(four) => Harmless(four) && (NoNumber(four) || Spelt(four, 0) || exists u | 0xDC00 <= u <= 0xDFFF :: Spelt(four, u))
    case Alone(u, four) => Spelt(four, u) && 0xD800 <= u <= 0xDBFF
    case Mismatched(u, high, second) =>
      && Spelt(high, u) && 0xD800 <= u <= 0xDBFF && Harmless(second)
      && forall w | 0xDC00 <= w <= 0xDFFF :: !Spelt(second, w)
  }

  predicate NoNumber(four: string)
    requires |four| == 4
  {
    exists i | 0 <= i < 4 :: forall v | 0 <= v < 16 :: !Nibble(four[i], v)
  }

  // ---------------------------------------------------------------- literals

  function Body(ps: seq<Piece>): string {
    if ps == [] then "" else PieceText(ps[0]) + Body(ps[1..])
  }

  function Bytes(ps: seq<Piece>): string
    requires Valid(ps)
  {
    if ps == [] then "" else PieceBytes(ps[0]) + Bytes(ps[1..])
  }

  function Count(ps: seq<Piece>): nat {
    if ps == [] then 0 else PieceCount(ps[0]) + Count(ps[1..])
  }

  /** A high surrogate is alone only if no other `\u` comes next. */
  predicate Valid(ps: seq<Piece>) {
    ps == [] ||
    (ValidPiece(ps[0]) && Valid(ps[1..]) && (ps[0].Alone? && |ps| > 1 ==> ps[1].Plain? || ps[1].Escaped?))
  }

  /** Where a literal ends: at its closing quote, or at the end of the text. */
  predicate Ends(end: string) {
    end == "" || end[0] == '\"'
  }

  // ------------------------------------------------------------------ proofs

  lemma NibbleValue(c: char, v: nat)
    requires Nibble(c, v)
    ensures IsHexDigit(c) && HexValue(c) == v && c != '\"' && c != '\\'
  {
  }

  lemma NoNibble(c: char)
    requires forall v | 0 <= v < 16 :: !Nibble(c, v)
    ensures !IsHexDigit(c)
  {
    if IsHexDigit(c) { assert Nibble(c, HexValue(c)); }
  }

  lemma NibblesJoin(u: nat)
    ensures u / 0x1000 * 0x10 + u / 0x100 % 0x10 == u / 0x100
    ensures u / 0x100 * 0x10 + u / 0x10 % 0x10 == u / 0x10
    ensures u / 0x10 * 0x10 + u % 0x10 == u
  {
  }

  lemma SpeltHex(four: string, u: nat, rest: string)
    requires Spelt(four, u)
    ensures HexFour(four + rest) && Hex4(four + rest) == u && Harmless(four)
  {
    NibbleValue(four[0], u / 0x1000);
    NibbleValue(four[1], u / 0x100 % 0x10);
    NibbleValue(four[2], u / 0x10 % 0x10);
    NibbleValue(four[3], u % 0x10);
    NibblesJoin(u);
    hide Nibble, HexValue, IsHexDigit;
    var s := four + rest;
    assert s[0] == four[0] && s[1] == four[1] && s[2] == four[2] && s[3] == four[3];
    assert Harmless(four) by { hide *; FourHarmless(four); }
  }

  lemma FourHarmless(four: string)
    requires |four| == 4 && four[0] !in "\"\\" && four[1] !in "\"\\" && four[2] !in "\"\\" && four[3] !in "\"\\"
    ensures Harmless(four)
  {
  }

  /** What the transcoder makes of four characters, spelt or not. */
  lemma HexOf(four: string, rest: string)
    requires |four| == 4
    ensures Hex4(four + rest) == Hex4(four)
    ensures NoNumber(four) ==> Hex4(four) == 0
    ensures HexFour(four) ==> Spelt(four, Hex4(four))
  {
    hide HexValue, IsHexDigit, Nibble;
    var s := four + rest;
    assert s[0] == four[0] && s[1] == four[1] && s[2] == four[2] && s[3] == four[3];
    if NoNumber(four) {
      var i :| 0 <= i < 4 && forall v | 0 <= v < 16 :: !Nibble(four[i], v);
      NoNibble(four[i]);
    }
    if HexFour(four) { SpeltBack(four); }
  }

  lemma NibbleBack(c: char)
    requires IsHexDigit(c)
    ensures Nibble(c, HexValue(c))
  {
  }

  lemma SpeltBack(four: string)
    requires |four| == 4 && HexFour(four)
    ensures Spelt(four, Hex4(four))
  {
    hide Nibble, HexValue, IsHexDigit, Spelt;
    NibbleBack(four[0]);
    NibbleBack(four[1]);
    NibbleBack(four[2]);
    NibbleBack(four[3]);
    SpeltFrom(four, HexValue(four[0]), HexValue(four[1]), HexValue(four[2]), HexValue(four[3]));
  }

  lemma SpeltFrom(four: string, a: nat, b: nat, c: nat, d: nat)
    requires |four| == 4 && Nibble(four[0], a) && Nibble(four[1], b) && Nibble(four[2], c) && Nibble(four[3], d)
    ensures Spelt(four, ((a * 16 + b) * 16 + c) * 16 + d)
  {
    NibbleBounds(four[0], a);
    NibbleBounds(four[1], b);
    NibbleBounds(four[2], c);
    NibbleBounds(four[3], d);
    hide Nibble;
    NibblesApart(a, b, c, d);
  }

  lemma NibbleBounds(c: char, v: nat)
    requires Nibble(c, v)
    ensures v < 16
  {
  }

  lemma NibblesApart(a: nat, b: nat, c: nat, d: nat)
    requires a < 16 && b < 16 && c < 16 && d < 16
    ensures var u := ((a * 16 + b) * 16 + c) * 16 + d;
      u < 0x1_0000 && u / 0x1000 == a && u / 0x100 % 0x10 == b && u / 0x10 % 0x10 == c && u % 0x10 == d
  {
  }

  /** The first pass counts each of four harmless characters. */
  lemma FourCounted(four: string, rest: string)
    requires Harmless(four)
    ensures CountPass(four + rest) == Plus(CountPass(rest), 4)
  {
    hide CountPass, CompleteEscapes;
    var s := four + rest;
    assert s[1..][1..] == s[2..] && s[2..][1..] == s[3..] && s[3..][1..] == s[4..] == rest;
    OrdinaryByte(s);
    OrdinaryByte(s[1..]);
    OrdinaryByte(s[2..]);
    OrdinaryByte(s[3..]);
  }

  lemma EscapeCounted(e: char, rest: string)
    ensures CountPass("\\" + [e] + rest) == Plus(CountPass(rest), 1)
  {
    assert ("\\" + [e] + rest)[2..] == rest;
  }

  lemma UnicodeCount(four: string, rest: string)
    requires Harmless(four)
    ensures CountPass("\\u" + four + rest) == Plus(CountPass(rest), 5)
  {
    hide CountPass;
    FourCounted(four, rest);
    EscapeCounted('u', four + rest);
    assert "\\u" + four + rest == "\\" + ['u'] + (four + rest);
  }

  /** One turn of the decoding loop at a `\u` escape, by what its digits spell. */
  lemma UnicodeTurn(four: string, rest: string)
    requires |four| == 4
    ensures var s := "\\u" + four + rest; var u := Hex4(four);
      && |s| == |rest| + 6 && s[6..] == rest && Token(s) == UnicodeToken(s)
      && (LowSurrogate(u) || u == 0 ==> Token(s) == ("", 6))
      && (u > 0 && !LowSurrogate(u) && !HighSurrogate(u) ==> Token(s) == (Utf8(u), 6))
      && (HighSurrogate(u) && !(At(rest, 0) == '\\' && At(rest, 1) == 'u') ==> Token(s) == ("", 6))
  {
    hide Hex4, Utf8;
    var s := "\\u" + four + rest;
    assert s[2..] == four + rest && s[6..] == rest;
    assert Hex4(s[2..]) == Hex4(four) by { HexOf(four, rest); }
  }

  lemma PairTurn(high: string, second: string, rest: string)
    requires |high| == 4 && |second| == 4 && HighSurrogate(Hex4(high))
    ensures var s := "\\u" + high + "\\u" + second + rest; var low := Hex4(second);
      && |s| == |rest| + 12 && s[12..] == rest
      && Token(s) == if LowSurrogate(low) then (Utf8(JoinSurrogates(Hex4(high), low)), 12) else ("", 12)
  {
    hide Hex4, Utf8, JoinSurrogates;
    var s := "\\u" + high + "\\u" + second + rest;
    assert s[2..] == high + ("\\u" + second + rest) && s[8..] == second + rest && s[12..] == rest;
    assert s[6] == '\\' && s[7] == 'u' && s[0] == '\\' && s[1] == 'u';
    assert Hex4(s[2..]) == Hex4(high) by { HexOf(high, "\\u" + second + rest); }
    assert Hex4(s[8..]) == Hex4(second) by { HexOf(second, rest); }
  }

  lemma EscapedTurn(e: char, rest: string)
    requires e != 'u'
    ensures Token("\\" + [e] + rest) == ([Meant(e)], 2) && ("\\" + [e] + rest)[2..] == rest
  {
  }

  /** What follows does not let a high surrogate go on. */
  predicate NoUnicode(rest: string) {
    !(At(rest, 0) == '\\' && At(rest, 1) == 'u')
  }

  /** The decoding loop writes the piece's bytes and goes on after it. */
  lemma PieceDecoded(p: Piece, rest: string)
    requires ValidPiece(p) && (p.Alone? ==> NoUnicode(rest))
    ensures Decode(PieceText(p) + rest) == Prepend(PieceBytes(p), Decode(rest))
  {
    hide Decode, Token, UnicodeToken, Hex4, Utf8, Nibble, JoinSurrogates, Meant;
    var s := PieceText(p) + rest;
    match p
    case Plain(c) => PlainDecoded(c, rest);
    case Escaped(e) =>
      EscapedTurn(e, rest);
      DecodeStep(s, [Meant(e)], 2);
    case Unicode(u, four) =>
      SpeltIs(four, u);
      UnicodeTurn(four, rest);
      DecodeStep(s, Utf8(u), 6);
    case Pair(u, high, low) => PairDecoded(u, high, low, rest);
    case Dropped(four) =>
      DroppedIs(four);
      UnicodeTurn(four, rest);
      DecodeStep(s, "", 6);
    case Alone(u, four) =>
      SpeltIs(four, u);
      UnicodeTurn(four, rest);
      DecodeStep(s, "", 6);
    case Mismatched(u, high, second) => MismatchDecoded(u, high, second, rest);
  }

  lemma SpeltIs(four: string, u: nat)
    requires Spelt(four, u)
    ensures |four| == 4 && Hex4(four) == u && Harmless(four)
  {
    SpeltHex(four, u, "");
    assert four + "" == four;
  }

  lemma PlainDecoded(c: char, rest: string)
    requires c != '\"' && c != '\\'
    ensures Decode([c] + rest) == Prepend([c], Decode(rest))
  {
    hide Decode;
    assert ([c] + rest)[1..] == rest && Token([c] + rest) == ([c], 1);
    DecodeStep([c] + rest, [c], 1);
  }

  lemma PairDecoded(u: nat, high: string, low: string, rest: string)
    requires ValidPiece(Pair(u, high, low))
    ensures Decode("\\u" + high + "\\u" + low + rest) == Prepend(Utf8(u), Decode(rest))
  {
    hide Decode, Token, Hex4, Utf8, Nibble, JoinSurrogates, Spelt;
    SpeltIs(high, 0xD800 + (u - 0x1_0000) / 0x400);
    SpeltIs(low, 0xDC00 + (u - 0x1_0000) % 0x400);
    SurrogatesJoin(u);
    PairTurn(high, low, rest);
    DecodeStep("\\u" + high + "\\u" + low + rest, Utf8(u), 12);
  }

  lemma MismatchDecoded(u: nat, high: string, second: string, rest: string)
    requires ValidPiece(Mismatched(u, high, second))
    ensures Decode("\\u" + high + "\\u" + second + rest) == Prepend("", Decode(rest))
  {
    hide Decode, Token, Hex4, Utf8, Nibble, JoinSurrogates, Spelt, HexFour;
    SpeltIs(high, u);
    HexOf(second, "");
    assert second + "" == second;
    if HexFour(second) { assert !LowSurrogate(Hex4(second)); } else { assert Hex4(second) == 0 by { NoFour(second); } }
    PairTurn(high, second, rest);
    DecodeStep("\\u" + high + "\\u" + second + rest, "", 12);
  }

  lemma NoFour(four: string)
    requires !HexFour(four)
    ensures Hex4(four) == 0
  {
  }

  lemma DroppedIs(four: string)
    requires ValidPiece(Dropped(four))
    ensures |four| == 4 && (Hex4(four) == 0 || LowSurrogate(Hex4(four)))
  {
    hide Hex4, Spelt, NoNumber;
    HexOf(four, "");
    if Spelt(four, 0) { SpeltIs(four, 0); }
    if u :| 0xDC00 <= u <= 0xDFFF && Spelt(four, u) { SpeltIs(four, u); }
  }

  lemma PieceCounted(p: Piece, rest: string)
    requires ValidPiece(p)
    ensures CountPass(PieceText(p) + rest) == Plus(CountPass(rest), PieceCount(p))
  {
    hide CountPass, Harmless, Spelt;
    match p
    case Plain(c) =>
      assert ([c] + rest)[1..] == rest;
      OrdinaryByte([c] + rest);
    case Escaped(e) => EscapeCounted(e, rest);
    case Unicode(u, four) => SpeltIs(four, u); UnicodeCount(four, rest);
    case Alone(u, four) => SpeltIs(four, u); UnicodeCount(four, rest);
    case Dropped(four) => UnicodeCount(four, rest);
    case Pair(u, high, low) =>
      SpeltIs(high, 0xD800 + (u - 0x1_0000) / 0x400);
      SpeltIs(low, 0xDC00 + (u - 0x1_0000) % 0x400);
      TwoCounted(high, low, rest);
    case Mismatched(u, high, second) => SpeltIs(high, u); TwoCounted(high, second, rest);
  }

  lemma TwoCounted(high: string, low: string, rest: string)
    requires Harmless(high) && Harmless(low)
    ensures CountPass("\\u" + high + "\\u" + low + rest) == Plus(CountPass(rest), 10)
  {
    hide CountPass;
    UnicodeCount(low, rest);
    UnicodeCount(high, "\\u" + low + rest);
    assert "\\u" + high + "\\u" + low + rest == "\\u" + high + ("\\u" + low + rest);
  }

  /** Both passes over any literal: the bytes its pieces stand for, and the count of each. */
  lemma {:induction false} SpelledLiteral(ps: seq<Piece>, end: string)
    requires Valid(ps) && Ends(end)
    ensures Decode(Body(ps) + end) == Ok(Bytes(ps), AfterQuote(end))
    ensures CountPass(Body(ps) + end) == Ok(Count(ps), end)
  {
    hide Decode, CountPass, ValidPiece, PieceText, PieceBytes, PieceCount;
    if ps == [] {
      assert "" + end == end;
      EndTaken(end);
    } else {
      var rest := Body(ps[1..]) + end;
      SpelledLiteral(ps[1..], end);
      assert Body(ps) + end == PieceText(ps[0]) + rest;
      if ps[0].Alone? { AloneStays(ps[1..], end); }
      PieceDecoded(ps[0], rest);
      PieceCounted(ps[0], rest);
    }
  }

  lemma EndTaken(end: string)
    requires Ends(end)
    ensures Decode(end) == Ok("", AfterQuote(end)) && CountPass(end) == Ok(0, end)
  {
  }

  lemma AloneStays(ps: seq<Piece>, end: string)
    requires Ends(end) && Valid(ps) && (ps == [] || ps[0].Plain? || ps[0].Escaped?)
    ensures NoUnicode(Body(ps) + end)
  {
    if ps != [] {
      BodyFirst(ps, end);
      hide Body, PieceText;
      PlainStarts(ps[0], Body(ps[1..]) + end);
    }
  }

  lemma BodyFirst(ps: seq<Piece>, end: string)
    requires ps != []
    ensures Body(ps) + end == PieceText(ps[0]) + (Body(ps[1..]) + end)
  {
    hide PieceText;
  }

  lemma PlainStarts(p: Piece, rest: string)
    requires ValidPiece(p) && (p.Plain? || p.Escaped?)
    ensures NoUnicode(PieceText(p) + rest)
  {
  }

  /** `parse_string` of any spelling of a literal, closed or at the end of the text. */
  lemma SpelledString(ps: seq<Piece>, end: string)
    requires Valid(ps) && Ends(end)
    ensures ParseString("\"" + Body(ps) + end) == Ok(Bytes(ps), AfterQuote(end))
  {
    hide Decode, CountPass, Valid, Body;
    SpelledLiteral(ps, end);
    FewerBytes(ps);
    assert ("\"" + Body(ps) + end)[1..] == Body(ps) + end;
  }

  lemma {:induction false} FewerBytes(ps: seq<Piece>)
    requires Valid(ps)
    ensures |Bytes(ps)| <= Count(ps)
  {
    hide ValidPiece;
    if ps != [] {
      FewerBytes(ps[1..]);
      assert |PieceBytes(ps[0])| <= PieceCount(ps[0]) by { hide *; PieceFits(ps[0]); }
    }
  }

  lemma PieceFits(p: Piece)
    requires ValidPiece(p)
    ensures |PieceBytes(p)| <= PieceCount(p)
  {
  }

  // ------------------------------------------------ every literal is spelled

  /** Conversely, every text with complete escapes is a literal of such pieces, up to where it ends. */
  lemma {:induction false} PiecesOf(s: string) returns (ps: seq<Piece>, end: string)
    requires CompleteEscapes(s)
    ensures Valid(ps) && Ends(end) && s == Body(ps) + end
    decreases |s|
  {
    hide CompleteEscapes, ValidPiece, PieceText;
    if s == "" || s[0] == '\"' {
      ps, end := [], s;
      assert "" + end == s;
    } else {
      var p, n := FirstPiece(s);
      ps, end := PiecesOf(s[n..]);
      if p.Alone? { NotUnicode(ps, end); }
      assert s == PieceText(p) + s[n..] && ([p] + ps)[1..] == ps;
      ps := [p] + ps;
    }
  }

  lemma NotUnicode(ps: seq<Piece>, end: string)
    ensures ps == [] || ps[0].Plain? || ps[0].Escaped? || !NoUnicode(Body(ps) + end)
  {
    if ps != [] {
      hide PieceText;
      StartsUnicode(ps[0]);
      BodyFirst(ps, end);
      hide Body;
    }
  }

  lemma StartsUnicode(p: Piece)
    ensures p.Plain? || p.Escaped? || (|PieceText(p)| >= 2 && PieceText(p)[0] == '\\' && PieceText(p)[1] == 'u')
  {
  }

  lemma FirstPiece(s: string) returns (p: Piece, n: nat)
    requires CompleteEscapes(s) && s != "" && s[0] != '\"'
    ensures ValidPiece(p) && 0 < n <= |s| && CompleteEscapes(s[n..]) && PieceText(p) == s[..n]
    ensures p.Alone? ==> NoUnicode(s[n..])
  {
    if s[0] != '\\' {
      p, n := Plain(s[0]), 1;
    } else if s[1] != 'u' {
      p, n := Escaped(s[1]), 2;
      assert s[..2] == "\\" + [s[1]];
    } else {
      p, n := UnicodePiece(s);
    }
  }

  lemma UnicodePiece(s: string) returns (p: Piece, n: nat)
    requires CompleteEscapes(s) && |s| >= 2 && s[0] == '\\' && s[1] == 'u'
    ensures ValidPiece(p) && 0 < n <= |s| && CompleteEscapes(s[n..]) && PieceText(p) == s[..n]
    ensures p.Alone? ==> NoUnicode(s[n..])
  {
    hide CompleteEscapes, CountPass, Hex4, Spelt, ValidPiece, PieceText, Harmless, HexFour;
    UnicodeCounted(s);
    FourSliced(s);
    FourOf(s[2..]);
    var four := s[2..6];
    var u := Hex4(four);
    SpeltIs(four, u);
    if HighSurrogate(u) && !NoUnicode(s[6..]) {
      UnicodeCounted(s[6..]);
      FourSliced(s[6..]);
      TwoSliced(s);
      FourOf(s[8..]);
      n := 12;
      p := SecondPiece(u, four, s[8..12]);
    } else {
      n := 6;
      p := OnePiece(u, four);
    }
  }

  lemma FourSliced(s: string)
    requires |s| >= 6 && s[0] == '\\' && s[1] == 'u'
    ensures s[2..][..4] == s[2..6] && s[..6] == "\\u" + s[2..6]
  {
  }

  lemma TwoSliced(s: string)
    requires |s| >= 12 && s[0] == '\\' && s[1] == 'u' && s[6] == '\\' && s[7] == 'u'
    ensures s[6..][2..] == s[8..] && s[6..][6..] == s[12..] && s[8..][..4] == s[8..12] == s[6..][2..6]
    ensures s[..12] == "\\u" + s[2..6] + "\\u" + s[8..12]
  {
  }

  lemma OnePiece(u: nat, four: string) returns (p: Piece)
    requires |four| == 4 && Spelt(four, u) && Harmless(four)
    ensures ValidPiece(p) && PieceText(p) == "\\u" + four && (p.Alone? ==> HighSurrogate(u))
  {
    hide Nibble;
    assert u < 0x1_0000;
    hide Spelt, Harmless, NoNumber;
    p := if u == 0 || LowSurrogate(u) then Dropped(four) else if !HighSurrogate(u) then Unicode(u, four) else Alone(u, four);
  }

  lemma FourOf(s: string)
    requires HexFour(s)
    ensures Spelt(s[..4], Hex4(s[..4])) && Harmless(s[..4])
  {
    hide Hex4, IsHexDigit;
    HexOf(s[..4], "");
    SpeltIs(s[..4], Hex4(s[..4]));
  }

  lemma SecondPiece(u: nat, high: string, second: string) returns (p: Piece)
    requires Spelt(high, u) && HighSurrogate(u) && Spelt(second, Hex4(second)) && Harmless(second)
    ensures ValidPiece(p) && PieceText(p) == "\\u" + high + "\\u" + second && !p.Alone?
  {
    var low := Hex4(second);
    hide Spelt, Hex4;
    if LowSurrogate(low) {
      p := Pair(0x1_0000 + (u - 0xD800) * 0x400 + (low - 0xDC00), high, second);
    } else {
      p := Mismatched(u, high, second);
      forall w | 0xDC00 <= w <= 0xDFFF
        ensures !Spelt(second, w)
      {
        if Spelt(second, w) { SpeltIs(second, w); }
      }
    }
  }

  // -------------------------------------------------- how the printer spells

  /** The spelling the printer chooses for a byte: a letter for the five control characters that have one,
      four small digits for the others, a backslash before quote and backslash, and else the byte. */
  function Chosen(c: char): Piece {
    if c as int == 8 then Escaped('b') else if c as int == 9 then Escaped('t') else if c as int == 10 then Escaped('n')
    else if c as int == 12 then Escaped('f') else if c as int == 13 then Escaped('r')
    else if c as int < 16 then Unicode(c as int, "000" + ["0123456789abcdef"[c as int]])
    else if c as int < 32 then Unicode(c as int, "001" + ["0123456789abcdef"[c as int - 16]])
    else if c == '\"' || c == '\\' then Escaped(c)
    else Plain(c)
  }

  function ChosenAll(s: string): (ps: seq<Piece>)
    ensures |ps| == |s|
  {
    seq(|s|, i requires 0 <= i < |s| => Chosen(s[i]))
  }

  /** The printed literal is exactly that spelling, byte by byte. */
  lemma {:induction false} EscapeChosen(s: string)
    requires CString(s)
    ensures Escape(s) == Body(ChosenAll(s)) && Valid(ChosenAll(s))
  {
    hide Chosen, EscapeChar, ValidPiece, PieceText;
    if s != "" {
      EscapeChosen(s[1..]);
      assert ChosenAll(s)[1..] == ChosenAll(s[1..]);
      CharChosen(s[0]);
    }
  }

  lemma CharChosen(c: char)
    requires 0 < c as int < 256
    ensures EscapeChar(c) == PieceText(Chosen(c)) && ValidPiece(Chosen(c)) && !Chosen(c).Alone?
  {
    if c as int < 32 { ControlChosen(c); }
  }

  lemma ControlChosen(c: char)
    requires 0 < c as int < 32
    ensures EscapeChar(c) == PieceText(Chosen(c)) && ValidPiece(Chosen(c))
  {
    var n := c as int;
    hide Spelt, Nibble, HexDigit, ShortEscape;
    if c in "\U{0008}\t\n\U{000C}\r" {
      LetterChosen(c);
    } else {
      assert ShortEscape(c) == None by { NoLetter(c); }
      SmallDigit(n / 16);
      SmallDigit(n % 16);
      ControlSpelt(n, "00" + [HexDigit(n / 16), HexDigit(n % 16)]);
      DigitsChosen(c);
      hide Chosen;
      assert "\\u" + ("00" + [HexDigit(n / 16), HexDigit(n % 16)]) == ['\\', 'u', '0', '0', HexDigit(n / 16), HexDigit(n % 16)];
    }
  }

  lemma DigitsChosen(c: char)
    requires 0 < c as int < 32 && c !in "\U{0008}\t\n\U{000C}\r"
    ensures Chosen(c) == Unicode(c as int, "00" + [HexDigit(c as int / 16), HexDigit(c as int % 16)])
  {
    var n := c as int;
    SmallDigit(n / 16);
    SmallDigit(n % 16);
    var d := "0123456789abcdef"[n % 16];
    assert if n < 16 then "000" + [d] == "00" + ['0', d] else "001" + [d] == "00" + ['1', d];
    hide HexDigit, Nibble;
  }

  lemma LetterChosen(c: char)
    requires c in "\U{0008}\t\n\U{000C}\r"
    ensures EscapeChar(c) == PieceText(Chosen(c)) && ValidPiece(Chosen(c))
  {
  }

  lemma NoLetter(c: char)
    requires 0 < c as int < 32 && c !in "\U{0008}\t\n\U{000C}\r"
    ensures ShortEscape(c) == None
  {
  }

  lemma SmallDigit(v: nat)
    requires v < 16
    ensures HexDigit(v) == "0123456789abcdef"[v] && Nibble(HexDigit(v), v)
  {
  }

  lemma ControlSpelt(n: nat, four: string)
    requires 0 < n < 32 && |four| == 4 && four[..2] == "00" && Nibble(four[2], n / 16) && Nibble(four[3], n % 16)
    ensures Spelt(four, n)
  {
    SmallNibbles(n);
    assert four[0] == four[..2][0] == '0' && four[1] == four[..2][1] == '0';
    SmallDigit(0);
    hide Nibble;
  }

  lemma SmallNibbles(n: nat)
    requires n < 0x100
    ensures n / 0x1000 == 0 && n / 0x100 % 0x10 == 0 && n / 0x10 % 0x10 == n / 16
  {
  }
}
