/**
 Every spelling of a value whose escapes have their digits is in the parser's domain: what is
 proved of its cursors and buffers holds of all such texts.
 */
module Domain {
  import opened CText
  import opened Literal
  import opened LiteralProofs
  import opened Safety
  import opened Spelling
  import opened Squeezing
  import opened Syntax
  import RoundTrip

  predicate Hexed(four: string) {
    |four| == 4 && forall i | 0 <= i < 4 :: exists v | 0 <= v < 16 :: Nibble(four[i], v)
  }

  /** A dropped escape too has four digits. */
  predicate Digital(p: Piece) {
    (p.Dropped? ==> Hexed(p.four)) && (p.Mismatched? ==> Hexed(p.second))
  }

  predicate AllDigital(ps: seq<Piece>) {
    forall i | 0 <= i < |ps| :: Digital(ps[i])
  }

  /** So it is in every literal of the text. */
  predicate FourDigits(x: Syntax)
    decreases x
  {
    match x
    case Quoted(ps) => AllDigital(ps)
    case List(_, es) => forall i | 0 <= i < |es| :: FourDigits(es[i].value)
    case Record(_, fs) => forall i | 0 <= i < |fs| :: AllDigital(fs[i].key) && FourDigits(fs[i].value)
    case _ => true
  }

  // ---------------------------------------------------------------- literals

  lemma HexedFour(four: string, rest: string)
    requires Hexed(four)
    ensures HexFour(four + rest) && Harmless(four)
  {
    forall i | 0 <= i < 4
      ensures IsHexDigit(four[i]) && four[i] != '\"' && four[i] != '\\'
    {
      var v :| 0 <= v < 16 && Nibble(four[i], v);
      NibbleValue(four[i], v);
    }
    hide Nibble, IsHexDigit;
    var s := four + rest;
    assert s[0] == four[0] && s[1] == four[1] && s[2] == four[2] && s[3] == four[3];
  }

  lemma FourComplete(four: string, rest: string)
    requires HexFour(four + rest) && Harmless(four) && CompleteEscapes(rest)
    ensures CompleteEscapes("\\u" + four + rest)
  {
    hide HexFour;
    var s := four + rest;
    assert s[1..][1..] == s[2..] && s[2..][1..] == s[3..] && s[3..][1..] == s[4..] == rest;
    assert s[0] == four[0] && s[1] == four[1] && s[2] == four[2] && s[3] == four[3];
    CompleteOne(s[3..]);
    CompleteOne(s[2..]);
    CompleteOne(s[1..]);
    CompleteOne(s);
    assert ("\\u" + four + rest)[2..] == s;
  }

  lemma CompleteOne(s: string)
    requires s != "" && s[0] != '\"' && s[0] != '\\' && CompleteEscapes(s[1..])
    ensures CompleteEscapes(s)
  {
  }

  lemma TwoComplete(four: string, second: string, rest: string)
    requires HexFour(four + ("\\u" + second + rest)) && Harmless(four)
    requires HexFour(second + rest) && Harmless(second) && CompleteEscapes(rest)
    ensures CompleteEscapes("\\u" + four + "\\u" + second + rest)
  {
    hide HexFour, Harmless, CompleteEscapes;
    FourComplete(second, rest);
    FourComplete(four, "\\u" + second + rest);
    assert "\\u" + four + "\\u" + second + rest == "\\u" + four + ("\\u" + second + rest);
  }

  lemma PieceComplete(p: Piece, rest: string)
    requires ValidPiece(p) && Digital(p) && CompleteEscapes(rest)
    ensures CompleteEscapes(PieceText(p) + rest)
  {
    hide Hexed, Spelt, HexFour, Harmless, CompleteEscapes;
    match p
    case Plain(c) => OneComplete(c, rest);
    case Escaped(e) => EscapeComplete(e, rest);
    case Unicode(u, four) =>
      SpeltHex(four, u, rest);
      FourComplete(four, rest);
    case Alone(u, four) =>
      SpeltHex(four, u, rest);
      FourComplete(four, rest);
    case Dropped(four) =>
      HexedFour(four, rest);
      FourComplete(four, rest);
    case Pair(u, high, low) =>
      SpeltHex(high, 0xD800 + (u - 0x1_0000) / 0x400, "\\u" + low + rest);
      SpeltHex(low, 0xDC00 + (u - 0x1_0000) % 0x400, rest);
      TwoComplete(high, low, rest);
    case Mismatched(u, high, second) =>
      SpeltHex(high, u, "\\u" + second + rest);
      HexedFour(second, rest);
      TwoComplete(high, second, rest);
  }

  lemma OneComplete(c: char, rest: string)
    requires c != '\"' && c != '\\' && CompleteEscapes(rest)
    ensures CompleteEscapes([c] + rest)
  {
    assert ([c] + rest)[1..] == rest;
  }

  lemma EscapeComplete(e: char, rest: string)
    requires e != 'u' && CompleteEscapes(rest)
    ensures CompleteEscapes("\\" + [e] + rest)
  {
    assert ("\\" + [e] + rest)[2..] == rest;
  }

  lemma {:induction false} BodyComplete(ps: seq<Piece>, end: string)
    requires Spelling.Valid(ps) && AllDigital(ps) && Ends(end)
    ensures CompleteEscapes(Body(ps) + end)
  {
    hide ValidPiece, Digital, PieceText;
    if ps == [] {
      assert Body(ps) + end == end;
    } else {
      BodyComplete(ps[1..], end);
      hide CompleteEscapes;
      PieceComplete(ps[0], Body(ps[1..]) + end);
      RoundTrip.Assoc(PieceText(ps[0]), Body(ps[1..]), end);
    }
  }

  lemma LiteralSafe(ps: seq<Piece>, rest: string, depth: nat)
    requires Spelling.Valid(ps) && AllDigital(ps) && (depth > 0 ==> SafeIn(rest, depth))
    ensures SafeIn(LiteralThen(ps, rest), depth)
  {
    hide Spelling.Valid, AllDigital, Body, CompleteEscapes, CountPass, Decode;
    var end := "\"" + rest;
    FirstOf("\"", rest);
    SpelledLiteral(ps, end);
    BodyComplete(ps, end);
    FirstOf("\"", Body(ps) + end);
  }

  // ------------------------------------------------------------------ values

  lemma {:induction false} GapSafe(g: Gap, rest: string, depth: nat)
    requires ValidGap(g) && BlankGap(g) && SafeIn(rest, depth)
    ensures SafeIn(GapThen(g, rest), depth)
  {
    if g != [] {
      GapSafe(g[1..], rest, depth);
      var c := g[0].c;
      BlankSafe(c, GapThen(g[1..], rest), depth);
      hide SafeIn;
    }
  }

  lemma BlankSafe(c: char, rest: string, depth: nat)
    requires 1 <= c as int <= 32 && SafeIn(rest, depth)
    ensures SafeIn([c] + rest, depth)
  {
    assert ([c] + rest)[1..] == rest;
  }

  lemma NumeralSafe(x: Syntax, rest: string, depth: nat)
    requires x.Numeral? && WellFormed(x) && (depth > 0 ==> SafeIn(rest, depth))
    ensures SafeIn(Then(x, rest), depth)
  {
    hide SafeIn, Then, NumeralText;
    NumeralIs(x, rest);
    NumeralMarks(x);
    PlainSafe(NumeralText(x), rest, depth);
  }

  /** Neither blanks nor anything that opens, closes or starts a literal. */
  predicate Marks(t: string) {
    forall i | 0 <= i < |t| :: Safety.Plain(t[i]) && !IsBlank(t[i])
  }

  lemma NumeralMarks(x: Syntax)
    requires x.Numeral? && WellFormed(x)
    ensures NumeralText(x) != "" && Marks(NumeralText(x))
  {
    DigitMarks(x.whole);
    DigitMarks(x.fraction);
    if x.power.Some? { DigitMarks(x.power.value.digits); }
    assert Marks(FractionText(x.fraction));
    assert Marks(PowerText(x.power));
    hide RoundTrip.AllDigits, FractionText, PowerText;
  }

  lemma DigitMarks(t: string)
    requires RoundTrip.AllDigits(t)
    ensures Marks(t)
  {
  }

  /** Any spelling of any value, before any text that is safe, and at the top level before any text at all. */
  lemma {:induction false} SpelledSafe(x: Syntax, rest: string, depth: nat)
    requires WellFormed(x) && Uncommented(x) && FourDigits(x) && (depth > 0 ==> SafeIn(rest, depth))
    ensures SafeIn(Then(x, rest), depth)
    decreases x, 1
  {
    hide SafeIn, AllDigital, Spelling.Valid, LiteralThen;
    match x
    case NullWord => PlainSafe("null", rest, depth);
    case FalseWord => PlainSafe("false", rest, depth);
    case TrueWord => PlainSafe("true", rest, depth);
    case Numeral(_, _, _, _) => NumeralSafe(x, rest, depth);
    case Quoted(ps) => LiteralSafe(ps, rest, depth);
    case List(gap, es) =>
      CloseSafe("]", rest, depth);
      if es == [] { GapSafe(gap, "]" + rest, depth + 1); } else { ElementsSafe(es, "]" + rest, depth + 1); }
      hide ElementsThen, GapThen;
      OpenSafe("[", if es == [] then GapThen(gap, "]" + rest) else ElementsThen(es, "]" + rest), depth);
    case Record(gap, fs) =>
      CloseSafe("}", rest, depth);
      if fs == [] { GapSafe(gap, "}" + rest, depth + 1); } else { FieldsSafe(fs, "}" + rest, depth + 1); }
      hide FieldsThen, GapThen;
      OpenSafe("{", if fs == [] then GapThen(gap, "}" + rest) else FieldsThen(fs, "}" + rest), depth);
  }

  lemma {:induction false} ElementsSafe(es: seq<Element>, end: string, depth: nat)
    requires es != [] && ValidElements(es) && (forall i | 0 <= i < |es| :: FourDigits(es[i].value))
    requires depth > 0 && SafeIn(end, depth)
    ensures SafeIn(ElementsThen(es, end), depth)
    decreases es, 0
  {
    hide SafeIn, Then, GapThen, WellFormed, Uncommented, FourDigits;
    var e := es[0];
    var more := if |es| == 1 then end else "," + ElementsThen(es[1..], end);
    if |es| > 1 {
      ElementsSafe(es[1..], end, depth);
      PlainSafe(",", ElementsThen(es[1..], end), depth);
    }
    GapSafe(e.after, more, depth);
    SpelledSafe(e.value, GapThen(e.after, more), depth);
    GapSafe(e.before, Then(e.value, GapThen(e.after, more)), depth);
  }

  lemma {:induction false} FieldsSafe(fs: seq<Field>, end: string, depth: nat)
    requires fs != [] && ValidFields(fs) && (forall i | 0 <= i < |fs| :: AllDigital(fs[i].key) && FourDigits(fs[i].value))
    requires depth > 0 && SafeIn(end, depth)
    ensures SafeIn(FieldsThen(fs, end), depth)
    decreases fs, 0
  {
    hide SafeIn, Then, GapThen, WellFormed, Uncommented, FourDigits, AllDigital, LiteralThen, Spelling.Valid;
    var f := fs[0];
    var tail := FieldTail(fs, end);
    assert ValidField(f);
    if |fs| > 1 {
      FieldsSafe(fs[1..], end, depth);
      PlainSafe(",", FieldsThen(fs[1..], end), depth);
    }
    GapSafe(f.after, tail, depth);
    var value := Then(f.value, GapThen(f.after, tail));
    SpelledSafe(f.value, GapThen(f.after, tail), depth);
    GapSafe(f.start, value, depth);
    PlainSafe(":", GapThen(f.start, value), depth);
    var colon := GapThen(f.colon, ":" + GapThen(f.start, value));
    GapSafe(f.colon, ":" + GapThen(f.start, value), depth);
    LiteralSafe(f.key, colon, depth);
    GapSafe(f.before, LiteralThen(f.key, colon), depth);
  }

  /** The text of any value, with blanks around it and anything after it. */
  lemma SpelledText(x: Syntax, before: Gap, rest: string)
    requires WellFormed(x) && Uncommented(x) && FourDigits(x) && ValidGap(before) && BlankGap(before)
    ensures Safe(GapThen(before, Then(x, rest)))
  {
    hide SafeIn, Then, GapThen, WellFormed, Uncommented, FourDigits;
    SpelledSafe(x, rest, 0);
    GapSafe(before, Then(x, rest), 0);
  }
}
