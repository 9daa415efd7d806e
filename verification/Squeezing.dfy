/**
 What minifying does to any spelling of a JSON value: the gaps between its tokens lose their
 comments and blanks, and nothing else changes.
 */
module Squeezing {
  import opened CText
  import opened Json
  import opened Literal
  import opened Minifier
  import opened Syntax
  import LiteralProofs
  import MinifyProofs
  import RoundTrip
  import Spelling

  /** The blanks that the minifier does not know stay: it drops space, tab and the line ends. */
  function SqueezedGap(g: Gap): (r: Gap)
    ensures BlankGap(r) && (ValidGap(g) ==> ValidGap(r))
  {
    if g == [] then []
    else (if g[0].Blank? && g[0].c as int !in {9, 10, 13, 32} then [g[0]] else []) + SqueezedGap(g[1..])
  }

  function Squeezed(x: Syntax): Syntax
    decreases x
  {
    match x
    case List(gap, es) =>
      List(SqueezedGap(gap), seq(|es|, i requires 0 <= i < |es| => SqueezedElement(es[i])))
    case Record(gap, fs) =>
      Record(SqueezedGap(gap), seq(|fs|, i requires 0 <= i < |fs| => SqueezedField(fs[i])))
    case _ => x
  }

  function SqueezedElement(e: Element): Element {
    Element(SqueezedGap(e.before), Squeezed(e.value), SqueezedGap(e.after))
  }

  function SqueezedField(f: Field): Field {
    Field(SqueezedGap(f.before), f.key, SqueezedGap(f.colon), SqueezedGap(f.start), Squeezed(f.value), SqueezedGap(f.after))
  }

  function SqueezedElements(es: seq<Element>): (r: seq<Element>)
    ensures |r| == |es|
  {
    seq(|es|, i requires 0 <= i < |es| => SqueezedElement(es[i]))
  }

  function SqueezedFields(fs: seq<Field>): (r: seq<Field>)
    ensures |r| == |fs|
  {
    seq(|fs|, i requires 0 <= i < |fs| => SqueezedField(fs[i]))
  }

  /** Squeezing changes no value. */
  lemma {:induction false} SqueezedMeaning(x: Syntax)
    requires WellFormed(x)
    ensures WellFormed(Squeezed(x)) && Uncommented(Squeezed(x)) && Meaning(Squeezed(x)) == Meaning(x)
    decreases x
  {
    match x
    case List(gap, es) =>
      forall i | 0 <= i < |es|
        ensures WellFormed(Squeezed(es[i].value)) && Uncommented(Squeezed(es[i].value))
        ensures Meaning(Squeezed(es[i].value)) == Meaning(es[i].value)
      {
        SqueezedMeaning(es[i].value);
      }
    case Record(gap, fs) =>
      forall i | 0 <= i < |fs|
        ensures WellFormed(Squeezed(fs[i].value)) && Uncommented(Squeezed(fs[i].value))
        ensures Meaning(Squeezed(fs[i].value)) == Meaning(fs[i].value)
      {
        SqueezedMeaning(fs[i].value);
      }
    case _ =>
  }

  // -------------------------------------------------------------------- gaps

  lemma {:induction false} LineEnds(body: string, rest: string)
    requires forall i | 0 <= i < |body| :: body[i] != '\n'
    ensures LineEnd(body + ("\n" + rest)) == "\n" + rest
  {
    var s := body + ("\n" + rest);
    if body == "" {
      assert s == "\n" + rest;
    } else {
      assert s[1..] == body[1..] + ("\n" + rest);
      LineEnds(body[1..], rest);
    }
  }

  lemma {:induction false} BlockEnds(body: string, rest: string)
    requires forall i | 0 <= i < |body| - 1 :: !(body[i] == '*' && body[i + 1] == '/')
    ensures BlockEnd(body + ("*/" + rest)) == Some(rest)
  {
    var s := body + ("*/" + rest);
    if body == "" {
      assert s == "*/" + rest && ("*/" + rest)[2..] == rest;
    } else {
      assert s[1..] == body[1..] + ("*/" + rest);
      BlockEnds(body[1..], rest);
      if |body| == 1 { assert s[1] == '*'; } else { assert s[1] == body[1]; }
    }
  }

  lemma LineMinified(body: string, rest: string)
    requires ValidTrivia(Line(body))
    ensures var s := "//" + body + "\n" + rest; Minify(s) == Minify(rest) && (Minifiable(rest) ==> Minifiable(s))
  {
    var s := "//" + body + "\n" + rest;
    var end := "\n" + rest;
    assert s[2..] == body + end;
    LineEnds(body, rest);
    assert LineEnd(s) == LineEnd(s[1..]) == LineEnd(s[2..]) == end;
    assert Turn(s) == Some(("", end));
    hide LineEnd, Turn;
    assert end[1..] == rest;
    MinifyProofs.StripByte(end);
    assert Minify(s) == "" + Minify(end);
  }

  lemma BlockMinified(body: string, rest: string)
    requires ValidTrivia(Block(body))
    ensures var s := "/*" + body + "*/" + rest; Minify(s) == Minify(rest) && (Minifiable(rest) ==> Minifiable(s))
  {
    var s := "/*" + body + "*/" + rest;
    assert s[2..] == body + ("*/" + rest);
    BlockEnds(body, rest);
    assert s[1] == '*' && s[2] == if body == "" then '*' else body[0];
    assert BlockEnd(s) == BlockEnd(s[1..]) == BlockEnd(s[2..]) == Some(rest) by { assert s[1..][1..] == s[2..]; }
    assert Turn(s) == Some(("", rest));
    hide BlockEnd, Turn;
    assert Minify(s) == "" + Minify(rest);
  }

  lemma BlankMinified(c: char, rest: string)
    requires ValidTrivia(Blank(c))
    ensures Minify([c] + rest) == (if c as int in {9, 10, 13, 32} then "" else [c]) + Minify(rest)
    ensures Minifiable(rest) ==> Minifiable([c] + rest)
  {
    assert ([c] + rest)[1..] == rest;
    if c as int in {9, 10, 13, 32} {
      MinifyProofs.StripByte([c] + rest);
      assert "" + Minify(rest) == Minify(rest);
    } else {
      MinifyProofs.KeepByte([c] + rest);
    }
  }

  lemma {:induction false} GapMinified(g: Gap, rest: string)
    requires ValidGap(g)
    ensures Minify(GapThen(g, rest)) == GapThen(SqueezedGap(g), Minify(rest))
    ensures Minifiable(rest) ==> Minifiable(GapThen(g, rest))
  {
    hide Minify, Minifiable, ValidTrivia;
    if g != [] {
      var more := GapThen(g[1..], rest);
      GapMinified(g[1..], rest);
      match g[0]
      case Blank(c) => BlankMinified(c, more); BlankKept(g, Minify(rest));
      case Line(body) => LineMinified(body, more); BlankKept(g, Minify(rest));
      case Block(body) => BlockMinified(body, more); BlankKept(g, Minify(rest));
    }
  }

  lemma BlankKept(g: Gap, rest: string)
    requires g != []
    ensures GapThen(SqueezedGap(g), rest) ==
      (if g[0].Blank? && g[0].c as int !in {9, 10, 13, 32} then [g[0].c] else "") + GapThen(SqueezedGap(g[1..]), rest)
  {
    var more := SqueezedGap(g[1..]);
    if g[0].Blank? && g[0].c as int !in {9, 10, 13, 32} {
      assert ([g[0]] + more)[1..] == more;
    } else {
      assert [] + more == more && "" + GapThen(more, rest) == GapThen(more, rest);
    }
  }

  // ------------------------------------------------------------------ tokens

  lemma {:induction false} WordKept(word: string, rest: string)
    requires forall i | 0 <= i < |word| :: MinifyProofs.Kept(word[i])
    ensures Minify(word + rest) == word + Minify(rest) && (Minifiable(rest) ==> Minifiable(word + rest))
  {
    hide Minify, Minifiable;
    if word == "" {
      assert word + rest == rest && word + Minify(rest) == Minify(rest);
    } else {
      assert (word + rest)[1..] == word[1..] + rest;
      WordKept(word[1..], rest);
      MinifyProofs.KeepByte(word + rest);
      assert [word[0]] + (word[1..] + Minify(rest)) == word + Minify(rest);
    }
  }

  /** Literals are kept byte for byte, whatever they hold. */
  lemma LiteralKept(ps: seq<Spelling.Piece>, rest: string)
    requires Spelling.Valid(ps)
    ensures Minify(LiteralThen(ps, rest)) == LiteralThen(ps, Minify(rest))
    ensures Minifiable(rest) ==> Minifiable(LiteralThen(ps, rest))
  {
    hide Minify, Minifiable, CountPass, Turn, Spelling.Valid, Spelling.Body, Decode;
    var body := Spelling.Body(ps);
    var s := LiteralThen(ps, rest);
    Spelling.SpelledLiteral(ps, "\"" + rest);
    LiteralParts(body, rest);
    MinifyProofs.QuoteTurn(s);
    TurnKept(s, "\"" + (body + "\""), rest);
    LiteralParts(body, Minify(rest));
  }

  lemma LiteralParts(body: string, rest: string)
    ensures var s := "\"" + (body + ("\"" + rest));
      && s[0] == '\"' && s[1..] == body + ("\"" + rest) && ("\"" + rest)[1..] == rest
      && s[..|s| - |"\"" + rest| + 1] == "\"" + (body + "\"") && "\"" + (body + "\"") + rest == s
  {
  }

  lemma TurnKept(s: string, kept: string, rest: string)
    requires s != "" && Turn(s) == Some((kept, rest))
    ensures Minify(s) == kept + Minify(rest) && (Minifiable(rest) ==> Minifiable(s))
  {
    hide Turn;
  }

  lemma NumeralKept(x: Syntax, rest: string)
    requires x.Numeral? && WellFormed(x)
    ensures Minify(Then(x, rest)) == Then(x, Minify(rest)) && (Minifiable(rest) ==> Minifiable(Then(x, rest)))
  {
    var word := NumeralText(x);
    NumeralIs(x, rest);
    NumeralIs(x, Minify(rest));
    NumeralPlain(x);
    hide Minify, Minifiable, Then, NumeralText;
    WordKept(word, rest);
  }

  function FractionText(fraction: string): string {
    if fraction == "" then "" else "." + fraction
  }

  function PowerText(power: Option<Power>): string {
    if power.None? then "" else [power.value.letter] + (power.value.sign + power.value.digits)
  }

  function NumeralText(x: Syntax): string
    requires x.Numeral?
  {
    (if x.minus then "-" else "") + (x.whole + (FractionText(x.fraction) + PowerText(x.power)))
  }

  lemma PowerIs(power: Option<Power>, rest: string)
    ensures PowerThen(power, rest) == PowerText(power) + rest
  {
    if power.Some? {
      var p := power.value;
      RoundTrip.Assoc([p.letter], p.sign + p.digits, rest);
      RoundTrip.Assoc(p.sign, p.digits, rest);
    } else {
      assert "" + rest == rest;
    }
  }

  lemma FractionIs(fraction: string, rest: string)
    ensures FractionThen(fraction, rest) == FractionText(fraction) + rest
  {
    if fraction == "" { assert "" + rest == rest; } else { RoundTrip.Assoc(".", fraction, rest); }
  }

  lemma NumeralIs(x: Syntax, rest: string)
    requires x.Numeral?
    ensures Then(x, rest) == NumeralText(x) + rest
  {
    hide PowerThen, FractionThen, PowerText, FractionText;
    PowerIs(x.power, rest);
    FractionIs(x.fraction, PowerThen(x.power, rest));
    var (sign, point, power) := (if x.minus then "-" else "", FractionText(x.fraction), PowerText(x.power));
    RoundTrip.Assoc(point, power, rest);
    RoundTrip.Assoc(x.whole, point + power, rest);
    RoundTrip.Assoc(sign, x.whole + (point + power), rest);
  }

  lemma NumeralPlain(x: Syntax)
    requires x.Numeral? && WellFormed(x)
    ensures forall i | 0 <= i < |NumeralText(x)| :: MinifyProofs.Kept(NumeralText(x)[i])
  {
    forall c | c in NumeralText(x)
      ensures MinifyProofs.Kept(c)
    {
      if c in x.whole { var i :| 0 <= i < |x.whole| && x.whole[i] == c; }
      else if c in x.fraction { var i :| 0 <= i < |x.fraction| && x.fraction[i] == c; }
      else if x.power.Some? && c in x.power.value.digits {
        var i :| 0 <= i < |x.power.value.digits| && x.power.value.digits[i] == c;
      }
    }
  }

  lemma MarkKept(c: string, rest: string)
    requires |c| == 1 && c[0] in "[]{},:"
    ensures Minify(c + rest) == c + Minify(rest) && (Minifiable(rest) ==> Minifiable(c + rest))
  {
    hide Minify, Minifiable;
    assert MinifyProofs.Kept(c[0]);
    WordKept(c, rest);
  }

  // ------------------------------------------------------------------ values

  /** The minified text of any spelling is that of the squeezed one, and then what follows minified. */
  lemma {:induction false} ValueSqueezed(x: Syntax, rest: string)
    requires WellFormed(x)
    ensures Minify(Then(x, rest)) == Then(Squeezed(x), Minify(rest))
    ensures Minifiable(rest) ==> Minifiable(Then(x, rest))
    decreases x, 1
  {
    hide Minify, Minifiable;
    match x
    case NullWord => WordKept("null", rest);
    case FalseWord => WordKept("false", rest);
    case TrueWord => WordKept("true", rest);
    case Numeral(_, _, _, _) => NumeralKept(x, rest);
    case Quoted(ps) => LiteralKept(ps, rest);
    case List(gap, es) =>
      var end := "]" + rest;
      MarkKept("]", rest);
      if es == [] { GapMinified(gap, end); } else { ElementsSqueezed(es, end); }
      MarkKept("[", if es == [] then GapThen(gap, end) else ElementsThen(es, end));
    case Record(gap, fs) =>
      var end := "}" + rest;
      MarkKept("}", rest);
      if fs == [] { GapMinified(gap, end); } else { FieldsSqueezed(fs, end); }
      MarkKept("{", if fs == [] then GapThen(gap, end) else FieldsThen(fs, end));
  }

  ghost predicate WellElement(e: Element) {
    ValidGap(e.before) && WellFormed(e.value) && ValidGap(e.after)
  }

  ghost predicate WellField(f: Field) {
    && ValidGap(f.before) && Spelling.Valid(f.key) && ValidGap(f.colon)
    && ValidGap(f.start) && WellFormed(f.value) && ValidGap(f.after)
  }

  lemma {:induction false} ElementsSqueezed(es: seq<Element>, rest: string)
    requires es != [] && forall i | 0 <= i < |es| :: WellElement(es[i])
    ensures Minify(ElementsThen(es, rest)) == ElementsThen(SqueezedElements(es), Minify(rest))
    ensures Minifiable(rest) ==> Minifiable(ElementsThen(es, rest))
    decreases es, 2
  {
    hide Minify, Minifiable, Then, GapThen, SqueezedGap, Squeezed;
    var e := es[0];
    assert WellElement(e);
    var tail := if |es| == 1 then rest else "," + ElementsThen(es[1..], rest);
    if |es| > 1 {
      ElementsSqueezed(es[1..], rest);
      MarkKept(",", ElementsThen(es[1..], rest));
      assert SqueezedElements(es)[1..] == SqueezedElements(es[1..]);
    }
    GapMinified(e.after, tail);
    ValueSqueezed(e.value, GapThen(e.after, tail));
    GapMinified(e.before, Then(e.value, GapThen(e.after, tail)));
  }

  lemma {:induction false} FieldsSqueezed(fs: seq<Field>, rest: string)
    requires fs != [] && forall i | 0 <= i < |fs| :: WellField(fs[i])
    ensures Minify(FieldsThen(fs, rest)) == FieldsThen(SqueezedFields(fs), Minify(rest))
    ensures Minifiable(rest) ==> Minifiable(FieldsThen(fs, rest))
    decreases fs, 2
  {
    hide Minify, Minifiable, Then, GapThen, SqueezedGap, Squeezed, LiteralThen;
    var f := fs[0];
    assert WellField(f);
    var tail := if |fs| == 1 then rest else "," + FieldsThen(fs[1..], rest);
    if |fs| > 1 {
      FieldsSqueezed(fs[1..], rest);
      MarkKept(",", FieldsThen(fs[1..], rest));
      assert SqueezedFields(fs)[1..] == SqueezedFields(fs[1..]);
    }
    var value := Then(f.value, GapThen(f.after, tail));
    GapMinified(f.after, tail);
    ValueSqueezed(f.value, GapThen(f.after, tail));
    GapMinified(f.start, value);
    MarkKept(":", GapThen(f.start, value));
    GapMinified(f.colon, ":" + GapThen(f.start, value));
    LiteralKept(f.key, GapThen(f.colon, ":" + GapThen(f.start, value)));
    GapMinified(f.before, LiteralThen(f.key, GapThen(f.colon, ":" + GapThen(f.start, value))));
  }

  /** So a commented text, once minified, is parsed to the value that was written. */
  lemma CommentedMeaning(x: Syntax, before: Gap, after: Gap)
    requires WellFormed(x) && ValidGap(before) && ValidGap(after)
    ensures var s := GapThen(before, Then(x, GapThen(after, "")));
      Minifiable(s) && ParseText(Minify(s), true) == Ok(Meaning(x), "")
  {
    hide Minify, Minifiable, Meaning, ParseText, Then, WellFormed, Uncommented, EndsBefore;
    assert Minify("") == "" && Minifiable("") by { MinifyNothing(); }
    var tail := GapThen(after, "");
    GapMinified(after, "");
    ValueSqueezed(x, tail);
    GapMinified(before, Then(x, tail));
    SqueezedMeaning(x);
    LastEnds(Squeezed(x), SqueezedGap(after));
    TextSpelled(Squeezed(x), SqueezedGap(before), SqueezedGap(after), "");
  }

  lemma MinifyNothing()
    ensures Minify("") == "" && Minifiable("")
  {
  }

  lemma LastEnds(x: Syntax, g: Gap)
    requires ValidGap(g) && BlankGap(g)
    ensures EndsBefore(x, GapThen(g, ""))
  {
    if g != [] { assert ValidTrivia(g[0]); }
  }
}
