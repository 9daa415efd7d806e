/**
 Every way to write a JSON value, with any blanks and comments between its tokens, and what
 it means: a grammar beside the code, against which the parser and the minifier are proved.
 */
module Syntax {
  import opened CText
  import opened Json
  import opened Literal
  import opened Spelling
  import LiteralProofs
  import RoundTrip

  // ----------------------------------------------------------------- grammar

  /** What may stand between two tokens. */
  datatype Trivia = Blank(c: char) | Line(body: string) | Block(body: string)

  type Gap = seq<Trivia>

  datatype Syntax =
    | NullWord
    | FalseWord
    | TrueWord
    | Numeral(minus: bool, whole: string, fraction: string, power: Option<Power>)
    | Quoted(ps: seq<Piece>)
    | List(gap: Gap, elements: seq<Element>)
    | Record(gap: Gap, fields: seq<Field>)

  datatype Power = Power(letter: char, sign: string, digits: string)

  datatype Element = Element(before: Gap, value: Syntax, after: Gap)

  datatype Field = Field(before: Gap, key: seq<Piece>, colon: Gap, start: Gap, value: Syntax, after: Gap)

  // -------------------------------------------------------------------- text

  function TriviaText(t: Trivia): string {
    match t
    case Blank(c) => [c]
    case Line(body) => "//" + body + "\n"
    case Block(body) => "/*" + body + "*/"
  }

  /** A gap, and the text after it. */
  function GapThen(g: Gap, rest: string): string {
    if g == [] then rest else TriviaText(g[0]) + GapThen(g[1..], rest)
  }

  function PowerThen(power: Option<Power>, rest: string): string {
    if power.None? then rest else [power.value.letter] + (power.value.sign + (power.value.digits + rest))
  }

  function FractionThen(fraction: string, rest: string): string {
    if fraction == "" then rest else "." + (fraction + rest)
  }

  function LiteralThen(ps: seq<Piece>, rest: string): string {
    "\"" + (Body(ps) + ("\"" + rest))
  }

  /** The text of a value, and the text after it. */
  function Then(x: Syntax, rest: string): string
    decreases x, 1
  {
    match x
    case NullWord => "null" + rest
    case FalseWord => "false" + rest
    case TrueWord => "true" + rest
    case Numeral(minus, whole, fraction, power) =>
      (if minus then "-" else "") + (whole + FractionThen(fraction, PowerThen(power, rest)))
    case Quoted(ps) => LiteralThen(ps, rest)
    case List(gap, es) => "[" + if es == [] then GapThen(gap, "]" + rest) else ElementsThen(es, "]" + rest)
    case Record(gap, fs) => "{" + if fs == [] then GapThen(gap, "}" + rest) else FieldsThen(fs, "}" + rest)
  }

  function ElementsThen(es: seq<Element>, rest: string): string
    requires es != []
    decreases es, 0
  {
    var e := es[0];
    GapThen(e.before, Then(e.value, GapThen(e.after, if |es| == 1 then rest else "," + ElementsThen(es[1..], rest))))
  }

  function FieldsThen(fs: seq<Field>, rest: string): string
    requires fs != []
    decreases fs, 0
  {
    var f := fs[0];
    GapThen(f.before, LiteralThen(f.key, GapThen(f.colon, ":" + GapThen(f.start,
      Then(f.value, GapThen(f.after, if |fs| == 1 then rest else "," + FieldsThen(fs[1..], rest)))))))
  }

  function Text(x: Syntax): string {
    Then(x, "")
  }

  // ----------------------------------------------------------------- meaning

  /** The exponent of ten that a power adds. */
  ghost function PowerOf(power: Option<Power>): int
    requires power.Some? ==> RoundTrip.AllDigits(power.value.digits)
  {
    if power.None? then 0
    else
      var n := RoundTrip.Denotes(power.value.digits, 0);
      if power.value.sign == "-" then 0 - n else n
  }

  /** The value written: for a number all its digits, shifted by those after the point. */
  ghost function Meaning(x: Syntax): Value
    requires WellFormed(x)
    decreases x
  {
    match x
    case NullWord => Null
    case FalseWord => False
    case TrueWord => True
    case Numeral(minus, whole, fraction, power) =>
      var n := RoundTrip.Denotes(whole + fraction, 0);
      Number(if minus then 0 - n else n, PowerOf(power) - |fraction|)
    case Quoted(ps) => Str(Bytes(ps))
    case List(_, es) => Array(seq(|es|, i requires 0 <= i < |es| => Meaning(es[i].value)))
    case Record(_, fs) =>
      Object(seq(|fs|, i requires 0 <= i < |fs| => Member(Bytes(fs[i].key), Meaning(fs[i].value))))
  }

  // ------------------------------------------------------------ what is valid

  /** Blanks are the bytes from 1 to 32; comments end where they should. */
  predicate ValidTrivia(t: Trivia) {
    match t
    case Blank(c) => 1 <= c as int <= 32
    case Line(body) => forall i | 0 <= i < |body| :: body[i] != '\n'
    case Block(body) =>
      && (body != "" ==> body[0] != '/')
      && forall i | 0 <= i < |body| - 1 :: !(body[i] == '*' && body[i + 1] == '/')
  }

  predicate ValidGap(g: Gap) {
    forall i | 0 <= i < |g| :: ValidTrivia(g[i])
  }

  ghost predicate ValidPower(p: Power) {
    && (p.letter == 'e' || p.letter == 'E') && (p.sign == "" || p.sign == "+" || p.sign == "-")
    && RoundTrip.AllDigits(p.digits)
  }

  /** At most one zero leads, and nothing at all only after a minus. */
  ghost predicate ValidWhole(minus: bool, whole: string) {
    && RoundTrip.AllDigits(whole) && (whole == "" ==> minus)
    && (|whole| > 1 && whole[0] == '0' ==> whole[1] != '0')
  }

  ghost predicate WellFormed(x: Syntax)
    decreases x
  {
    match x
    case Numeral(minus, whole, fraction, power) =>
      ValidWhole(minus, whole) && RoundTrip.AllDigits(fraction) && (power.Some? ==> ValidPower(power.value))
    case Quoted(ps) => Spelling.Valid(ps)
    case List(gap, es) =>
      ValidGap(gap) && forall i | 0 <= i < |es| :: ValidGap(es[i].before) && WellFormed(es[i].value) && ValidGap(es[i].after)
    case Record(gap, fs) =>
      ValidGap(gap) && forall i | 0 <= i < |fs| ::
        && ValidGap(fs[i].before) && Spelling.Valid(fs[i].key) && ValidGap(fs[i].colon)
        && ValidGap(fs[i].start) && WellFormed(fs[i].value) && ValidGap(fs[i].after)
    case _ => true
  }

  predicate BlankGap(g: Gap) {
    forall i | 0 <= i < |g| :: g[i].Blank?
  }

  /** No comments, which only the minifier knows. */
  predicate Uncommented(x: Syntax)
    decreases x
  {
    match x
    case List(gap, es) =>
      BlankGap(gap) && forall i | 0 <= i < |es| :: BlankGap(es[i].before) && Uncommented(es[i].value) && BlankGap(es[i].after)
    case Record(gap, fs) =>
      BlankGap(gap) && forall i | 0 <= i < |fs| ::
        && BlankGap(fs[i].before) && BlankGap(fs[i].colon)
        && BlankGap(fs[i].start) && Uncommented(fs[i].value) && BlankGap(fs[i].after)
    case _ => true
  }

  /** What follows a number is no part of it. */
  predicate EndsBefore(x: Syntax, rest: string) {
    x.Numeral? ==>
      if x.power.None? then
        && (IsDigit(At(rest, 0)) ==> x.whole == "0" && x.fraction == "" && At(rest, 0) == '0')
        && At(rest, 0) != 'e' && At(rest, 0) != 'E'
        && (x.fraction == "" ==> !(At(rest, 0) == '.' && IsDigit(At(rest, 1))))
      else
        && !IsDigit(At(rest, 0))
        && (x.power.value.sign == "" && x.power.value.digits == "" ==> At(rest, 0) != '+' && At(rest, 0) != '-')
  }

  // ------------------------------------------------------------------ parser

  lemma {:induction false} GapSkipped(g: Gap, rest: string)
    requires ValidGap(g) && BlankGap(g)
    ensures Skip(GapThen(g, rest)) == Skip(rest)
  {
    if g != [] {
      GapSkipped(g[1..], rest);
      RoundTrip.SkipOne(g[0].c, GapThen(g[1..], rest));
    }
  }

  /** A value or a key starts with no blank. */
  lemma Starts(x: Syntax, rest: string)
    requires WellFormed(x)
    ensures var s := Then(x, rest); s != "" && !IsBlank(s[0]) && s[0] !in "/]},:"
  {
    hide Body, GapThen, FractionThen, PowerThen;
    if x.Numeral? && !x.minus { assert IsDigit(x.whole[0]); }
  }

  // ----------------------------------------------------------------- numbers

  /** What may follow the digits before the point. */
  predicate AfterWhole(whole: string, rest: string) {
    IsDigit(At(rest, 0)) ==> whole == "0" && At(rest, 0) == '0'
  }

  lemma WholeTaken(minus: bool, whole: string, rest: string)
    requires ValidWhole(minus, whole) && AfterWhole(whole, rest)
    ensures WholePart(whole + rest) == (RoundTrip.Denotes(whole, 0), rest)
  {
    hide Digits;
    var s := whole + rest;
    if whole == "" {
      assert s == rest;
    } else if whole[0] == '0' {
      ZeroFirst(whole, rest);
    } else {
      RoundTrip.DigitsTaken(whole, 0, rest);
    }
  }

  lemma ZeroFirst(whole: string, rest: string)
    requires ValidWhole(false, whole) && whole != "" && whole[0] == '0' && AfterWhole(whole, rest)
    ensures WholePart(whole + rest) == (RoundTrip.Denotes(whole, 0), rest)
  {
    var s := whole + rest;
    assert s[1..] == whole[1..] + rest;
    assert RoundTrip.Denotes(whole, 0) == RoundTrip.Denotes(whole[1..], 0);
    if |whole| > 1 {
      RoundTrip.DigitsTaken(whole[1..], 0, rest);
    } else {
      assert s[1..] == rest;
    }
    hide Digits;
  }

  lemma {:induction false} DenotesJoin(a: string, b: string, acc: nat)
    requires RoundTrip.AllDigits(a) && RoundTrip.AllDigits(b)
    ensures RoundTrip.AllDigits(a + b) && RoundTrip.Denotes(a + b, acc) == RoundTrip.Denotes(b, RoundTrip.Denotes(a, acc))
  {
    if a == "" {
      assert a + b == b;
    } else {
      assert (a + b)[1..] == a[1..] + b;
      DenotesJoin(a[1..], b, acc * 10 + DigitValue(a[0]));
    }
  }

  lemma FractionTaken(n: nat, fraction: string, rest: string)
    requires RoundTrip.AllDigits(fraction) && (fraction != "" ==> !IsDigit(At(rest, 0)))
    requires fraction == "" ==> !(At(rest, 0) == '.' && IsDigit(At(rest, 1)))
    ensures Fraction(FractionThen(fraction, rest), n) == (RoundTrip.Denotes(fraction, n), |fraction|, rest)
  {
    hide Digits;
    if fraction != "" {
      var s := "." + (fraction + rest);
      assert s[1..] == fraction + rest;
      RoundTrip.DigitsTaken(fraction, n, rest);
    }
  }

  lemma PowerTaken(power: Option<Power>, rest: string)
    requires power.Some? ==> ValidPower(power.value) && !IsDigit(At(rest, 0))
    requires power.Some? && power.value.sign == "" && power.value.digits == "" ==> At(rest, 0) != '+' && At(rest, 0) != '-'
    requires power.None? ==> At(rest, 0) != 'e' && At(rest, 0) != 'E'
    ensures Exponent(PowerThen(power, rest)) == (PowerOf(power), rest)
  {
    hide Digits;
    if power.Some? {
      var p := power.value;
      var t := p.sign + (p.digits + rest);
      assert ([p.letter] + t)[1..] == t;
      RoundTrip.DigitsTaken(p.digits, 0, rest);
      if p.sign == "" { assert t == p.digits + rest; } else { assert t[1..] == p.digits + rest; }
    }
  }

  lemma PartsTaken(x: Syntax, rest: string)
    requires x.Numeral? && WellFormed(x) && EndsBefore(x, rest)
    ensures var after := PowerThen(x.power, rest);
      var tail := FractionThen(x.fraction, after);
      && WholePart(x.whole + tail) == (RoundTrip.Denotes(x.whole, 0), tail)
      && Fraction(tail, RoundTrip.Denotes(x.whole, 0)) == (RoundTrip.Denotes(x.whole + x.fraction, 0), |x.fraction|, after)
      && Exponent(after) == (PowerOf(x.power), rest)
  {
    var after := PowerThen(x.power, rest);
    PowerTaken(x.power, rest);
    DenotesJoin(x.whole, x.fraction, 0);
    NumeralEnds(x, rest);
    hide WholePart, Fraction, Exponent, PowerThen, FractionThen, RoundTrip.Denotes, PowerOf;
    WholeTaken(x.minus, x.whole, FractionThen(x.fraction, after));
    FractionTaken(RoundTrip.Denotes(x.whole, 0), x.fraction, after);
  }

  /** `parse_number` takes the whole numeral and the number it means. */
  lemma NumeralTaken(x: Syntax, rest: string)
    requires x.Numeral? && WellFormed(x) && EndsBefore(x, rest)
    ensures ParseNumber(Then(x, rest)) == (Meaning(x), rest)
  {
    PartsTaken(x, rest);
    NumeralEnds(x, rest);
    hide WholePart, Fraction, Exponent, PowerThen, FractionThen, RoundTrip.Denotes, PowerOf, ValidPower, EndsBefore;
    var s := x.whole + FractionThen(x.fraction, PowerThen(x.power, rest));
    if x.minus {
      assert Then(x, rest) == "-" + s && ("-" + s)[1..] == s;
    } else {
      assert Then(x, rest) == s by { assert "" + s == s; }
    }
  }

  lemma NumeralEnds(x: Syntax, rest: string)
    requires x.Numeral? && WellFormed(x) && EndsBefore(x, rest)
    ensures var after := PowerThen(x.power, rest);
      && AfterWhole(x.whole, FractionThen(x.fraction, after))
      && (x.fraction != "" ==> !IsDigit(At(after, 0)))
      && (x.fraction == "" ==> !(At(after, 0) == '.' && IsDigit(At(after, 1))))
    ensures At(Then(x, rest), 0) == '-' <==> x.minus
  {
  }

  // ------------------------------------------------------- arrays and objects

  ghost function Values(es: seq<Element>): (vs: seq<Value>)
    requires forall i | 0 <= i < |es| :: WellFormed(es[i].value)
    ensures |vs| == |es|
  {
    seq(|es|, i requires 0 <= i < |es| => Meaning(es[i].value))
  }

  ghost function Members(fs: seq<Field>): (ms: seq<Member>)
    requires forall i | 0 <= i < |fs| :: Spelling.Valid(fs[i].key) && WellFormed(fs[i].value)
    ensures |ms| == |fs|
  {
    seq(|fs|, i requires 0 <= i < |fs| => Member(Bytes(fs[i].key), Meaning(fs[i].value)))
  }

  ghost predicate ValidElements(es: seq<Element>) {
    forall i | 0 <= i < |es| ::
      && ValidGap(es[i].before) && WellFormed(es[i].value) && ValidGap(es[i].after)
      && BlankGap(es[i].before) && Uncommented(es[i].value) && BlankGap(es[i].after)
  }

  ghost predicate ValidField(f: Field) {
    && ValidGap(f.before) && Spelling.Valid(f.key) && ValidGap(f.colon)
    && ValidGap(f.start) && WellFormed(f.value) && ValidGap(f.after)
    && BlankGap(f.before) && BlankGap(f.colon) && BlankGap(f.start) && Uncommented(f.value) && BlankGap(f.after)
  }

  ghost predicate ValidFields(fs: seq<Field>) {
    forall i | 0 <= i < |fs| :: ValidField(fs[i])
  }

  /** A value inside brackets is followed by a blank, a comma or a bracket. */
  lemma GapEnds(x: Syntax, g: Gap, tail: string)
    requires ValidGap(g) && BlankGap(g) && tail != "" && tail[0] in ",]}"
    ensures EndsBefore(x, GapThen(g, tail)) && Skip(GapThen(g, tail)) == tail
  {
    GapSkipped(g, tail);
    SkipStops(tail);
    if g != [] { assert ValidTrivia(g[0]); }
    hide Skip;
  }

  /** Any spelling of a value, with any blanks between its tokens, is parsed to what it means. */
  lemma {:induction false} ValueSpelled(x: Syntax, rest: string)
    requires WellFormed(x) && Uncommented(x) && EndsBefore(x, rest)
    ensures ParseValue(Then(x, rest)) == Ok(Meaning(x), rest)
    decreases x, 1
  {
    match x
    case NullWord => RoundTrip.ConstantValues(rest);
    case FalseWord => RoundTrip.ConstantValues(rest);
    case TrueWord => RoundTrip.ConstantValues(rest);
    case Numeral(_, _, _, _) => NumeralSpelled(x, rest);
    case Quoted(ps) => QuotedSpelled(ps, rest);
    case List(gap, es) => ListSpelled(x, rest);
    case Record(gap, fs) => RecordSpelled(x, rest);
  }

  lemma NumeralSpelled(x: Syntax, rest: string)
    requires x.Numeral? && WellFormed(x) && EndsBefore(x, rest)
    ensures ParseValue(Then(x, rest)) == Ok(Meaning(x), rest)
  {
    NumeralTaken(x, rest);
    NumeralStarts(x, rest);
    hide Meaning, Then, ParseNumber, WellFormed, EndsBefore;
    NumberValueIs(Then(x, rest));
  }

  lemma NumeralStarts(x: Syntax, rest: string)
    requires x.Numeral? && WellFormed(x)
    ensures var s := Then(x, rest); At(s, 0) == '-' || IsDigit(At(s, 0))
  {
    hide FractionThen, PowerThen;
    if !x.minus { assert IsDigit(x.whole[0]); }
  }

  lemma LiteralTaken(ps: seq<Piece>, rest: string)
    requires Spelling.Valid(ps)
    ensures var s := LiteralThen(ps, rest); s[0] == '\"' && ParseString(s) == Ok(Bytes(ps), rest)
  {
    hide Body, ParseString, Spelling.Valid, Bytes;
    SpelledString(ps, "\"" + rest);
    assert ("\"" + rest)[1..] == rest;
    assert LiteralThen(ps, rest) == "\"" + Body(ps) + ("\"" + rest);
  }

  lemma QuotedSpelled(ps: seq<Piece>, rest: string)
    requires Spelling.Valid(ps)
    ensures ParseValue(LiteralThen(ps, rest)) == Ok(Str(Bytes(ps)), rest)
  {
    hide Body, ParseString, Spelling.Valid, Bytes, LiteralThen;
    LiteralTaken(ps, rest);
    StringValue(LiteralThen(ps, rest));
  }

  lemma ArrayOpens(s: string)
    requires s != "" && s[0] == '['
    ensures var t := Skip(s[1..]);
      ParseValue(s) == if At(t, 0) == ']' then Ok(Array([]), t[1..]) else ParseItems(t, [])
  {
    hide ParseItems, Skip;
  }

  lemma ObjectOpens(s: string)
    requires s != "" && s[0] == '{'
    ensures var t := Skip(s[1..]);
      ParseValue(s) == if At(t, 0) == '}' then Ok(Object([]), t[1..]) else ParseMembers(t, [])
  {
    hide ParseMembers, Skip;
  }

  lemma {:induction false} ListSpelled(x: Syntax, rest: string)
    requires x.List? && WellFormed(x) && Uncommented(x)
    ensures ParseValue(Then(x, rest)) == Ok(Meaning(x), rest)
    decreases x, 0
  {
    var es := x.elements;
    var inner := if es == [] then GapThen(x.gap, "]" + rest) else ElementsThen(es, "]" + rest);
    assert ValidElements(es) && Meaning(x) == Array(Values(es));
    hide WellFormed, Uncommented, Meaning, ElementsThen, ParseItems, ParseValue, Skip, GapThen, Values;
    FirstOf("[", inner);
    ArrayOpens(Then(x, rest));
    FirstOf("]", rest);
    if es == [] {
      GapSkipped(x.gap, "]" + rest);
      SkipStops("]" + rest);
      assert Values(es) == [];
    } else {
      ElementsStart(es, "]" + rest);
      ElementsSpelled(es, [], rest);
      assert [] + Values(es) == Values(es);
    }
  }

  lemma FirstOf(c: string, s: string)
    requires |c| == 1
    ensures (c + s)[0] == c[0] && (c + s)[1..] == s
  {
  }

  lemma ElementsStart(es: seq<Element>, end: string)
    requires es != [] && ValidElements(es)
    ensures At(Skip(ElementsThen(es, end)), 0) !in "]},:"
    ensures var e := es[0];
      var tail := GapThen(e.after, if |es| == 1 then end else "," + ElementsThen(es[1..], end));
      Skip(ElementsThen(es, end)) == Then(e.value, tail)
  {
    var e := es[0];
    var tail := GapThen(e.after, if |es| == 1 then end else "," + ElementsThen(es[1..], end));
    var s := Then(e.value, tail);
    assert ElementsThen(es, end) == GapThen(e.before, s);
    hide ElementsThen, WellFormed, Uncommented;
    GapSkipped(e.before, s);
    Starts(e.value, tail);
    SkipStops(s);
    hide Then, GapThen, Skip;
  }

  lemma ValuesMove(done: seq<Value>, es: seq<Element>)
    requires es != [] && ValidElements(es)
    ensures ValidElements(es[1..])
    ensures done + [Meaning(es[0].value)] + Values(es[1..]) == done + Values(es)
    ensures |es| == 1 ==> done + Values(es) == done + [Meaning(es[0].value)]
  {
    hide WellFormed, Uncommented, Meaning, ValidGap, BlankGap;
    assert forall i | 0 <= i < |es| - 1 :: es[1..][i] == es[i + 1];
  }

  lemma {:induction false} ElementsSpelled(es: seq<Element>, done: seq<Value>, rest: string)
    requires es != [] && ValidElements(es)
    ensures ParseItems(Skip(ElementsThen(es, "]" + rest)), done) == Ok(Array(done + Values(es)), rest)
    decreases es, 2
  {
    hide WellFormed, Uncommented, Meaning, ElementsThen, ParseItems, ParseValue, Skip, GapThen, Then, EndsBefore;
    var e, end := es[0], "]" + rest;
    FirstOf("]", rest);
    ElementsStart(es, end);
    assert WellFormed(e.value) && Uncommented(e.value) && ValidGap(e.after) && BlankGap(e.after);
    ValuesMove(done, es);
    hide ValidElements, Values;
    if |es| == 1 {
      var tail := GapThen(e.after, end);
      GapEnds(e.value, e.after, end);
      ValueSpelled(e.value, tail);
      RoundTrip.ItemStep(Then(e.value, tail), Meaning(e.value), tail, done);
    } else {
      var more := "," + ElementsThen(es[1..], end);
      var tail := GapThen(e.after, more);
      FirstOf(",", ElementsThen(es[1..], end));
      GapEnds(e.value, e.after, more);
      ValueSpelled(e.value, tail);
      RoundTrip.ItemStep(Then(e.value, tail), Meaning(e.value), tail, done);
      ElementsSpelled(es[1..], done + [Meaning(e.value)], rest);
    }
  }

  lemma {:induction false} RecordSpelled(x: Syntax, rest: string)
    requires x.Record? && WellFormed(x) && Uncommented(x)
    ensures ParseValue(Then(x, rest)) == Ok(Meaning(x), rest)
    decreases x, 0
  {
    var fs := x.fields;
    var inner := if fs == [] then GapThen(x.gap, "}" + rest) else FieldsThen(fs, "}" + rest);
    assert ValidFields(fs) && Meaning(x) == Object(Members(fs));
    hide WellFormed, Uncommented, Meaning, FieldsThen, ParseMembers, ParseValue, Skip, GapThen, Members;
    FirstOf("{", inner);
    ObjectOpens(Then(x, rest));
    FirstOf("}", rest);
    if fs == [] {
      GapSkipped(x.gap, "}" + rest);
      SkipStops("}" + rest);
      assert Members(fs) == [];
    } else {
      FieldsStart(fs, "}" + rest);
      FieldsSpelled(fs, [], rest);
      assert [] + Members(fs) == Members(fs);
    }
  }

  /** What follows the first field. */
  function FieldTail(fs: seq<Field>, end: string): string
    requires fs != []
  {
    if |fs| == 1 then end else "," + FieldsThen(fs[1..], end)
  }

  lemma FieldsStart(fs: seq<Field>, end: string)
    requires fs != [] && ValidFields(fs)
    ensures var f := fs[0];
      var value := Then(f.value, GapThen(f.after, FieldTail(fs, end)));
      var s := LiteralThen(f.key, GapThen(f.colon, ":" + GapThen(f.start, value)));
      Skip(FieldsThen(fs, end)) == s && s[0] == '\"'
  {
    var f := fs[0];
    var value := Then(f.value, GapThen(f.after, FieldTail(fs, end)));
    var s := LiteralThen(f.key, GapThen(f.colon, ":" + GapThen(f.start, value)));
    assert FieldsThen(fs, end) == GapThen(f.before, s);
    assert s[0] == '\"';
    hide FieldsThen, WellFormed, Uncommented, LiteralThen;
    GapSkipped(f.before, s);
    SkipStops(s);
    hide Then, GapThen, Skip;
  }

  /** The key, the colon and the value of a field. */
  lemma FieldTaken(f: Field, tail: string, done: seq<Member>)
    requires ValidField(f) && tail != "" && tail[0] in ",]}"
    requires ParseValue(Then(f.value, GapThen(f.after, tail))) == Ok(Meaning(f.value), GapThen(f.after, tail))
    ensures var s := LiteralThen(f.key, GapThen(f.colon, ":" + GapThen(f.start, Then(f.value, GapThen(f.after, tail)))));
      var now := done + [Member(Bytes(f.key), Meaning(f.value))];
      && (tail[0] == ',' ==> ParseMembers(s, done) == ParseMembers(Skip(tail[1..]), now))
      && (tail[0] == '}' ==> ParseMembers(s, done) == Ok(Object(now), tail[1..]))
  {
    var after := GapThen(f.after, tail);
    var value := Then(f.value, after);
    var colon := ":" + GapThen(f.start, value);
    hide WellFormed, Uncommented, Meaning, ParseMembers, ParseValue, Skip, GapThen, Then, LiteralThen, ParseString, Bytes, Spelling.Valid;
    LiteralTaken(f.key, GapThen(f.colon, colon));
    FirstOf(":", GapThen(f.start, value));
    GapSkipped(f.colon, colon);
    SkipStops(colon);
    GapSkipped(f.start, value);
    Starts(f.value, after);
    SkipStops(value);
    GapSkipped(f.after, tail);
    SkipStops(tail);
    RoundTrip.MemberStep(LiteralThen(f.key, GapThen(f.colon, colon)), Bytes(f.key), colon, Meaning(f.value), after, done);
  }

  lemma {:induction false} FieldsSpelled(fs: seq<Field>, done: seq<Member>, rest: string)
    requires fs != [] && ValidFields(fs)
    ensures ParseMembers(Skip(FieldsThen(fs, "}" + rest)), done) == Ok(Object(done + Members(fs)), rest)
    decreases fs, 2
  {
    hide WellFormed, Uncommented, Meaning, FieldsThen, ParseMembers, ParseValue, Skip, GapThen, Then, LiteralThen, EndsBefore, Bytes, Spelling.Valid;
    var f, end := fs[0], "}" + rest;
    var tail := FieldTail(fs, end);
    FirstOf("}", rest);
    if |fs| > 1 { FirstOf(",", FieldsThen(fs[1..], end)); }
    FieldsStart(fs, end);
    assert ValidField(f) && WellFormed(f.value) && Uncommented(f.value) && ValidGap(f.after) && BlankGap(f.after);
    GapEnds(f.value, f.after, tail);
    ValueSpelled(f.value, GapThen(f.after, tail));
    FieldTaken(f, tail, done);
    var m := Member(Bytes(f.key), Meaning(f.value));
    if |fs| == 1 {
      assert Members(fs) == [m];
    } else {
      FieldsSpelled(fs[1..], done + [m], rest);
      assert done + [m] + Members(fs[1..]) == done + Members(fs);
    }
  }

  /** The whole parse: blanks before the value and, when the end of the text is asked for, after it. */
  lemma TextSpelled(x: Syntax, before: Gap, after: Gap, rest: string)
    requires WellFormed(x) && Uncommented(x) && ValidGap(before) && BlankGap(before) && ValidGap(after) && BlankGap(after)
    requires EndsBefore(x, GapThen(after, rest)) && !IsBlank(At(rest, 0))
    ensures var s := GapThen(before, Then(x, GapThen(after, rest)));
      && ParseText(s, false) == Ok(Meaning(x), GapThen(after, rest))
      && ParseText(s, true) == if rest == "" then Ok(Meaning(x), "") else Fail(rest)
  {
    var tail := GapThen(after, rest);
    hide Meaning, Then, GapThen, ParseValue, Skip, EndsBefore;
    ValueSpelled(x, tail);
    GapSkipped(before, Then(x, tail));
    Starts(x, tail);
    SkipStops(Then(x, tail));
    GapSkipped(after, rest);
    SkipStops(rest);
  }
}
