/**
 The parser takes nothing but spellings of values: what it accepts of a safe text can be
 written down in the grammar, with the value it returns.
 */
module Grammar {
  import opened CText
  import opened Json
  import opened Literal
  import opened Safety
  import opened Spelling
  import opened Syntax
  import LiteralProofs
  import RoundTrip

  /** The blanks that `skip` passes. */
  lemma {:induction false} GapOf(s: string) returns (g: Gap)
    ensures ValidGap(g) && BlankGap(g) && s == GapThen(g, Skip(s))
    decreases |s|
  {
    if s != "" && IsBlank(s[0]) {
      var more := GapOf(s[1..]);
      g := [Blank(s[0])] + more;
      assert g[1..] == more && s == [s[0]] + s[1..];
    } else {
      g := [];
    }
  }

  // ----------------------------------------------------------------- numbers

  /** The digits that a run takes. */
  lemma {:induction false} DigitsOf(s: string, acc: nat) returns (digits: string)
    ensures var (n, k, rest) := Digits(s, acc);
      && RoundTrip.AllDigits(digits) && |digits| == k && s == digits + rest && n == RoundTrip.Denotes(digits, acc)
    decreases |s|
  {
    if s != "" && IsDigit(s[0]) {
      var more := DigitsOf(s[1..], acc * 10 + DigitValue(s[0]));
      digits := [s[0]] + more;
      assert digits[1..] == more && s == [s[0]] + s[1..];
    } else {
      digits := "";
      assert s == "" + s;
    }
  }

  lemma WholeOf(minus: bool, s: string) returns (whole: string)
    requires !minus ==> IsDigit(At(s, 0))
    ensures var (n, rest) := WholePart(s);
      && ValidWhole(minus, whole) && s == whole + rest && n == RoundTrip.Denotes(whole, 0) && AfterWhole(whole, rest)
  {
    hide Digits, RoundTrip.Denotes;
    var zero := if At(s, 0) == '0' then "0" else "";
    var t := if At(s, 0) == '0' then s[1..] else s;
    assert s == zero + t;
    if '1' <= At(t, 0) <= '9' {
      whole := LeadingOf(zero, t);
      assert WholePart(s) == (Digits(t, 0).0, Digits(t, 0).2);
    } else {
      whole := zero;
      ZeroDenotes();
    }
  }

  lemma LeadingOf(zero: string, t: string) returns (whole: string)
    requires (zero == "" || zero == "0") && '1' <= At(t, 0) <= '9'
    ensures var (n, _, rest) := Digits(t, 0);
      && ValidWhole(false, whole) && zero + t == whole + rest && n == RoundTrip.Denotes(whole, 0) && !IsDigit(At(rest, 0))
  {
    ZeroDenotes();
    var digits := DigitsOf(t, 0);
    SomeDigits(t);
    hide Digits, RoundTrip.Denotes;
    whole := zero + digits;
    DenotesJoin(zero, digits, 0);
    assert digits[0] == t[0];
    assert zero + (digits + Digits(t, 0).2) == whole + Digits(t, 0).2;
  }

  lemma SomeDigits(s: string)
    requires IsDigit(At(s, 0))
    ensures Digits(s, 0).1 > 0
  {
  }

  lemma ZeroDenotes()
    ensures RoundTrip.Denotes("", 0) == 0 && RoundTrip.Denotes("0", 0) == 0
  {
  }

  lemma FractionOf(s: string, n: nat) returns (fraction: string)
    ensures var (m, places, rest) := Fraction(s, n);
      && RoundTrip.AllDigits(fraction) && |fraction| == places && s == FractionThen(fraction, rest)
      && m == RoundTrip.Denotes(fraction, n)
      && (fraction == "" ==> !(At(rest, 0) == '.' && IsDigit(At(rest, 1)))) && (fraction != "" ==> !IsDigit(At(rest, 0)))
  {
    hide Digits;
    if At(s, 0) == '.' && IsDigit(At(s, 1)) {
      fraction := DigitsOf(s[1..], n);
      assert s == "." + s[1..];
    } else {
      fraction := "";
    }
  }

  lemma PowerFrom(s: string) returns (power: Option<Power>)
    ensures var (e, rest) := Exponent(s);
      && (power.Some? ==> ValidPower(power.value) && !IsDigit(At(rest, 0)))
      && s == PowerThen(power, rest) && e == PowerOf(power)
      && (power.None? ==> At(rest, 0) != 'e' && At(rest, 0) != 'E')
      && (power.Some? && power.value.sign == "" && power.value.digits == "" ==> At(rest, 0) != '+' && At(rest, 0) != '-')
  {
    hide Digits, RoundTrip.Denotes;
    if At(s, 0) == 'e' || At(s, 0) == 'E' {
      var t := s[1..];
      var sign := if At(t, 0) == '+' || At(t, 0) == '-' then [t[0]] else "";
      var u := t[|sign|..];
      var digits := DigitsOf(u, 0);
      power := Some(Power(s[0], sign, digits));
      assert s == [s[0]] + t && t == sign + u;
      if digits == "" { assert u == Digits(u, 0).2; }
    } else {
      power := None;
    }
  }

  /** The digits, the point and the exponent after the sign. */
  lemma UnsignedOf(minus: bool, t: string) returns (x: Syntax)
    requires !minus ==> IsDigit(At(t, 0))
    ensures var (n0, s1) := WholePart(t);
      var (n, places, s2) := Fraction(s1, n0);
      var (e, rest) := Exponent(s2);
      && x.Numeral? && x.minus == minus && WellFormed(x) && EndsBefore(x, rest)
      && t == x.whole + FractionThen(x.fraction, PowerThen(x.power, rest))
      && n == RoundTrip.Denotes(x.whole + x.fraction, 0) && e == PowerOf(x.power) && places == |x.fraction|
  {
    hide WholePart, Fraction, Exponent, RoundTrip.Denotes, PowerOf, FractionThen, PowerThen, EndsBefore;
    var whole := WholeOf(minus, t);
    var (n0, s1) := WholePart(t);
    var fraction := FractionOf(s1, n0);
    var (n, places, s2) := Fraction(s1, n0);
    var power := PowerFrom(s2);
    var (e, rest) := Exponent(s2);
    x := Numeral(minus, whole, fraction, power);
    DenotesJoin(whole, fraction, 0);
    NumeralMayEnd(x, s1, s2, rest);
  }

  /** The numeral that `parse_number` takes. */
  lemma NumeralOf(s: string) returns (x: Syntax)
    requires At(s, 0) == '-' || IsDigit(At(s, 0))
    ensures var (v, rest) := ParseNumber(s);
      x.Numeral? && WellFormed(x) && EndsBefore(x, rest) && s == Then(x, rest) && v == Meaning(x)
  {
    hide WholePart, Fraction, Exponent, RoundTrip.Denotes, PowerOf, FractionThen, PowerThen, EndsBefore, ValidWhole, ValidPower;
    var minus := At(s, 0) == '-';
    var t := if minus then s[1..] else s;
    x := UnsignedOf(minus, t);
    assert s == (if minus then "-" else "") + t by { assert "" + t == t; }
  }

  lemma NumeralMayEnd(x: Syntax, s1: string, s2: string, rest: string)
    requires x.Numeral? && AfterWhole(x.whole, s1) && s1 == FractionThen(x.fraction, s2) && s2 == PowerThen(x.power, rest)
    requires x.fraction == "" ==> !(At(s2, 0) == '.' && IsDigit(At(s2, 1)))
    requires x.fraction != "" ==> !IsDigit(At(s2, 0))
    requires x.power.Some? ==> !IsDigit(At(rest, 0))
    requires x.power.None? ==> At(rest, 0) != 'e' && At(rest, 0) != 'E'
    requires x.power.Some? && x.power.value.sign == "" && x.power.value.digits == "" ==> At(rest, 0) != '+' && At(rest, 0) != '-'
    ensures EndsBefore(x, rest)
  {
  }

  // ------------------------------------------------------------------ values

  /** A literal that the text ends in is not closed. */
  ghost predicate Unclosed(s: string, x: Syntax) {
    x.Quoted? && s == "\"" + Body(x.ps)
  }

  /** `s` is a spelling of the value before `rest`, unless it is a literal that is never closed. */
  ghost predicate Spells(s: string, x: Syntax, v: Value, rest: string) {
    && WellFormed(x) && Uncommented(x) && Meaning(x) == v && EndsBefore(x, rest)
    && (s == Then(x, rest) || (rest == "" && Unclosed(s, x)))
  }

  lemma LiteralOf(s: string) returns (ps: seq<Piece>)
    requires At(s, 0) == '\"' && LiteralProofs.CompleteEscapes(s[1..]) && ParseString(s).Ok?
    ensures var r := ParseString(s);
      Spelling.Valid(ps) && Bytes(ps) == r.value && (s == LiteralThen(ps, r.rest) || (r.rest == "" && s == "\"" + Body(ps)))
  {
    hide ParseString, LiteralProofs.CompleteEscapes, Body, Bytes, Spelling.Valid;
    var end;
    ps, end := PiecesOf(s[1..]);
    SpelledString(ps, end);
    assert s == "\"" + s[1..];
    assert s == "\"" + Body(ps) + end;
    if end != "" {
      assert end == "\"" + end[1..];
      assert "\"" + Body(ps) + end == LiteralThen(ps, end[1..]);
    } else {
      assert "\"" + Body(ps) + "" == "\"" + Body(ps);
    }
  }

  /** Whatever `parse_value` accepts of a safe text is a spelling of what it returns. */
  lemma {:induction false} ValueOf(s: string, depth: nat) returns (x: Syntax)
    requires SafeIn(s, depth) && ParseValue(s).Ok?
    ensures Spells(s, x, ParseValue(s).value, ParseValue(s).rest)
    decreases |s|, 2
  {
    ValueKind(s);
    hide ParseValue, SafeIn, ParseString, ParseArray, ParseObject, ParseNumber;
    if At(s, 0) == '\"' {
      x := QuotedOf(s, depth);
    } else if At(s, 0) == '-' || IsDigit(At(s, 0)) {
      NumberValueIs(s);
      x := NumeralOf(s);
    } else if At(s, 0) == '[' {
      x := ListOf(s, depth);
    } else if At(s, 0) == '{' {
      x := RecordOf(s, depth);
    } else {
      x := WordOf(s);
    }
  }

  lemma SafeLiteral(s: string, depth: nat)
    requires SafeIn(s, depth) && At(s, 0) == '\"'
    ensures LiteralProofs.CompleteEscapes(s[1..])
  {
    hide LiteralProofs.CompleteEscapes, CountPass;
  }

  lemma QuotedOf(s: string, depth: nat) returns (x: Syntax)
    requires SafeIn(s, depth) && At(s, 0) == '\"' && ParseValue(s).Ok?
    ensures Spells(s, x, ParseValue(s).value, ParseValue(s).rest)
  {
    hide ParseValue, SafeIn, ParseString, LiteralProofs.CompleteEscapes, Body, LiteralThen, Spelling.Valid, Bytes;
    SafeLiteral(s, depth);
    StringValue(s);
    var ps := LiteralOf(s);
    x := Quoted(ps);
  }

  lemma WordOf(s: string) returns (x: Syntax)
    requires "null" <= s || "false" <= s || "true" <= s
    ensures ParseValue(s).Ok? && Spells(s, x, ParseValue(s).value, ParseValue(s).rest)
  {
    ConstantValue(s);
    hide ParseValue;
    if "null" <= s {
      x := NullWord;
      assert s == "null" + s[4..];
    } else if "false" <= s {
      x := FalseWord;
      assert s == "false" + s[5..];
    } else {
      x := TrueWord;
      assert s == "true" + s[4..];
    }
  }

  lemma {:induction false} ListOf(s: string, depth: nat) returns (x: Syntax)
    requires SafeIn(s, depth) && At(s, 0) == '[' && ParseValue(s).Ok?
    ensures Spells(s, x, ParseValue(s).value, ParseValue(s).rest)
    decreases |s|, 0
  {
    hide ParseValue, SafeIn, ParseItems, Skip, GapThen, Spells, Values, WellFormed, Uncommented, Opened;
    SafeOpen(s, depth);
    ArrayOpens(s);
    SafeSkip(s[1..], depth + 1);
    var gap := GapOf(s[1..]);
    var t := Skip(s[1..]);
    SkipShorter(s[1..]);
    if At(t, 0) == ']' {
      x := List(gap, []);
      EmptyList(s, gap, t);
    } else {
      var es := ItemsOf(t, [], depth);
      x := List([], Opened(gap, es));
      FullList(s, gap, es, ParseValue(s).rest);
      assert [] + Values(es) == Values(es);
    }
  }

  lemma EmptyList(s: string, gap: Gap, t: string)
    requires s != "" && s[0] == '[' && s[1..] == GapThen(gap, t) && t != "" && t[0] == ']' && ValidGap(gap) && BlankGap(gap)
    ensures Spells(s, List(gap, []), Array([]), t[1..])
  {
    assert s == "[" + s[1..] && t == "]" + t[1..];
    assert Meaning(List(gap, [])) == Array([]);
    hide GapThen;
  }

  lemma FullList(s: string, gap: Gap, es: seq<Element>, rest: string)
    requires es != [] && es[0].before == [] && ValidElements(es) && ValidGap(gap) && BlankGap(gap)
    requires s != "" && s[0] == '[' && s[1..] == GapThen(gap, ElementsThen(es, "]" + rest))
    ensures Spells(s, List([], Opened(gap, es)), Array(Values(es)), rest)
  {
    hide ElementsThen, GapThen, Opened;
    OpenedIs(gap, es, "]" + rest);
    assert s == "[" + s[1..];
    assert Values(Opened(gap, es)) == Values(es);
    assert Meaning(List([], Opened(gap, es))) == Array(Values(Opened(gap, es)));
  }

  lemma SkipShorter(s: string)
    ensures |Skip(s)| <= |s|
  {
  }

  /** The elements with a gap before the first, which had none. */
  function Opened(gap: Gap, es: seq<Element>): (r: seq<Element>)
    requires es != []
    ensures |r| == |es|
  {
    [Element(gap, es[0].value, es[0].after)] + es[1..]
  }

  lemma OpenedIs(gap: Gap, es: seq<Element>, end: string)
    requires es != [] && es[0].before == []
    ensures ElementsThen(Opened(gap, es), end) == GapThen(gap, ElementsThen(es, end))
    ensures ValidGap(gap) && BlankGap(gap) && ValidElements(es) ==>
      ValidElements(Opened(gap, es)) && Values(Opened(gap, es)) == Values(es)
    ensures forall i | 0 <= i < |es| :: Opened(gap, es)[i].value == es[i].value
  {
    var r := Opened(gap, es);
    assert r[1..] == es[1..] && r[0].before == gap;
    hide Then, WellFormed, Uncommented;
  }

  /** A value that more text follows is closed. */
  lemma SpellsBefore(s: string, x: Syntax, v: Value, rest: string)
    requires Spells(s, x, v, rest) && rest != ""
    ensures s == Then(x, rest) && WellFormed(x) && Uncommented(x) && Meaning(x) == v
  {
  }

  /** The elements from one that starts at `s` to the closing bracket. */
  lemma {:induction false} ItemsOf(s: string, done: seq<Value>, depth: nat) returns (es: seq<Element>)
    requires SafeIn(s, depth + 1) && ParseItems(s, done).Ok?
    ensures var r := ParseItems(s, done);
      && es != [] && es[0].before == [] && ValidElements(es) && r.value == Array(done + Values(es))
      && s == ElementsThen(es, "]" + r.rest)
    decreases |s|, 3
  {
    hide ParseItems, ParseValue, SafeIn, Skip, GapThen, ElementsThen, Spells, Values, WellFormed, Uncommented, Opened, Then;
    ItemsGoOn(s, done);
    SafeValue(s, depth + 1);
    var v, after := ParseValue(s).value, ParseValue(s).rest;
    var x := ValueOf(s, depth + 1);
    var gap := GapOf(after);
    SafeSkip(after, depth + 1);
    var t := Skip(after);
    SkipShorter(after);
    SpellsBefore(s, x, v, after);
    if t[0] == ',' {
      SafeOne(t, depth + 1);
      SafeSkip(t[1..], depth + 1);
      SkipShorter(t[1..]);
      var before := GapOf(t[1..]);
      var more := ItemsOf(Skip(t[1..]), done + [v], depth);
      es := MoreElements(x, v, gap, t, before, more, ParseItems(s, done).rest);
      assert done + [v] + Values(more) == done + ([v] + Values(more));
    } else {
      es := [Element([], x, gap)];
      OneElement(x, v, gap, t);
    }
  }

  /** What `parse_array` has seen when it succeeds. */
  lemma ItemsGoOn(s: string, done: seq<Value>)
    requires ParseItems(s, done).Ok?
    ensures ParseValue(s).Ok? && |ParseValue(s).rest| < |s| && ParseValue(s).rest != ""
    ensures var v, after := ParseValue(s).value, ParseValue(s).rest;
      var t := Skip(after);
      && (At(t, 0) == ',' || At(t, 0) == ']')
      && ParseItems(s, done) == if At(t, 0) == ',' then ParseItems(Skip(t[1..]), done + [v]) else Ok(Array(done + [v]), t[1..])
  {
    hide ParseValue, Skip;
    SkipShorter(ParseValue(s).rest);
  }

  lemma OneElement(x: Syntax, v: Value, gap: Gap, t: string)
    requires WellFormed(x) && Uncommented(x) && ValidGap(gap) && BlankGap(gap) && Meaning(x) == v && t != "" && t[0] == ']'
    ensures var es := [Element([], x, gap)];
      ValidElements(es) && Values(es) == [v] && ElementsThen(es, "]" + t[1..]) == Then(x, GapThen(gap, t))
  {
    assert t == "]" + t[1..];
    hide Then, WellFormed, Uncommented, Meaning;
  }

  lemma MoreElements(x: Syntax, v: Value, gap: Gap, t: string, before: Gap, more: seq<Element>, rest: string)
    returns (es: seq<Element>)
    requires WellFormed(x) && Uncommented(x) && ValidGap(gap) && BlankGap(gap) && Meaning(x) == v && t != "" && t[0] == ','
    requires more != [] && more[0].before == [] && ValidElements(more) && ValidGap(before) && BlankGap(before)
    requires t[1..] == GapThen(before, ElementsThen(more, "]" + rest))
    ensures es != [] && es[0].before == [] && ValidElements(es) && Values(es) == [v] + Values(more)
    ensures ElementsThen(es, "]" + rest) == Then(x, GapThen(gap, t))
  {
    hide Then, WellFormed, Uncommented, Meaning, GapThen, Opened;
    var next := Opened(before, more);
    OpenedIs(before, more, "]" + rest);
    es := [Element([], x, gap)] + next;
    assert es[1..] == next && t == "," + t[1..];
    assert GapThen([], Then(x, GapThen(gap, t))) == Then(x, GapThen(gap, t)) by { NoGap(Then(x, GapThen(gap, t))); }
    hide ElementsThen;
    ElementsGrow(x, gap, next, "]" + rest);
    assert Values(es) == [v] + Values(next);
  }

  lemma NoGap(s: string)
    ensures GapThen([], s) == s
  {
  }

  lemma ElementsGrow(x: Syntax, gap: Gap, next: seq<Element>, end: string)
    requires next != []
    ensures ElementsThen([Element([], x, gap)] + next, end) == Then(x, GapThen(gap, "," + ElementsThen(next, end)))
  {
    var es := [Element([], x, gap)] + next;
    assert es[1..] == next;
    hide Then;
  }

  lemma {:induction false} RecordOf(s: string, depth: nat) returns (x: Syntax)
    requires SafeIn(s, depth) && At(s, 0) == '{' && ParseValue(s).Ok?
    ensures Spells(s, x, ParseValue(s).value, ParseValue(s).rest)
    decreases |s|, 0
  {
    hide ParseValue, SafeIn, ParseMembers, Skip, GapThen, Spells, Members, WellFormed, Uncommented, Started;
    SafeOpen(s, depth);
    ObjectOpens(s);
    SafeSkip(s[1..], depth + 1);
    var gap := GapOf(s[1..]);
    var t := Skip(s[1..]);
    SkipShorter(s[1..]);
    if At(t, 0) == '}' {
      x := Record(gap, []);
      EmptyRecord(s, gap, t);
    } else {
      var fs := MembersOf(t, [], depth);
      x := Record([], Started(gap, fs));
      FullRecord(s, gap, fs, ParseValue(s).rest);
      assert [] + Members(fs) == Members(fs);
    }
  }

  lemma EmptyRecord(s: string, gap: Gap, t: string)
    requires s != "" && s[0] == '{' && s[1..] == GapThen(gap, t) && t != "" && t[0] == '}' && ValidGap(gap) && BlankGap(gap)
    ensures Spells(s, Record(gap, []), Object([]), t[1..])
  {
    assert s == "{" + s[1..] && t == "}" + t[1..];
    assert Meaning(Record(gap, [])) == Object([]);
    hide GapThen;
  }

  lemma FullRecord(s: string, gap: Gap, fs: seq<Field>, rest: string)
    requires fs != [] && fs[0].before == [] && ValidFields(fs) && ValidGap(gap) && BlankGap(gap)
    requires s != "" && s[0] == '{' && s[1..] == GapThen(gap, FieldsThen(fs, "}" + rest))
    ensures Spells(s, Record([], Started(gap, fs)), Object(Members(fs)), rest)
  {
    hide FieldsThen, GapThen, Started, Bytes, Spelling.Valid;
    StartedIs(gap, fs, "}" + rest);
    assert s == "{" + s[1..];
    assert Members(Started(gap, fs)) == Members(fs);
    assert Meaning(Record([], Started(gap, fs))) == Object(Members(Started(gap, fs)));
  }

  /** The fields with a gap before the first, which had none. */
  function Started(gap: Gap, fs: seq<Field>): (r: seq<Field>)
    requires fs != []
    ensures |r| == |fs|
  {
    [fs[0].(before := gap)] + fs[1..]
  }

  lemma StartedIs(gap: Gap, fs: seq<Field>, end: string)
    requires fs != [] && fs[0].before == []
    ensures FieldsThen(Started(gap, fs), end) == GapThen(gap, FieldsThen(fs, end))
    ensures ValidGap(gap) && BlankGap(gap) && ValidFields(fs) ==>
      ValidFields(Started(gap, fs)) && Members(Started(gap, fs)) == Members(fs)
    ensures forall i | 0 <= i < |fs| :: Started(gap, fs)[i].value == fs[i].value && Started(gap, fs)[i].key == fs[i].key
  {
    var r := Started(gap, fs);
    assert r[1..] == fs[1..] && r[0].before == gap;
    hide Then, WellFormed, Uncommented, LiteralThen, Bytes, Spelling.Valid;
  }

  /** What `parse_object` has seen when it succeeds. */
  lemma MembersGoOn(s: string, done: seq<Member>)
    requires ParseMembers(s, done).Ok?
    ensures At(s, 0) == '\"' && ParseString(s).Ok? && |ParseString(s).rest| < |s| && ParseString(s).rest != ""
    ensures var colon := Skip(ParseString(s).rest);
      && At(colon, 0) == ':'
      && var value := Skip(colon[1..]);
         && |value| < |s| && ParseValue(value).Ok? && ParseValue(value).rest != "" && |ParseValue(value).rest| < |s|
         && var t, now := Skip(ParseValue(value).rest), done + [Member(ParseString(s).value, ParseValue(value).value)];
            && (At(t, 0) == ',' || At(t, 0) == '}')
            && ParseMembers(s, done) == if At(t, 0) == ',' then ParseMembers(Skip(t[1..]), now) else Ok(Object(now), t[1..])
  {
    hide ParseValue, Skip, CountPass, Decode;
    SkipNone();
    SkipShorter(ParseString(s).rest);
    SkipShorter(Skip(ParseString(s).rest)[1..]);
  }

  lemma SkipNone()
    ensures Skip("") == ""
  {
  }

  /** The field that starts at `s`, up to the comma or the brace after it. */
  lemma {:induction false} FieldOf(s: string, done: seq<Member>, depth: nat) returns (f: Field)
    requires SafeIn(s, depth + 1) && ParseMembers(s, done).Ok?
    ensures ParseString(s).Ok?
    ensures var value := Skip(Skip(ParseString(s).rest)[if Skip(ParseString(s).rest) == "" then 0 else 1..]);
      && ParseValue(value).Ok?
      && var t := Skip(ParseValue(value).rest);
         && f.before == [] && ValidField(f) && Member(Bytes(f.key), Meaning(f.value)) == Member(ParseString(s).value, ParseValue(value).value)
         && s == LiteralThen(f.key, GapThen(f.colon, ":" + GapThen(f.start, Then(f.value, GapThen(f.after, t)))))
         && |t| < |s| && SafeIn(t, depth + 1)
    decreases |s|, 2
  {
    hide ParseMembers, ParseValue, ParseString, SafeIn, Skip, GapThen, Spells, WellFormed, Uncommented, Then, LiteralThen, Bytes, Spelling.Valid, Body;
    MembersGoOn(s, done);
    SafeLiteral(s, depth + 1);
    SafeString(s, depth + 1);
    var key := LiteralOf(s);
    var afterKey := ParseString(s).rest;
    var colonGap := GapOf(afterKey);
    SafeSkip(afterKey, depth + 1);
    var colon := Skip(afterKey);
    SafeOne(colon, depth + 1);
    var startGap := GapOf(colon[1..]);
    SafeSkip(colon[1..], depth + 1);
    var value := Skip(colon[1..]);
    SafeValue(value, depth + 1);
    var x := ValueOf(value, depth + 1);
    var after := ParseValue(value).rest;
    SpellsBefore(value, x, ParseValue(value).value, after);
    var gap := GapOf(after);
    SafeSkip(after, depth + 1);
    SkipShorter(after);
    assert colon == ":" + colon[1..];
    f := Field([], key, colonGap, startGap, x, gap);
  }

  /** The fields from one that starts at `s` to the closing brace. */
  lemma {:induction false} MembersOf(s: string, done: seq<Member>, depth: nat) returns (fs: seq<Field>)
    requires SafeIn(s, depth + 1) && ParseMembers(s, done).Ok?
    ensures var r := ParseMembers(s, done);
      && fs != [] && fs[0].before == [] && ValidFields(fs) && r.value == Object(done + Members(fs))
      && s == FieldsThen(fs, "}" + r.rest)
    decreases |s|, 3
  {
    hide ParseMembers, ParseValue, ParseString, SafeIn, Skip, GapThen, FieldsThen, Members, WellFormed, Uncommented, Started, Then, LiteralThen, Bytes, Spelling.Valid;
    MembersGoOn(s, done);
    var f := FieldOf(s, done, depth);
    var t := Skip(ParseValue(Skip(Skip(ParseString(s).rest)[1..])).rest);
    var m := Member(Bytes(f.key), Meaning(f.value));
    if t[0] == ',' {
      SafeOne(t, depth + 1);
      SafeSkip(t[1..], depth + 1);
      SkipShorter(t[1..]);
      var before := GapOf(t[1..]);
      var more := MembersOf(Skip(t[1..]), done + [m], depth);
      fs := MoreFields(f, t, before, more, ParseMembers(s, done).rest);
      assert done + [m] + Members(more) == done + ([m] + Members(more));
    } else {
      fs := [f];
      OneField(f, t);
    }
  }

  lemma OneField(f: Field, t: string)
    requires f.before == [] && ValidField(f) && t != "" && t[0] == '}'
    ensures ValidFields([f]) && Members([f]) == [Member(Bytes(f.key), Meaning(f.value))]
    ensures FieldsThen([f], "}" + t[1..]) == LiteralThen(f.key, GapThen(f.colon, ":" + GapThen(f.start, Then(f.value, GapThen(f.after, t)))))
  {
    assert t == "}" + t[1..];
    hide Then, WellFormed, Uncommented, Meaning, LiteralThen, Bytes, Spelling.Valid;
  }

  lemma MoreFields(f: Field, t: string, before: Gap, more: seq<Field>, rest: string) returns (fs: seq<Field>)
    requires f.before == [] && ValidField(f) && t != "" && t[0] == ','
    requires more != [] && more[0].before == [] && ValidFields(more) && ValidGap(before) && BlankGap(before)
    requires t[1..] == GapThen(before, FieldsThen(more, "}" + rest))
    ensures fs != [] && fs[0].before == [] && ValidFields(fs) && Members(fs) == [Member(Bytes(f.key), Meaning(f.value))] + Members(more)
    ensures FieldsThen(fs, "}" + rest) == LiteralThen(f.key, GapThen(f.colon, ":" + GapThen(f.start, Then(f.value, GapThen(f.after, t)))))
  {
    hide Then, WellFormed, Uncommented, Meaning, GapThen, Started, LiteralThen, Bytes, Spelling.Valid;
    var next := Started(before, more);
    StartedIs(before, more, "}" + rest);
    fs := [f] + next;
    assert fs[1..] == next && t == "," + t[1..];
    hide FieldsThen;
    FieldsGrow(f, next, "}" + rest);
    assert Members(fs) == [Member(Bytes(f.key), Meaning(f.value))] + Members(next);
  }

  lemma FieldsGrow(f: Field, next: seq<Field>, end: string)
    requires next != [] && f.before == []
    ensures FieldsThen([f] + next, end)
         == LiteralThen(f.key, GapThen(f.colon, ":" + GapThen(f.start, Then(f.value, GapThen(f.after, "," + FieldsThen(next, end))))))
  {
    var fs := [f] + next;
    assert fs[1..] == next;
    hide Then, LiteralThen;
  }

  // ----------------------------------------------------------- both directions

  lemma SpellsParsed(s: string, x: Syntax, v: Value, rest: string)
    requires Spells(s, x, v, rest)
    ensures ParseValue(s) == Ok(v, rest)
  {
    hide ParseValue, Meaning, Then, EndsBefore, Body, WellFormed, Uncommented;
    if s == Then(x, rest) {
      ValueSpelled(x, rest);
    } else {
      UnclosedParsed(x);
    }
  }

  lemma UnclosedParsed(x: Syntax)
    requires x.Quoted? && WellFormed(x)
    ensures ParseValue("\"" + Body(x.ps)) == Ok(Meaning(x), "")
  {
    hide ParseString, Body, Bytes, Spelling.Valid;
    SpelledString(x.ps, "");
    assert "\"" + Body(x.ps) + "" == "\"" + Body(x.ps);
    StringValue("\"" + Body(x.ps));
  }

  /** `parse_value` of a safe text returns a value and a cursor if and only if the text up to the cursor
      is a spelling of the value. */
  lemma ParserIsGrammar(s: string, v: Value, rest: string)
    requires SafeIn(s, 0)
    ensures ParseValue(s) == Ok(v, rest) <==> exists x :: Spells(s, x, v, rest)
  {
    hide Spells, ParseValue, SafeIn;
    if ParseValue(s) == Ok(v, rest) {
      var x := ValueOf(s, 0);
      assert Spells(s, x, v, rest);
    }
    if x :| Spells(s, x, v, rest) { SpellsParsed(s, x, v, rest); }
  }
}
