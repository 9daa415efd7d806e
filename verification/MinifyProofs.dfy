/** A minified text means what the text did, and minifying formatted output gives unformatted output. */
module MinifyProofs {
  import opened CText
  import opened Literal
  import opened LiteralProofs
  import opened Json
  import opened RoundTrip
  import opened Minifier
  import opened Safety

  /** A byte other than the ones the loop treats specially. */
  predicate Kept(c: char) {
    !Stripped(c) && c != '/' && c != '\"'
  }

  lemma KeepByte(s: string)
    requires s != "" && Kept(s[0])
    ensures Minify(s) == [s[0]] + Minify(s[1..]) && Minify(s) != "" && Minify(s)[0] == s[0] && Minify(s)[1..] == Minify(s[1..])
    ensures WellQuoted(s) == WellQuoted(s[1..]) && Minifiable(s) == Minifiable(s[1..])
  {
    hide CountPass, CompleteEscapes, LineEnd, BlockEnd;
    assert Turn(s) == Some(([s[0]], s[1..]));
  }

  lemma StripByte(s: string)
    requires s != "" && Stripped(s[0])
    ensures Minify(s) == Minify(s[1..]) && WellQuoted(s) == WellQuoted(s[1..]) && Minifiable(s) == Minifiable(s[1..])
  {
    hide CountPass, CompleteEscapes, LineEnd, BlockEnd;
    assert Turn(s) == Some(("", s[1..]));
    assert "" + Minify(s[1..]) == Minify(s[1..]);
  }

  /** A literal is kept byte for byte. */
  lemma KeepLiteral(s: string)
    requires s != "" && s[0] == '\"' && WellQuoted(s)
    ensures CompleteEscapes(s[1..]) && CountPass(s[1..]).Ok? && CountPass(s[1..]).rest != ""
    ensures var k := ClosedAt(s[1..]);
      Minify(s) == "\"" + (s[1..][..k] + Minify(s[1..][k..])) && WellQuoted(s[1..][k..])
  {
    hide CountPass, CompleteEscapes;
    var body := s[1..];
    var k := ClosedAt(body);
    var q := CountPass(body).rest;
    assert |s| - |q| + 1 == k + 1;
    assert q[1..] == body[k..];
    assert Turn(s) == Some((s[..k + 1], body[k..]));
    assert s[..k + 1] == "\"" + body[..k];
    Assoc("\"", body[..k], Minify(body[k..]));
  }

  // ------------------------------------------------ the parser after minifying

  /** What may follow a value in a text that parses. */
  predicate Separator(c: char) {
    c == '\0' || c == ',' || c == ']' || c == '}'
  }

  /** A byte that extends no number. */
  predicate Ends(c: char) {
    !IsDigit(c) && c != '.' && c != 'e' && c != 'E' && c != '+' && c != '-'
  }

  /** Blanks before a token are stripped or stay blanks. */
  lemma {:induction false} SkipMinify(s: string)
    requires WellQuoted(s) && At(Skip(s), 0) != '/'
    ensures WellQuoted(Skip(s)) && Skip(Minify(s)) == Minify(Skip(s))
    decreases |s|
  {
    hide WellQuoted, Turn, Minify;
    if s == "" {
      MinifyEmpty();
    } else if Stripped(s[0]) {
      StripByte(s);
      SkipMinify(s[1..]);
    } else if IsBlank(s[0]) {
      KeepByte(s);
      SkipMinify(s[1..]);
    } else {
      MinifyFirst(s);
      SkipStops(s);
      SkipStops(Minify(s));
    }
  }

  lemma MinifyEmpty()
    ensures Minify("") == "" && WellQuoted("")
  {
  }

  /** The first byte of a token stays. */
  lemma MinifyFirst(s: string)
    requires s != "" && WellQuoted(s) && !Stripped(s[0]) && s[0] != '/'
    ensures Minify(s) != "" && Minify(s)[0] == s[0]
  {
    if s[0] == '\"' { KeepLiteral(s); } else { KeepByte(s); }
  }

  /** After minifying too, what follows a value cannot extend a number. */
  lemma {:induction false} SeparatorMinify(s: string)
    requires WellQuoted(s) && Separator(At(Skip(s), 0))
    ensures Ends(At(Minify(s), 0))
    decreases |s|
  {
    hide WellQuoted, Turn, Minify;
    if s == "" {
      MinifyEmpty();
    } else if Stripped(s[0]) {
      StripByte(s);
      SeparatorMinify(s[1..]);
    } else {
      MinifyFirst(s);
    }
  }

  lemma {:induction false} DigitsMinify(s: string, acc: nat)
    requires WellQuoted(s) && !IsDigit(At(Minify(Digits(s, acc).2), 0))
    ensures var (n, k, rest) := Digits(s, acc); WellQuoted(rest) && Digits(Minify(s), acc) == (n, k, Minify(rest))
    decreases |s|
  {
    hide WellQuoted, Turn, Minify;
    if s != "" && IsDigit(s[0]) {
      KeepByte(s);
      DigitsMinify(s[1..], acc * 10 + DigitValue(s[0]));
    }
  }

  /** Where one part of a number ends and, if the number goes on, another begins. */
  ghost predicate Boundary(s: string, rest: string) {
    WellQuoted(s) ==> if s == rest then Ends(At(Minify(s), 0)) else At(s, 0) in ".eE"
  }

  lemma BoundaryKept(s: string, rest: string)
    requires WellQuoted(s) && Boundary(s, rest)
    ensures !IsDigit(At(Minify(s), 0))
    ensures At(Minify(s), 0) in ".eE" ==> s != "" && Kept(s[0]) && At(Minify(s), 0) == s[0]
    ensures s != rest ==> At(Minify(s), 0) == s[0]
  {
    if s != rest { KeepByte(s); }
  }

  lemma ExponentMinify(s: string)
    requires WellQuoted(s) && Boundary(s, Exponent(s).1) && Ends(At(Minify(Exponent(s).1), 0))
    ensures var (e, rest) := Exponent(s); WellQuoted(rest) && Exponent(Minify(s)) == (e, Minify(rest))
  {
    hide WellQuoted, Turn, Minify, Digits;
    if At(s, 0) == 'e' || At(s, 0) == 'E' {
      KeepByte(s);
      var t := s[1..];
      if At(t, 0) == '+' || At(t, 0) == '-' {
        KeepByte(t);
        DigitsMinify(t[1..], 0);
      } else {
        DigitsMinify(t, 0);
        DigitsStop(t);
        if Digits(t, 0).2 != t { KeepByte(t); }
      }
    } else {
      BoundaryKept(s, s);
    }
  }

  lemma DigitsStop(s: string)
    ensures Digits(s, 0).2 == s || IsDigit(At(s, 0))
  {
  }

  lemma FractionMinify(s: string, n: nat, rest: string)
    requires WellQuoted(s) && Boundary(s, rest) && Boundary(Fraction(s, n).2, rest)
    requires Fraction(s, n).2 == s ==> s == rest || At(s, 0) in "eE"
    ensures var (m, places, t) := Fraction(s, n);
      WellQuoted(t) && Fraction(Minify(s), n) == (m, places, Minify(t))
  {
    hide WellQuoted, Turn, Minify, Digits;
    if At(s, 0) == '.' && IsDigit(At(s, 1)) {
      KeepByte(s);
      KeepByte(s[1..]);
      var t := Fraction(s, n).2;
      DigitsWellQuoted(s[1..], n);
      BoundaryKept(t, rest);
      DigitsMinify(s[1..], n);
    } else {
      BoundaryKept(s, rest);
    }
  }

  lemma {:induction false} DigitsWellQuoted(s: string, acc: nat)
    requires WellQuoted(s)
    ensures WellQuoted(Digits(s, acc).2)
    decreases |s|
  {
    hide WellQuoted, Turn, Minify;
    if s != "" && IsDigit(s[0]) {
      KeepByte(s);
      DigitsWellQuoted(s[1..], acc * 10 + DigitValue(s[0]));
    }
  }

  lemma WholePartMinify(s: string, rest: string)
    requires WellQuoted(s) && Boundary(WholePart(s).1, rest)
    ensures var (n, t) := WholePart(s); WellQuoted(t) && WholePart(Minify(s)) == (n, Minify(t))
  {
    hide WellQuoted, Turn, Minify, Digits;
    if At(s, 0) == '0' { KeepByte(s); }
    var t := if At(s, 0) == '0' then s[1..] else s;
    if '1' <= At(t, 0) <= '9' {
      KeepByte(t);
      DigitsWellQuoted(t, 0);
      BoundaryKept(Digits(t, 0).2, rest);
      DigitsMinify(t, 0);
    } else {
      BoundaryKept(t, rest);
    }
  }

  /** A number after its sign: mantissa, exponent and what follows. */
  function Unsigned(s: string): (nat, int, string) {
    var (n0, s1) := WholePart(s);
    var (n, places, s2) := Fraction(s1, n0);
    var (e, rest) := Exponent(s2);
    (n, e - places, rest)
  }

  lemma SignAndUnsigned(s: string)
    ensures var (n, e, rest) := Unsigned(if At(s, 0) == '-' then s[1..] else s);
      ParseNumber(s) == (Number(if At(s, 0) == '-' then 0 - n else n, e), rest)
  {
    hide WholePart, Fraction, Exponent;
  }

  /** `parse_number` reads the same number before and after minifying. */
  lemma NumberMinify(s: string)
    requires WellQuoted(s) && (At(s, 0) == '-' || IsDigit(At(s, 0)))
    requires Ends(At(Minify(ParseNumber(s).1), 0))
    ensures var (v, rest) := ParseNumber(s); WellQuoted(rest) && ParseNumber(Minify(s)) == (v, Minify(rest))
  {
    hide WellQuoted, Minify, Unsigned, ParseNumber;
    KeepByte(s);
    SignAndUnsigned(s);
    SignAndUnsigned(Minify(s));
    UnsignedMinify(if At(s, 0) == '-' then s[1..] else s);
  }

  lemma UnsignedMinify(s: string)
    requires WellQuoted(s) && Ends(At(Minify(Unsigned(s).2), 0))
    ensures var (n, e, rest) := Unsigned(s); WellQuoted(rest) && Unsigned(Minify(s)) == (n, e, Minify(rest))
  {
    hide WellQuoted, Minify, WholePart, Fraction, Exponent, Boundary;
    var (n0, s1) := WholePart(s);
    var (n, places, s2) := Fraction(s1, n0);
    var (e, rest) := Exponent(s2);
    NumberBoundaries(s);
    WholePartMinify(s, rest);
    FractionMinify(s1, n0, rest);
    ExponentMinify(s2);
  }

  /** The parts of a number meet at boundaries. */
  lemma NumberBoundaries(s: string)
    ensures var (n0, s1) := WholePart(s);
      var (n, places, s2) := Fraction(s1, n0);
      var rest := Exponent(s2).1;
      Ends(At(Minify(rest), 0)) ==>
        && Boundary(s1, rest) && Boundary(s2, rest) && (s2 == s1 ==> s1 == rest || At(s1, 0) in "eE")
        && Boundary(s2, Exponent(s2).1)
  {
    hide WellQuoted, Minify, WholePart, Digits;
  }

  lemma NumberWellQuoted(s: string)
    requires WellQuoted(s) && (At(s, 0) == '-' || IsDigit(At(s, 0)))
    ensures WellQuoted(ParseNumber(s).1)
  {
    hide WellQuoted, Minify, WholePart, Fraction, Exponent;
    KeepByte(s);
    var s0 := if At(s, 0) == '-' then s[1..] else s;
    WholeWellQuoted(s0);
    var (n0, s1) := WholePart(s0);
    FractionWellQuoted(s1, n0);
    ExponentWellQuoted(Fraction(s1, n0).2);
  }

  lemma WholeWellQuoted(s: string)
    requires WellQuoted(s)
    ensures WellQuoted(WholePart(s).1)
  {
    hide WellQuoted, Minify, Digits;
    if At(s, 0) == '0' { KeepByte(s); }
    DigitsWellQuoted(if At(s, 0) == '0' then s[1..] else s, 0);
  }

  lemma FractionWellQuoted(s: string, n: nat)
    requires WellQuoted(s)
    ensures WellQuoted(Fraction(s, n).2)
  {
    hide WellQuoted, Minify, Digits;
    if At(s, 0) == '.' {
      KeepByte(s);
      DigitsWellQuoted(s[1..], n);
    }
  }

  lemma ExponentWellQuoted(s: string)
    requires WellQuoted(s)
    ensures WellQuoted(Exponent(s).1)
  {
    hide WellQuoted, Minify, Digits;
    if At(s, 0) == 'e' || At(s, 0) == 'E' {
      KeepByte(s);
      DigitsWellQuoted(s[1..], 0);
      if At(s[1..], 0) == '+' || At(s[1..], 0) == '-' {
        KeepByte(s[1..]);
        DigitsWellQuoted(s[1..][1..], 0);
      }
    }
  }

  // ------------------------------------------------------- values and texts

  lemma StringMinify(s: string)
    requires WellQuoted(s) && ParseString(s).Ok?
    ensures WellQuoted(ParseString(s).rest)
    ensures ParseString(Minify(s)) == Ok(ParseString(s).value, Minify(ParseString(s).rest))
  {
    KeepLiteral(s);
    var body := s[1..];
    var k := ClosedAt(body);
    var r := Minify(body[k..]);
    SecondPassFits(body);
    LiteralIsLocal(body, r);
    CountIsLocal(body, r);
    assert CountPass(body).rest[1..] == body[k..];
    assert Minify(s)[1..] == body[..k] + r;
  }

  /** A word with no special byte is kept. */
  lemma {:induction false} WordMinify(word: string, s: string)
    requires word <= s && forall i | 0 <= i < |word| :: Kept(word[i])
    ensures Minify(s) == word + Minify(s[|word|..]) && WellQuoted(s) == WellQuoted(s[|word|..])
    decreases |word|
  {
    hide WellQuoted, Turn, Minify;
    if word != "" {
      KeepByte(s);
      WordMinify(word[1..], s[1..]);
      assert s[1..][|word| - 1..] == s[|word|..];
      assert word == [s[0]] + word[1..];
    } else {
      assert s[0..] == s;
    }
  }

  /** The parser's view of a value in a minified text, up to what follows the value. */
  lemma {:induction false} ValueMinify(s: string)
    requires WellQuoted(s) && ParseValue(s).Ok? && Separator(At(Skip(ParseValue(s).rest), 0))
    ensures WellQuoted(ParseValue(s).rest)
    ensures ParseValue(Minify(s)) == Ok(ParseValue(s).value, Minify(ParseValue(s).rest))
    decreases |s|, 1
  {
    hide WellQuoted, Minify, Skip, ParseValue, ParseArray, ParseObject, ParseNumber, ParseString;
    ValueKind(s);
    MinifyFirst(s);
    if At(s, 0) == '\"' {
      StringValue(s);
      StringMinify(s);
      KeepLiteral(s);
      StringValue(Minify(s));
    } else if At(s, 0) == '-' || IsDigit(At(s, 0)) {
      NumberValueIs(s);
      NumberWellQuoted(s);
      SeparatorMinify(ParseNumber(s).1);
      NumberMinify(s);
      NumberValueIs(Minify(s));
    } else if At(s, 0) == '[' {
      BracketValue(s);
      ArrayMinify(s);
      BracketValue(Minify(s));
    } else if At(s, 0) == '{' {
      BracketValue(s);
      ObjectMinify(s);
      BracketValue(Minify(s));
    } else {
      ConstantMinify(s);
      ConstantValue(s);
      ConstantValue(Minify(s));
    }
  }

  lemma ConstantMinify(s: string)
    requires WellQuoted(s)
    ensures "null" <= s ==> WellQuoted(s[4..]) && Minify(s) == "null" + Minify(s[4..]) && Minify(s)[4..] == Minify(s[4..])
    ensures "false" <= s ==> WellQuoted(s[5..]) && Minify(s) == "false" + Minify(s[5..]) && Minify(s)[5..] == Minify(s[5..])
    ensures "true" <= s ==> WellQuoted(s[4..]) && Minify(s) == "true" + Minify(s[4..]) && Minify(s)[4..] == Minify(s[4..])
  {
    hide WellQuoted, Turn, Minify;
    if "null" <= s { WordMinify("null", s); }
    if "false" <= s { WordMinify("false", s); }
    if "true" <= s { WordMinify("true", s); }
  }

  lemma {:induction false} ArrayMinify(s: string)
    requires WellQuoted(s) && At(s, 0) == '[' && ParseArray(s).Ok?
    ensures WellQuoted(ParseArray(s).rest)
    ensures At(Minify(s), 0) == '[' && ParseArray(Minify(s)) == Ok(ParseArray(s).value, Minify(ParseArray(s).rest))
    decreases |s|, 0
  {
    hide WellQuoted, Turn, Minify, Skip, ParseValue, ParseItems;
    KeepByte(s);
    var t := Skip(s[1..]);
    if At(t, 0) == ']' {
      SkipMinify(s[1..]);
      KeepByte(t);
    } else {
      FirstItem(t, []);
      SkipMinify(s[1..]);
      MinifyFirst(t);
      ItemsMinify(t, []);
    }
  }

  lemma FirstItem(t: string, done: seq<Value>)
    requires ParseItems(t, done).Ok?
    ensures ParseValue(t).Ok? && t != "" && !IsBlank(t[0]) && t[0] !in "/]},"
  {
    ValueKind(t);
  }

  lemma {:induction false} ItemsMinify(s: string, done: seq<Value>)
    requires WellQuoted(s) && ParseItems(s, done).Ok?
    ensures WellQuoted(ParseItems(s, done).rest)
    ensures ParseItems(Minify(s), done) == Ok(ParseItems(s, done).value, Minify(ParseItems(s, done).rest))
    decreases |s|, 2
  {
    hide WellQuoted, Turn, Minify, Skip, ParseValue;
    FirstItem(s, done);
    var v, after := ParseValue(s).value, ParseValue(s).rest;
    var t := Skip(after);
    ValueMinify(s);
    SkipMinify(after);
    KeepByte(t);
    if At(t, 0) == ',' {
      FirstItem(Skip(t[1..]), done + [v]);
      SkipMinify(t[1..]);
      ItemsMinify(Skip(t[1..]), done + [v]);
    }
  }

  lemma {:induction false} ObjectMinify(s: string)
    requires WellQuoted(s) && At(s, 0) == '{' && ParseObject(s).Ok?
    ensures WellQuoted(ParseObject(s).rest)
    ensures At(Minify(s), 0) == '{' && ParseObject(Minify(s)) == Ok(ParseObject(s).value, Minify(ParseObject(s).rest))
    decreases |s|, 0
  {
    hide WellQuoted, Turn, Minify, Skip, ParseValue, ParseMembers;
    KeepByte(s);
    var t := Skip(s[1..]);
    if At(t, 0) == '}' {
      SkipMinify(s[1..]);
      KeepByte(t);
    } else {
      FirstMember(t, []);
      SkipMinify(s[1..]);
      MinifyFirst(t);
      MembersMinify(t, []);
    }
  }

  lemma FirstMember(t: string, done: seq<Member>)
    requires ParseMembers(t, done).Ok?
    ensures ParseString(t).Ok? && At(t, 0) == '\"' && At(Skip(ParseString(t).rest), 0) == ':'
    ensures ParseValue(Skip(Skip(ParseString(t).rest)[1..])).Ok?
  {
    hide ParseValue, Skip;
  }

  lemma {:induction false} MembersMinify(s: string, done: seq<Member>)
    requires WellQuoted(s) && ParseMembers(s, done).Ok?
    ensures WellQuoted(ParseMembers(s, done).rest)
    ensures ParseMembers(Minify(s), done) == Ok(ParseMembers(s, done).value, Minify(ParseMembers(s, done).rest))
    decreases |s|, 2
  {
    hide WellQuoted, Turn, Minify, Skip, ParseValue, ParseString;
    FirstMember(s, done);
    StringMinify(s);
    var key, afterKey := ParseString(s).value, ParseString(s).rest;
    var colon := Skip(afterKey);
    SkipMinify(afterKey);
    KeepByte(colon);
    var at := Skip(colon[1..]);
    ValueKind(at);
    SkipMinify(colon[1..]);
    var v, after := ParseValue(at).value, ParseValue(at).rest;
    var t := Skip(after);
    ValueMinify(at);
    SkipMinify(after);
    KeepByte(t);
    if At(t, 0) == ',' {
      FirstMember(Skip(t[1..]), done + [Member(key, v)]);
      SkipMinify(t[1..]);
      MembersMinify(Skip(t[1..]), done + [Member(key, v)]);
    }
  }

  /** Minifying preserves meaning: a text that parses to its end still does, to the same value. */
  lemma MinifyPreservesMeaning(s: string, v: Value)
    requires WellQuoted(s) && ParseText(s, true) == Ok(v, "")
    ensures ParseText(Minify(s), true) == Ok(v, "")
  {
    hide WellQuoted, Turn, Minify, Skip, ParseValue;
    var start := Skip(s);
    ValueKind(start);
    SkipMinify(s);
    ValueMinify(start);
    SkipMinify(ParseValue(start).rest);
    MinifyEmpty();
  }

  // -------------------------------------------- formatted becomes unformatted

  lemma WordMinified(word: string, rest: string)
    requires forall i | 0 <= i < |word| :: Kept(word[i])
    ensures Minify(word + rest) == word + Minify(rest) && WellQuoted(word + rest) == WellQuoted(rest)
  {
    hide WellQuoted, Turn, Minify;
    WordMinify(word, word + rest);
    assert (word + rest)[|word|..] == rest;
  }

  lemma {:induction false} BlanksMinified(blanks: string, rest: string)
    requires forall i | 0 <= i < |blanks| :: Stripped(blanks[i])
    ensures Minify(blanks + rest) == Minify(rest) && WellQuoted(blanks + rest) == WellQuoted(rest)
    decreases |blanks|
  {
    hide WellQuoted, Turn, Minify;
    if blanks == "" {
      assert blanks + rest == rest;
    } else {
      StripByte(blanks + rest);
      BlanksMinified(blanks[1..], rest);
      assert (blanks + rest)[1..] == blanks[1..] + rest;
    }
  }

  lemma LiteralTurnTaken(t: string, rest: string)
    requires CString(t)
    ensures var s := Quote(t) + rest; s != "" && s[0] == '\"' && CompleteEscapes(s[1..]) && Turn(s) == Some((Quote(t), rest))
  {
    hide Escape, CompleteEscapes, CountPass, Turn, CString;
    EscapeTaken(t, rest);
    var s := Quote(t) + rest;
    FirstAndRest("\"", Escape(t) + "\"" + rest);
    Assoc("\"", Escape(t), "\"");
    Assoc("\"", Escape(t) + "\"", rest);
    FirstAndRest("\"", rest);
    TakenPrefix(Quote(t), rest);
    QuoteTurn(s);
  }

  /** The turn at a closed literal. */
  lemma QuoteTurn(s: string)
    requires s != "" && s[0] == '\"' && CountPass(s[1..]).Ok? && CountPass(s[1..]).rest != ""
    ensures var q := CountPass(s[1..]).rest; Turn(s) == Some((s[..|s| - |q| + 1], q[1..]))
  {
    hide CountPass, LineEnd, BlockEnd;
  }

  lemma TakenPrefix(a: string, rest: string)
    ensures (a + rest)[..|a + rest| - |"\"" + rest| + 1] == a
  {
  }

  lemma LiteralMinified(t: string, rest: string)
    requires CString(t) && WellQuoted(rest)
    ensures WellQuoted(Quote(t) + rest) && Minify(Quote(t) + rest) == Quote(t) + Minify(rest)
  {
    LiteralTurnTaken(t, rest);
    hide Turn, Quote, CString, CompleteEscapes;
  }

  lemma NumberMinified(n: int, rest: string)
    ensures Minify(PrintInt(n) + rest) == PrintInt(n) + Minify(rest)
    ensures WellQuoted(PrintInt(n) + rest) == WellQuoted(rest)
  {
    hide Decimal;
    DecimalDenotes(if n < 0 then -n else n);
    WordMinified(PrintInt(n), rest);
  }

  lemma {:induction false} TabsStripped(n: nat)
    ensures forall i | 0 <= i < |Tabs(n)| :: Stripped(Tabs(n)[i])
  {
    if n > 0 { TabsStripped(n - 1); }
  }

  /** The minified formatted text of a value, whatever follows, is its unformatted text. */
  lemma {:induction false} PrintMinify(v: Value, depth: nat, fmt: bool, depth': nat, rest: string)
    requires Printable(v) && WellQuoted(rest)
    ensures WellQuoted(Print(v, depth, fmt) + rest)
    ensures Minify(Print(v, depth, fmt) + rest) == Print(v, depth', false) + Minify(rest)
    decreases v, 1
  {
    hide WellQuoted, Turn, Minify;
    match v
    case Null => WordMinified("null", rest);
    case False => WordMinified("false", rest);
    case True => WordMinified("true", rest);
    case Number(m, _) => NumberMinified(m, rest);
    case Str(t) => LiteralMinified(t, rest);
    case Array(items) =>
      WordMinified("]", rest);
      ItemsPrintMinify(items, depth, fmt, depth', "]" + rest);
      WordMinified("[", PrintItems(items, depth, fmt) + ("]" + rest));
      Assoc3("[", PrintItems(items, depth, fmt), "]", rest);
      Assoc3("[", PrintItems(items, depth', false), "]", Minify(rest));
    case Object(ms) => ObjectPrintMinify(ms, depth, fmt, depth', rest);
  }

  lemma Assoc3(a: string, b: string, c: string, d: string)
    ensures a + b + c + d == a + (b + (c + d))
  {
    Assoc(a + b, c, d);
    Assoc(a, b, c + d);
  }

  lemma {:induction false} ItemsPrintMinify(items: seq<Value>, depth: nat, fmt: bool, depth': nat, rest: string)
    requires (forall i | 0 <= i < |items| :: Printable(items[i])) && WellQuoted(rest)
    ensures WellQuoted(PrintItems(items, depth, fmt) + rest)
    ensures Minify(PrintItems(items, depth, fmt) + rest) == PrintItems(items, depth', false) + Minify(rest)
    decreases items, 0
  {
    hide WellQuoted, Turn, Minify, Print, Printable;
    if items == [] {
      assert PrintItems(items, depth, fmt) + rest == rest;
      assert PrintItems(items, depth', false) + Minify(rest) == Minify(rest);
    } else if |items| == 1 {
      PrintMinify(items[0], depth + 1, fmt, depth' + 1, rest);
    } else {
      var more := PrintItems(items[1..], depth, fmt) + rest;
      ItemsPrintMinify(items[1..], depth, fmt, depth', rest);
      if fmt { BlanksMinified(" ", more); } else { assert "" + more == more; }
      var gap := if fmt then " " else "";
      WordMinified(",", gap + more);
      assert (if fmt then ", " else ",") == "," + gap && "," == "," + "";
      PrintMinify(items[0], depth + 1, fmt, depth' + 1, "," + (gap + more));
      ItemsAssoc(Print(items[0], depth + 1, fmt), gap, PrintItems(items[1..], depth, fmt), rest);
      var more' := PrintItems(items[1..], depth', false) + Minify(rest);
      ItemsAssoc(Print(items[0], depth' + 1, false), "", PrintItems(items[1..], depth', false), Minify(rest));
      assert "" + more' == more';
    }
  }

  lemma ItemsAssoc(p: string, gap: string, more: string, rest: string)
    ensures p + ("," + gap) + more + rest == p + ("," + (gap + (more + rest)))
  {
    Assoc(p + ("," + gap), more, rest);
    Assoc(p, "," + gap, more + rest);
    Assoc(",", gap, more + rest);
  }

  lemma {:induction false} ObjectPrintMinify(ms: seq<Member>, depth: nat, fmt: bool, depth': nat, rest: string)
    requires (forall i | 0 <= i < |ms| :: CString(ms[i].key) && Printable(ms[i].value)) && WellQuoted(rest)
    ensures WellQuoted(Print(Object(ms), depth, fmt) + rest)
    ensures Minify(Print(Object(ms), depth, fmt) + rest) == Print(Object(ms), depth', false) + Minify(rest)
    decreases ms, 1
  {
    hide WellQuoted, Turn, Minify, Printable, PrintMembers, CString;
    var open, tabs := if fmt then "\n" else "", Indent(depth, fmt);
    var close := tabs + ("}" + rest);
    var body := PrintMembers(ms, depth, fmt) + close;
    TabsStripped(depth);
    WordMinified("}", rest);
    BlanksMinified(tabs, "}" + rest);
    MembersPrintMinify(ms, depth, fmt, depth', close);
    BlanksMinified(open, body);
    WordMinified("{", open + body);
    ObjectAssoc(open, PrintMembers(ms, depth, fmt), tabs, rest);
    assert Print(Object(ms), depth, fmt) + rest == "{" + (open + body);
    var end := "}" + Minify(rest);
    ObjectAssoc("", PrintMembers(ms, depth', false), "", Minify(rest));
    assert "" + end == end && "" + (PrintMembers(ms, depth', false) + end) == PrintMembers(ms, depth', false) + end;
    assert Print(Object(ms), depth', false) + Minify(rest) == "{" + (PrintMembers(ms, depth', false) + end);
  }

  lemma {:induction false} MembersPrintMinify(ms: seq<Member>, depth: nat, fmt: bool, depth': nat, rest: string)
    requires (forall i | 0 <= i < |ms| :: CString(ms[i].key) && Printable(ms[i].value)) && WellQuoted(rest)
    ensures WellQuoted(PrintMembers(ms, depth, fmt) + rest)
    ensures Minify(PrintMembers(ms, depth, fmt) + rest) == PrintMembers(ms, depth', false) + Minify(rest)
    decreases ms, 0
  {
    hide WellQuoted, Turn, Minify, Print, Printable, CString;
    if ms == [] {
      assert PrintMembers(ms, depth, fmt) + rest == rest;
      assert PrintMembers(ms, depth', false) + Minify(rest) == Minify(rest);
    } else {
      MembersPrintMinify(ms[1..], depth, fmt, depth', rest);
      var more, last := PrintMembers(ms[1..], depth, fmt) + rest, |ms| == 1;
      MemberEndMinified(last, fmt, more);
      PrintMinify(ms[0].value, depth + 1, fmt, depth' + 1, MemberEnd(last, fmt) + more);
      var p := Print(ms[0].value, depth + 1, fmt) + (MemberEnd(last, fmt) + more);
      ColonMinified(fmt, p);
      LiteralMinified(ms[0].key, Colon(fmt) + p);
      TabsStripped(depth + 1);
      BlanksMinified(Indent(depth + 1, fmt), Quote(ms[0].key) + (Colon(fmt) + p));
      MembersText(ms, depth, fmt, rest);
      MembersText(ms, depth', false, Minify(rest));
      UnformattedMember(ms, depth', Minify(rest));
    }
  }

  lemma UnformattedMember(ms: seq<Member>, depth: nat, rest: string)
    requires ms != []
    ensures Indent(depth + 1, false) + Quote(ms[0].key) == Quote(ms[0].key)
  {
  }

  lemma MemberEndMinified(last: bool, fmt: bool, more: string)
    ensures Minify(MemberEnd(last, fmt) + more) == MemberEnd(last, false) + Minify(more)
    ensures WellQuoted(MemberEnd(last, fmt) + more) == WellQuoted(more)
  {
    hide WellQuoted, Turn, Minify;
    var blank := if fmt then "\n" else "";
    var comma := if last then "" else ",";
    Assoc(comma, blank, more);
    BlanksMinified(blank, more);
    WordMinified(comma, blank + more);
    assert MemberEnd(last, false) == comma;
  }

  lemma ColonMinified(fmt: bool, p: string)
    ensures Minify(Colon(fmt) + p) == Colon(false) + Minify(p) && WellQuoted(Colon(fmt) + p) == WellQuoted(p)
  {
    hide WellQuoted, Turn, Minify;
    var blank := if fmt then "\t" else "";
    Assoc(":", blank, p);
    BlanksMinified(blank, p);
    WordMinified(":", blank + p);
    assert ":" + blank == Colon(fmt);
  }

  /** `cJSON_Minify` of `cJSON_Print` is byte for byte `cJSON_PrintUnformatted`. */
  lemma MinifiedPrintIsUnformatted(v: Value, fmt: bool)
    requires Printable(v)
    ensures WellQuoted(Print(v, 0, fmt)) && Minify(Print(v, 0, fmt)) == Print(v, 0, false)
  {
    MinifyEmpty();
    PrintMinify(v, 0, fmt, 0, "");
    assert Print(v, 0, fmt) + "" == Print(v, 0, fmt) && Print(v, 0, false) + "" == Print(v, 0, false);
  }

  /** `cJSON_Minify` in place on a text that parses: what it leaves in the buffer parses to the same value. */
  method MinifyKeepsMeaning(json: array<char>, ghost text: string, ghost v: Value)
    requires Holds(json[..], text) && WellQuoted(text) && ParseText(text, true) == Ok(v, "")
    modifies json
    ensures Holds(json[..], Minify(text)) && ParseText(Minify(text), true) == Ok(v, "")
  {
    hide WellQuoted, Minifiable, Minify, ParseText, Holds;
    WellQuotedMinifiable(text);
    MinifyPreservesMeaning(text, v);
    MinifyInPlace(json, text);
  }

  /** What the minifier can take, the parser can: closed literals with complete escapes are safe. */
  lemma {:induction false} WellQuotedSafe(s: string, depth: nat)
    requires WellQuoted(s)
    ensures SafeIn(s, depth)
    decreases |s|
  {
    hide CompleteEscapes, CountPass, LineEnd, BlockEnd;
    if s != "" && s[0] == '\"' {
      WellQuotedSafe(Turn(s).value.1, depth);
    } else if s != "" && s[0] != '/' {
      assert Turn(s).value.1 == s[1..];
      WellQuotedSafe(s[1..], depth);
      WellQuotedSafe(s[1..], depth + 1);
      if depth > 0 { WellQuotedSafe(s[1..], depth - 1); }
    }
  }

  /** So no text in the minifier's domain makes the parser leave its memory. */
  lemma WellQuotedParses(s: string, whole: bool)
    requires WellQuoted(s)
    ensures !ParseText(s, whole).Overrun?
  {
    hide SafeIn, ParseText, WellQuoted;
    WellQuotedSafe(s, 0);
    SafeText(s, whole);
  }
}
