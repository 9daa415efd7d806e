/**
 Which texts the parser of lib/cJSON.c can read without leaving its memory: complete
 escapes in the literals are enough, whatever else is wrong with the text.
 */
module Safety {
  import opened CText
  import opened Literal
  import opened LiteralProofs
  import opened Json
  import opened RoundTrip

  /** Every literal of the first value has complete escapes, and the last may be unclosed. The value
      ends with the bracket that closes the first one opened, and at a slash, which starts no token;
      `depth` counts the brackets open. */
  ghost predicate SafeIn(s: string, depth: nat)
    decreases |s|
  {
    if s == "" || s[0] == '/' then true
    else if s[0] == '\"' then
      var count := CountPass(s[1..]);
      CompleteEscapes(s[1..]) && count.Ok? && (depth > 0 && count.rest != "" ==> SafeIn(count.rest[1..], depth))
    else if s[0] == '[' || s[0] == '{' then SafeIn(s[1..], depth + 1)
    else if s[0] == ']' || s[0] == '}' then depth <= 1 || SafeIn(s[1..], depth - 1)
    else if depth == 0 && !IsBlank(s[0]) then true
    else SafeIn(s[1..], depth)
  }

  ghost predicate Safe(s: string) {
    SafeIn(s, 0)
  }

  /** Neither a bracket nor the start of a literal nor a slash. */
  predicate Plain(c: char) {
    c !in "\"/[{]}"
  }

  lemma SafeOne(s: string, depth: nat)
    requires SafeIn(s, depth) && s != "" && Plain(s[0]) && (depth > 0 || IsBlank(s[0]))
    ensures SafeIn(s[1..], depth)
  {
  }

  lemma SafeOpen(s: string, depth: nat)
    requires SafeIn(s, depth) && (At(s, 0) == '[' || At(s, 0) == '{')
    ensures SafeIn(s[1..], depth + 1)
  {
  }

  lemma SafeClose(s: string, depth: nat)
    requires SafeIn(s, depth + 1) && (At(s, 0) == ']' || At(s, 0) == '}')
    ensures depth > 0 ==> SafeIn(s[1..], depth)
  {
  }

  lemma {:induction false} SafeSkip(s: string, depth: nat)
    requires SafeIn(s, depth)
    ensures SafeIn(Skip(s), depth)
    decreases |s|
  {
    if s != "" && IsBlank(s[0]) { SafeSkip(s[1..], depth); }
  }

  lemma {:induction false} SafeAfter(s: string, n: nat, depth: nat)
    requires SafeIn(s, depth) && depth > 0 && n <= |s| && forall i | 0 <= i < n :: Plain(s[i])
    ensures SafeIn(s[n..], depth)
    decreases n
  {
    if n > 0 {
      SafeOne(s, depth);
      SafeAfter(s[1..], n - 1, depth);
      assert s[1..][n - 1..] == s[n..];
    } else {
      assert s[0..] == s;
    }
  }

  /** Where a literal may stand, `parse_string` stays inside the text and inside what it allocates. */
  lemma SafeString(s: string, depth: nat)
    requires SafeIn(s, depth)
    ensures var r := ParseString(s); !r.Overrun? && (r.Ok? && depth > 0 ==> SafeIn(r.rest, depth))
  {
    if At(s, 0) == '\"' {
      hide CompleteEscapes, CountPass, Decode;
      SecondPassFits(s[1..]);
    }
  }

  // ----------------------------------------------------------------- numbers

  lemma {:induction false} SafeDigits(s: string, acc: nat, depth: nat)
    requires SafeIn(s, depth) && depth > 0
    ensures SafeIn(Digits(s, acc).2, depth)
    decreases |s|
  {
    if s != "" && IsDigit(s[0]) { SafeDigits(s[1..], acc * 10 + DigitValue(s[0]), depth); }
  }

  lemma SafeWhole(s: string, depth: nat)
    requires SafeIn(s, depth) && depth > 0
    ensures SafeIn(WholePart(s).1, depth)
  {
    hide Digits;
    SafeDigits(if At(s, 0) == '0' then s[1..] else s, 0, depth);
  }

  lemma SafeFraction(s: string, n: nat, depth: nat)
    requires SafeIn(s, depth) && depth > 0
    ensures SafeIn(Fraction(s, n).2, depth)
  {
    hide Digits;
    if At(s, 0) == '.' { SafeDigits(s[1..], n, depth); }
  }

  lemma SafeExponent(s: string, depth: nat)
    requires SafeIn(s, depth) && depth > 0
    ensures SafeIn(Exponent(s).1, depth)
  {
    hide Digits;
    if At(s, 0) == 'e' || At(s, 0) == 'E' {
      var t := s[1..];
      SafeDigits(t, 0, depth);
      if At(t, 0) == '+' || At(t, 0) == '-' { SafeDigits(t[1..], 0, depth); }
    }
  }

  lemma SafeNumber(s: string, depth: nat)
    requires SafeIn(s, depth) && depth > 0
    ensures SafeIn(ParseNumber(s).1, depth)
  {
    var t := if At(s, 0) == '-' then s[1..] else s;
    assert SafeIn(t, depth);
    hide SafeIn, WholePart, Fraction, Exponent;
    SafeWhole(t, depth);
    SafeFraction(WholePart(t).1, WholePart(t).0, depth);
    SafeExponent(Fraction(WholePart(t).1, WholePart(t).0).2, depth);
  }

  // ------------------------------------------------------------------ values

  /** Neither a value nor anything in it makes the parser leave its memory; inside an array or an
      object, what follows is safe too. */
  lemma {:induction false} SafeValue(s: string, depth: nat)
    requires SafeIn(s, depth)
    ensures var r := ParseValue(s); !r.Overrun? && (r.Ok? && depth > 0 ==> SafeIn(r.rest, depth))
    decreases |s|, 2
  {
    hide SafeIn, ParseNumber, ParseString, ParseArray, ParseObject;
    if At(s, 0) == '[' {
      SafeArray(s, depth);
    } else if At(s, 0) == '{' {
      SafeObject(s, depth);
    } else {
      SafeString(s, depth);
      if depth > 0 { SafeWords(s, depth); }
    }
  }

  lemma SafeWords(s: string, depth: nat)
    requires SafeIn(s, depth) && depth > 0
    ensures "null" <= s || "true" <= s ==> SafeIn(s[4..], depth)
    ensures "false" <= s ==> SafeIn(s[5..], depth)
    ensures SafeIn(ParseNumber(s).1, depth)
  {
    hide SafeIn, ParseNumber;
    if "null" <= s || "true" <= s { SafeAfter(s, 4, depth); }
    if "false" <= s { SafeAfter(s, 5, depth); }
    SafeNumber(s, depth);
  }

  lemma {:induction false} SafeArray(s: string, depth: nat)
    requires SafeIn(s, depth) && At(s, 0) == '['
    ensures var r := ParseArray(s); !r.Overrun? && (r.Ok? && depth > 0 ==> SafeIn(r.rest, depth))
    decreases |s|, 0
  {
    hide SafeIn, ParseItems, Skip;
    SafeOpen(s, depth);
    SafeSkip(s[1..], depth + 1);
    var t := Skip(s[1..]);
    if At(t, 0) == ']' { SafeClose(t, depth); } else { SafeItems(t, [], depth); }
  }

  lemma {:induction false} SafeItems(s: string, done: seq<Value>, depth: nat)
    requires SafeIn(s, depth + 1)
    ensures var r := ParseItems(s, done); !r.Overrun? && (r.Ok? && depth > 0 ==> SafeIn(r.rest, depth))
    decreases |s|, 3
  {
    hide SafeIn, ParseValue, Skip;
    SafeValue(s, depth + 1);
    var r := ParseValue(s);
    if r.Ok? {
      SafeSkip(r.rest, depth + 1);
      var t := Skip(r.rest);
      if At(t, 0) == ',' {
        SafeOne(t, depth + 1);
        SafeSkip(t[1..], depth + 1);
        SafeItems(Skip(t[1..]), done + [r.value], depth);
      } else if At(t, 0) == ']' {
        SafeClose(t, depth);
      }
    }
  }

  lemma {:induction false} SafeObject(s: string, depth: nat)
    requires SafeIn(s, depth) && At(s, 0) == '{'
    ensures var r := ParseObject(s); !r.Overrun? && (r.Ok? && depth > 0 ==> SafeIn(r.rest, depth))
    decreases |s|, 0
  {
    hide SafeIn, ParseMembers, Skip;
    SafeOpen(s, depth);
    SafeSkip(s[1..], depth + 1);
    var t := Skip(s[1..]);
    if At(t, 0) == '}' { SafeClose(t, depth); } else { SafeMembers(t, [], depth); }
  }

  lemma {:induction false} SafeMembers(s: string, done: seq<Member>, depth: nat)
    requires SafeIn(s, depth + 1)
    ensures var r := ParseMembers(s, done); !r.Overrun? && (r.Ok? && depth > 0 ==> SafeIn(r.rest, depth))
    decreases |s|, 3
  {
    hide SafeIn, ParseValue, ParseString, Skip;
    SafeString(s, depth + 1);
    var key := ParseString(s);
    if key.Ok? {
      SafeSkip(key.rest, depth + 1);
      var colon := Skip(key.rest);
      if At(colon, 0) == ':' {
        SafeOne(colon, depth + 1);
        SafeSkip(colon[1..], depth + 1);
        SafeValue(Skip(colon[1..]), depth + 1);
        var r := ParseValue(Skip(colon[1..]));
        if r.Ok? {
          SafeSkip(r.rest, depth + 1);
          var t := Skip(r.rest);
          if At(t, 0) == ',' {
            SafeOne(t, depth + 1);
            SafeSkip(t[1..], depth + 1);
            SafeMembers(Skip(t[1..]), done + [Member(key.value, r.value)], depth);
          } else if At(t, 0) == '}' {
            SafeClose(t, depth);
          }
        }
      }
    }
  }

  /** `cJSON_Parse` and its variants stay inside their memory on every safe text. */
  lemma SafeText(s: string, whole: bool)
    requires Safe(s)
    ensures !ParseText(s, whole).Overrun?
  {
    hide SafeIn, ParseValue, Skip;
    SafeSkip(s, 0);
    SafeValue(Skip(s), 0);
  }

  // ------------------------------------------------------------ printed text

  /** Printed text is safe before any text that is, and at the top level before any text at all. */
  lemma {:induction false} PrintSafe(v: Value, level: nat, fmt: bool, rest: string, depth: nat)
    requires Printable(v) && (depth > 0 ==> SafeIn(rest, depth))
    ensures SafeIn(Print(v, level, fmt) + rest, depth)
    decreases v, 1
  {
    hide SafeIn, Quote, PrintInt, PrintItems, PrintMembers, CString;
    match v
    case Null => PlainSafe("null", rest, depth);
    case False => PlainSafe("false", rest, depth);
    case True => PlainSafe("true", rest, depth);
    case Number(m, _) =>
      IntPlain(m);
      PlainSafe(PrintInt(m), rest, depth);
    case Str(t) => QuoteSafe(t, rest, depth);
    case Array(items) => ArraySafe(items, level, fmt, rest, depth);
    case Object(ms) => ObjectSafe(ms, level, fmt, rest, depth);
  }

  /** A run of plain characters, of which the first is no blank at the top level. */
  lemma {:induction false} PlainSafe(p: string, rest: string, depth: nat)
    requires forall i | 0 <= i < |p| :: Plain(p[i])
    requires (depth > 0 ==> SafeIn(rest, depth)) && (depth == 0 ==> p != "" && !IsBlank(p[0]))
    ensures SafeIn(p + rest, depth)
    decreases |p|
  {
    if depth > 0 {
      if p == "" {
        assert p + rest == rest;
      } else {
        PlainSafe(p[1..], rest, depth);
        assert (p + rest)[1..] == p[1..] + rest;
      }
    } else {
      assert (p + rest)[0] == p[0];
    }
  }

  lemma IntPlain(n: int)
    ensures var p := PrintInt(n); p != "" && !IsBlank(p[0]) && forall i | 0 <= i < |p| :: Plain(p[i])
  {
    DecimalDenotes(if n < 0 then -n else n);
    hide Decimal;
  }

  lemma QuoteSafe(t: string, rest: string, depth: nat)
    requires CString(t) && (depth > 0 ==> SafeIn(rest, depth))
    ensures SafeIn(Quote(t) + rest, depth)
  {
    EscapeTaken(t, rest);
    hide CompleteEscapes, CountPass, Escape, CString;
    var s := Quote(t) + rest;
    Assoc("\"", Escape(t) + "\"", rest);
    Assoc("\"", Escape(t), "\"");
    FirstAndRest("\"", Escape(t) + "\"" + rest);
    FirstAndRest("\"", rest);
  }

  lemma {:induction false} ArraySafe(items: seq<Value>, level: nat, fmt: bool, rest: string, depth: nat)
    requires (forall i | 0 <= i < |items| :: Printable(items[i])) && (depth > 0 ==> SafeIn(rest, depth))
    ensures SafeIn("[" + PrintItems(items, level, fmt) + "]" + rest, depth)
    decreases items, 1
  {
    var p := PrintItems(items, level, fmt);
    CloseSafe("]", rest, depth);
    ItemsSafe(items, level, fmt, "]" + rest, depth + 1);
    hide SafeIn;
    Assoc("[" + p, "]", rest);
    Assoc("[", p, "]" + rest);
    OpenSafe("[", p + ("]" + rest), depth);
  }

  lemma OpenSafe(c: string, s: string, depth: nat)
    requires c in {"[", "{"} && SafeIn(s, depth + 1)
    ensures SafeIn(c + s, depth)
  {
    assert (c + s)[1..] == s;
  }

  lemma CloseSafe(c: string, rest: string, depth: nat)
    requires c in {"]", "}"} && (depth > 0 ==> SafeIn(rest, depth))
    ensures SafeIn(c + rest, depth + 1)
  {
    assert (c + rest)[1..] == rest;
  }

  lemma {:induction false} ItemsSafe(items: seq<Value>, level: nat, fmt: bool, after: string, depth: nat)
    requires (forall i | 0 <= i < |items| :: Printable(items[i])) && depth > 0 && SafeIn(after, depth)
    ensures SafeIn(PrintItems(items, level, fmt) + after, depth)
    decreases items, 0
  {
    hide SafeIn, Print;
    if items == [] {
      assert PrintItems(items, level, fmt) + after == after;
    } else if |items| == 1 {
      PrintSafe(items[0], level + 1, fmt, after, depth);
    } else {
      var (p, comma, more) := (Print(items[0], level + 1, fmt), if fmt then ", " else ",", PrintItems(items[1..], level, fmt));
      ItemsSafe(items[1..], level, fmt, after, depth);
      PlainSafe(comma, more + after, depth);
      PrintSafe(items[0], level + 1, fmt, comma + (more + after), depth);
      Assoc(p + comma, more, after);
      Assoc(p, comma, more + after);
    }
  }

  lemma {:induction false} ObjectSafe(ms: seq<Member>, level: nat, fmt: bool, rest: string, depth: nat)
    requires (forall i | 0 <= i < |ms| :: CString(ms[i].key) && Printable(ms[i].value)) && (depth > 0 ==> SafeIn(rest, depth))
    ensures SafeIn(Print(Object(ms), level, fmt) + rest, depth)
    decreases ms, 1
  {
    hide SafeIn, PrintMembers, Indent, Printable, CString;
    var (open, p, indent) := (if fmt then "\n" else "", PrintMembers(ms, level, fmt), Indent(level, fmt));
    CloseSafe("}", rest, depth);
    IndentSafe(level, fmt, "}" + rest, depth + 1);
    MembersSafe(ms, level, fmt, indent + ("}" + rest), depth + 1);
    PlainSafe(open, p + (indent + ("}" + rest)), depth + 1);
    ObjectAssoc(open, p, indent, rest);
    OpenSafe("{", open + (p + (indent + ("}" + rest))), depth);
    assert Print(Object(ms), level, fmt) == "{" + open + p + indent + "}";
  }

  lemma {:induction false} TabsPlain(n: nat)
    ensures forall i | 0 <= i < |Tabs(n)| :: Plain(Tabs(n)[i])
  {
    if n > 0 { TabsPlain(n - 1); }
  }

  lemma IndentSafe(level: nat, fmt: bool, after: string, depth: nat)
    requires depth > 0 && SafeIn(after, depth)
    ensures SafeIn(Indent(level, fmt) + after, depth)
  {
    hide SafeIn, Tabs;
    TabsPlain(level);
    PlainSafe(Indent(level, fmt), after, depth);
  }

  lemma {:induction false} MembersSafe(ms: seq<Member>, level: nat, fmt: bool, after: string, depth: nat)
    requires (forall i | 0 <= i < |ms| :: CString(ms[i].key) && Printable(ms[i].value)) && depth > 0 && SafeIn(after, depth)
    ensures SafeIn(PrintMembers(ms, level, fmt) + after, depth)
    decreases ms, 0
  {
    hide SafeIn, Print, Indent, Quote, Colon, MemberEnd, CString, Printable;
    if ms == [] {
      assert PrintMembers(ms, level, fmt) + after == after;
    } else {
      var (indent, key, colon) := (Indent(level + 1, fmt), Quote(ms[0].key), Colon(fmt));
      var (value, end, more) := (Print(ms[0].value, level + 1, fmt), MemberEnd(|ms| == 1, fmt), PrintMembers(ms[1..], level, fmt));
      MembersSafe(ms[1..], level, fmt, after, depth);
      MarksPlain(|ms| == 1, fmt);
      PlainSafe(end, more + after, depth);
      PrintSafe(ms[0].value, level + 1, fmt, end + (more + after), depth);
      PlainSafe(colon, value + (end + (more + after)), depth);
      QuoteSafe(ms[0].key, colon + (value + (end + (more + after))), depth);
      IndentSafe(level + 1, fmt, key + (colon + (value + (end + (more + after)))), depth);
      MemberJoin(indent, key, colon, value, end, more, after);
    }
  }

  lemma MarksPlain(last: bool, fmt: bool)
    ensures forall i | 0 <= i < |Colon(fmt)| :: Plain(Colon(fmt)[i])
    ensures forall i | 0 <= i < |MemberEnd(last, fmt)| :: Plain(MemberEnd(last, fmt)[i])
  {
  }

  lemma MemberJoin(indent: string, key: string, colon: string, value: string, end: string, more: string, after: string)
    ensures indent + (key + (colon + value)) + (end + more) + after
      == indent + (key + (colon + (value + (end + (more + after)))))
  {
    Assoc(indent + (key + (colon + value)), end + more, after);
    Assoc(end, more, after);
    var tail := end + (more + after);
    Assoc(indent, key + (colon + value), tail);
    Assoc(key, colon + value, tail);
    Assoc(colon, value, tail);
  }

  lemma PrintedSafe(v: Value, fmt: bool)
    requires Printable(v)
    ensures Safe(Print(v, 0, fmt))
  {
    hide SafeIn, Print, Printable;
    PrintSafe(v, 0, fmt, "", 0);
    assert Print(v, 0, fmt) + "" == Print(v, 0, fmt);
  }
}
