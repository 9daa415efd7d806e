/** Parsing what the printers print gives the value back and stops at the end of its text. */
module RoundTrip {
  import opened CText
  import opened Literal
  import opened LiteralProofs
  import opened Json

  // ----------------------------------------------------------------- numbers

  /** A suffix after which a printed integer ends. */
  predicate CannotExtend(rest: string) {
    !IsDigit(At(rest, 0)) && At(rest, 0) != 'e' && At(rest, 0) != 'E'
    && !(At(rest, 0) == '.' && IsDigit(At(rest, 1)))
  }

  ghost predicate AllDigits(a: string) {
    forall i | 0 <= i < |a| :: IsDigit(a[i])
  }

  /** The number a string of digits denotes after the digits of `acc`. */
  ghost function Denotes(a: string, acc: nat): nat
    requires AllDigits(a)
  {
    if a == "" then acc else Denotes(a[1..], acc * 10 + DigitValue(a[0]))
  }

  lemma {:induction false} DenotesAppend(a: string, c: char, acc: nat)
    requires AllDigits(a) && IsDigit(c)
    ensures AllDigits(a + [c]) && Denotes(a + [c], acc) == Denotes(a, acc) * 10 + DigitValue(c)
  {
    if a == "" {
      assert (a + [c])[1..] == "";
    } else {
      DenotesAppend(a[1..], c, acc * 10 + DigitValue(a[0]));
      assert (a + [c])[1..] == a[1..] + [c];
    }
  }

  lemma {:induction false} DigitsTaken(a: string, acc: nat, rest: string)
    requires AllDigits(a) && !IsDigit(At(rest, 0))
    ensures Digits(a + rest, acc) == (Denotes(a, acc), |a|, rest)
  {
    if a == "" {
      assert a + rest == rest;
    } else {
      DigitsTaken(a[1..], acc * 10 + DigitValue(a[0]), rest);
      assert (a + rest)[1..] == a[1..] + rest;
    }
  }

  lemma {:induction false} DecimalDenotes(n: nat)
    ensures AllDigits(Decimal(n)) && Denotes(Decimal(n), 0) == n
    ensures Decimal(n) != "" && (Decimal(n)[0] == '0' ==> n == 0)
  {
    if n >= 10 {
      DecimalDenotes(n / 10);
      DenotesAppend(Decimal(n / 10), ('0' as int + n % 10) as char, 0);
    } else {
      DenotesAppend("", ('0' as int + n % 10) as char, 0);
      assert "" + Decimal(n) == Decimal(n);
    }
  }

  /** Every printed integer is read back whole, and as itself. */
  lemma IntRoundTrip(n: int, rest: string)
    requires CannotExtend(rest)
    ensures ParseNumber(PrintInt(n) + rest) == (Number(n, 0), rest)
  {
    var m := if n < 0 then -n else n;
    var s := Decimal(m) + rest;
    DecimalDenotes(m);
    DigitsTaken(Decimal(m), 0, rest);
    hide Digits, Denotes, Decimal;
    assert WholePart(s) == (m, rest) by {
      if m == 0 {
        assert Decimal(0) == "0" by { ZeroText(); }
        assert s[1..] == rest;
      }
    }
    assert (PrintInt(n) + rest)[if n < 0 then 1 else 0..] == s;
  }

  lemma ZeroText()
    ensures Decimal(0) == "0"
  {
  }

  // ------------------------------------------------------------------ values

  /** A printed value starts with a byte that no blank, bracket or separator is. */
  lemma PrintStarts(v: Value, depth: nat, fmt: bool)
    ensures var p := Print(v, depth, fmt); p != "" && !IsBlank(p[0]) && p[0] !in "]},:"
  {
    match v
    case Number(m, _) => DecimalDenotes(if m < 0 then -m else m);
    case _ =>
  }

  lemma {:induction false} SkipTabs(n: nat, s: string)
    ensures Skip(Tabs(n) + s) == Skip(s)
  {
    if n == 0 {
      assert Tabs(n) + s == s;
    } else {
      SkipTabs(n - 1, s);
      assert (Tabs(n) + s)[1..] == Tabs(n - 1) + s;
    }
  }

  lemma SkipOne(c: char, s: string)
    requires IsBlank(c)
    ensures Skip([c] + s) == Skip(s)
  {
    assert ([c] + s)[1..] == s;
  }

  /** The round trip at any depth, formatted or not, before any suffix that cannot extend a number. */
  lemma {:induction false} ValueRoundTrip(v: Value, depth: nat, fmt: bool, rest: string)
    requires Printable(v) && CannotExtend(rest)
    ensures ParseValue(Print(v, depth, fmt) + rest) == Ok(v, rest)
    decreases v, 1
  {
    hide ParseValue;
    match v
    case Null => ConstantValues(rest);
    case False => ConstantValues(rest);
    case True => ConstantValues(rest);
    case Number(m, e) => NumberValue(m, rest);
    case Str(t) => LiteralValue(t, rest);
    case Array(items) => ArrayRoundTrip(items, depth, fmt, rest);
    case Object(ms) => ObjectRoundTrip(ms, depth, fmt, rest);
  }

  lemma ConstantValues(rest: string)
    ensures ParseValue("null" + rest) == Ok(Null, rest)
    ensures ParseValue("false" + rest) == Ok(False, rest)
    ensures ParseValue("true" + rest) == Ok(True, rest)
  {
    assert ("null" + rest)[4..] == rest && ("false" + rest)[5..] == rest && ("true" + rest)[4..] == rest;
    assert ("false" + rest)[0] == 'f' && ("true" + rest)[0] == 't';
  }

  lemma NumberValue(m: int, rest: string)
    requires CannotExtend(rest)
    ensures ParseValue(PrintInt(m) + rest) == Ok(Number(m, 0), rest)
  {
    hide ParseNumber, Decimal;
    DecimalDenotes(if m < 0 then -m else m);
    IntRoundTrip(m, rest);
    var s := PrintInt(m) + rest;
    assert s[0] == '-' || IsDigit(s[0]);
  }

  lemma LiteralValue(t: string, rest: string)
    requires CString(t)
    ensures ParseValue(Quote(t) + rest) == Ok(Str(t), rest)
  {
    LiteralRoundTrip(t, rest);
    hide ParseString, Escape;
    assert (Quote(t) + rest)[0] == '\"';
  }

  lemma {:induction false} ArrayRoundTrip(items: seq<Value>, depth: nat, fmt: bool, rest: string)
    requires forall i | 0 <= i < |items| :: Printable(items[i])
    ensures ParseValue("[" + PrintItems(items, depth, fmt) + "]" + rest) == Ok(Array(items), rest)
    decreases items, 1
  {
    hide Print, PrintItems, ParseValue, ParseItems, Printable;
    var t := PrintItems(items, depth, fmt) + "]" + rest;
    Assoc("[" + PrintItems(items, depth, fmt), "]", rest);
    Assoc("[", PrintItems(items, depth, fmt), "]" + rest);
    Assoc(PrintItems(items, depth, fmt), "]", rest);
    assert "[" + PrintItems(items, depth, fmt) + "]" + rest == "[" + t;
    if items == [] {
      NoItems(depth, fmt, rest);
      EmptyArray("[" + t, rest);
    } else {
      ItemsStart(items, depth, fmt, rest);
      SkipStops(t);
      NonemptyArray("[" + t, t);
      ItemsRoundTrip(items, [], depth, fmt, rest);
      assert [] + items == items;
    }
  }

  lemma NoItems(depth: nat, fmt: bool, rest: string)
    ensures PrintItems([], depth, fmt) + "]" + rest == "]" + rest
  {
  }

  lemma ItemsStart(items: seq<Value>, depth: nat, fmt: bool, rest: string)
    requires items != []
    ensures var t := PrintItems(items, depth, fmt) + "]" + rest; t != "" && !IsBlank(t[0]) && t[0] != ']'
  {
    PrintStarts(items[0], depth + 1, fmt);
    hide Print;
  }

  lemma EmptyArray(s: string, rest: string)
    requires s == "[" + ("]" + rest)
    ensures ParseValue(s) == Ok(Array([]), rest)
  {
    assert s[0] == '[' && s[1..] == "]" + rest && ("]" + rest)[1..] == rest;
    SkipStops("]" + rest);
  }

  lemma NonemptyArray(s: string, t: string)
    requires s == "[" + t && Skip(t) == t && t != "" && t[0] != ']'
    ensures ParseValue(s) == ParseItems(t, [])
  {
    assert s[0] == '[' && s[1..] == t;
    hide ParseItems, Skip;
  }

  /** `parse_array` once an element has been read. */
  lemma ItemStep(s: string, v: Value, after: string, done: seq<Value>)
    requires ParseValue(s) == Ok(v, after)
    ensures var t := Skip(after);
      && (At(t, 0) == ',' ==> ParseItems(s, done) == ParseItems(Skip(t[1..]), done + [v]))
      && (At(t, 0) == ']' ==> ParseItems(s, done) == Ok(Array(done + [v]), t[1..]))
  {
    hide ParseValue;
  }

  /** `parse_object` once a member has been read. */
  lemma MemberStep(s: string, key: string, colon: string, v: Value, after: string, done: seq<Member>)
    requires ParseString(s).Ok? && ParseString(s).value == key && Skip(ParseString(s).rest) == colon
    requires At(colon, 0) == ':' && ParseValue(Skip(colon[1..])) == Ok(v, after)
    ensures var t := Skip(after);
      && (At(t, 0) == ',' ==> ParseMembers(s, done) == ParseMembers(Skip(t[1..]), done + [Member(key, v)]))
      && (At(t, 0) == '}' ==> ParseMembers(s, done) == Ok(Object(done + [Member(key, v)]), t[1..]))
  {
    hide ParseValue, ParseString;
  }

  lemma {:induction false} ItemsRoundTrip(items: seq<Value>, done: seq<Value>, depth: nat, fmt: bool, rest: string)
    requires items != [] && forall i | 0 <= i < |items| :: Printable(items[i])
    ensures ParseItems(PrintItems(items, depth, fmt) + "]" + rest, done) == Ok(Array(done + items), rest)
    decreases items, 0
  {
    hide Print, PrintItems, ParseValue, ParseItems, Printable;
    var p := Print(items[0], depth + 1, fmt);
    if |items| == 1 {
      var tail := "]" + rest;
      ValueRoundTrip(items[0], depth + 1, fmt, tail);
      OneItem(items, depth, fmt, rest);
      SkipStops(tail);
      ItemStep(p + tail, items[0], tail, done);
      assert tail[1..] == rest && done + items == done + [items[0]];
    } else {
      var more := PrintItems(items[1..], depth, fmt) + "]" + rest;
      var tail := (if fmt then ", " else ",") + more;
      ValueRoundTrip(items[0], depth + 1, fmt, tail);
      MoreItems(items, depth, fmt, rest);
      SkipStops(tail);
      SkipStops(more);
      if fmt { SkipOne(' ', more); }
      ItemStep(p + tail, items[0], tail, done);
      assert tail[1..] == (if fmt then " " else "") + more;
      ItemsRoundTrip(items[1..], done + [items[0]], depth, fmt, rest);
      assert done + [items[0]] + items[1..] == done + items;
    }
  }

  lemma OneItem(items: seq<Value>, depth: nat, fmt: bool, rest: string)
    requires |items| == 1
    ensures PrintItems(items, depth, fmt) + "]" + rest == Print(items[0], depth + 1, fmt) + ("]" + rest)
  {
    hide Print;
    Assoc(Print(items[0], depth + 1, fmt), "]", rest);
  }

  /** The first item's text, a comma, and the items after it, which do not begin with a blank. */
  lemma MoreItems(items: seq<Value>, depth: nat, fmt: bool, rest: string)
    requires |items| > 1
    ensures var more := PrintItems(items[1..], depth, fmt) + "]" + rest;
      && PrintItems(items, depth, fmt) + "]" + rest
         == Print(items[0], depth + 1, fmt) + ((if fmt then ", " else ",") + more)
      && more != "" && !IsBlank(more[0])
  {
    PrintStarts(items[1], depth + 1, fmt);
    hide Print;
    var p := Print(items[0], depth + 1, fmt);
    var comma := if fmt then ", " else ",";
    var next := PrintItems(items[1..], depth, fmt);
    Assoc(p + comma + next, "]", rest);
    Assoc(p + comma, next, "]" + rest);
    Assoc(p, comma, next + ("]" + rest));
    Assoc(next, "]", rest);
  }

  lemma {:induction false} ObjectRoundTrip(ms: seq<Member>, depth: nat, fmt: bool, rest: string)
    requires forall i | 0 <= i < |ms| :: CString(ms[i].key) && Printable(ms[i].value)
    ensures ParseValue(Print(Object(ms), depth, fmt) + rest) == Ok(Object(ms), rest)
    decreases ms, 1
  {
    var s := Print(Object(ms), depth, fmt) + rest;
    var closing := Closing(depth, fmt, rest);
    ObjectText(ms, depth, fmt, rest);
    hide Print, PrintMembers, Indent, ParseMembers, Printable, Skip, ParseValue;
    if ms == [] {
      ClosingBrace(depth, fmt, rest);
      EmptyObject(s, rest);
    } else {
      MembersRoundTrip(ms, [], depth, fmt, rest);
      MembersStart(ms, depth, fmt, closing);
      NonemptyObject(s);
      assert [] + ms == ms;
    }
  }

  lemma ObjectText(ms: seq<Member>, depth: nat, fmt: bool, rest: string)
    ensures var s := Print(Object(ms), depth, fmt) + rest;
      && s != "" && s[0] == '{'
      && Skip(s[1..]) == Skip(PrintMembers(ms, depth, fmt) + Closing(depth, fmt, rest))
      && (ms == [] ==> Skip(s[1..]) == Skip(Closing(depth, fmt, rest)))
  {
    hide PrintMembers, Indent, Skip;
    NoMembers(depth, fmt);
    var open := if fmt then "\n" else "";
    var t := PrintMembers(ms, depth, fmt) + Closing(depth, fmt, rest);
    ObjectAssoc(open, PrintMembers(ms, depth, fmt), Indent(depth, fmt), rest);
    FirstAndRest("{", open + t);
    if fmt { SkipOne('\n', t); } else { assert "" + t == t; }
    if ms == [] { assert t == Closing(depth, fmt, rest); }
  }

  lemma ObjectAssoc(open: string, p: string, indent: string, rest: string)
    ensures "{" + open + p + indent + "}" + rest == "{" + (open + (p + (indent + ("}" + rest))))
  {
    Assoc("{", open, p);
    Assoc("{", open + p, indent);
    Assoc(open, p, indent);
    Assoc("{", open + (p + indent), "}");
    Assoc(open, p + indent, "}");
    Assoc("{", open + ((p + indent) + "}"), rest);
    Assoc(open, (p + indent) + "}", rest);
    Assoc(p + indent, "}", rest);
    Assoc(p, indent, "}" + rest);
  }

  lemma NoMembers(depth: nat, fmt: bool)
    ensures PrintMembers([], depth, fmt) == ""
  {
  }

  lemma EmptyObject(s: string, rest: string)
    requires s != "" && s[0] == '{' && Skip(s[1..]) == "}" + rest
    ensures ParseValue(s) == Ok(Object([]), rest)
  {
    assert ("}" + rest)[1..] == rest;
  }

  lemma NonemptyObject(s: string)
    requires s != "" && s[0] == '{' && At(Skip(s[1..]), 0) == '\"'
    ensures ParseValue(s) == ParseMembers(Skip(s[1..]), [])
  {
    hide ParseMembers;
  }

  /** `skip` passes the tabs before the closing brace. */
  lemma ClosingBrace(depth: nat, fmt: bool, rest: string)
    ensures Skip(Closing(depth, fmt, rest)) == "}" + rest
  {
    SkipStops("}" + rest);
    if fmt { SkipTabs(depth, "}" + rest); } else { assert "" + ("}" + rest) == "}" + rest; }
  }

  /** The first key is where `skip` stops before the members. */
  lemma MembersStart(ms: seq<Member>, depth: nat, fmt: bool, after: string)
    requires ms != []
    ensures At(Skip(PrintMembers(ms, depth, fmt) + after), 0) == '\"'
  {
    MembersText(ms, depth, fmt, after);
    hide PrintMembers, Skip;
  }

  lemma {:induction false} MembersRoundTrip(ms: seq<Member>, done: seq<Member>, depth: nat, fmt: bool, rest: string)
    requires ms != [] && forall i | 0 <= i < |ms| :: CString(ms[i].key) && Printable(ms[i].value)
    ensures ParseMembers(Skip(PrintMembers(ms, depth, fmt) + Closing(depth, fmt, rest)), done)
            == Ok(Object(done + ms), rest)
    decreases ms, 0
  {
    var m := ms[0];
    TailCannotExtend(ms, depth, fmt, rest);
    ValueRoundTrip(m.value, depth + 1, fmt, AfterFirst(ms, depth, fmt, rest)) by { hide Print, AfterFirst; }
    OneMember(ms, done, depth, fmt, rest);
    hide *;
    MoveFirst(done, ms);
    if |ms| > 1 {
      MembersRoundTrip(ms[1..], done + [m], depth, fmt, rest);
    }
  }

  /** The end of an object after its members. */
  ghost function Closing(depth: nat, fmt: bool, rest: string): string {
    Indent(depth, fmt) + ("}" + rest)
  }

  /** What follows the first member of an object. */
  ghost function AfterFirst(ms: seq<Member>, depth: nat, fmt: bool, rest: string): string
    requires ms != []
  {
    MemberEnd(|ms| == 1, fmt) + (PrintMembers(ms[1..], depth, fmt) + Closing(depth, fmt, rest))
  }

  /** `parse_object` over the first member of what `print_object` printed. */
  lemma OneMember(ms: seq<Member>, done: seq<Member>, depth: nat, fmt: bool, rest: string)
    requires ms != [] && CString(ms[0].key)
    requires ParseValue(Print(ms[0].value, depth + 1, fmt) + AfterFirst(ms, depth, fmt, rest))
             == Ok(ms[0].value, AfterFirst(ms, depth, fmt, rest))
    ensures var here := Skip(PrintMembers(ms, depth, fmt) + Closing(depth, fmt, rest));
      ParseMembers(here, done) ==
      if |ms| == 1 then Ok(Object(done + [ms[0]]), rest)
      else ParseMembers(Skip(PrintMembers(ms[1..], depth, fmt) + Closing(depth, fmt, rest)), done + [ms[0]])
  {
    var m := ms[0];
    var closing, after := Closing(depth, fmt, rest), AfterFirst(ms, depth, fmt, rest);
    var p := Print(m.value, depth + 1, fmt) + after;
    MembersText(ms, depth, fmt, closing);
    MemberEndSkipped(|ms| == 1, fmt, PrintMembers(ms[1..], depth, fmt) + closing);
    hide Print, PrintMembers, Indent, ParseMembers, ParseValue, ParseString, Skip, Quote, CString, MemberEnd, Colon;
    PrintStarts(m.value, depth + 1, fmt);
    KeyColon(m.key, fmt, p);
    MemberStep(Quote(m.key) + (Colon(fmt) + p), m.key, Colon(fmt) + p, m.value, after, done);
    if |ms| == 1 {
      NoMembers(depth, fmt);
      FirstAndRest("}", rest);
      assert "" + closing == closing;
      ClosingBrace(depth, fmt, rest);
    }
  }

  lemma MemberEndSkipped(last: bool, fmt: bool, more: string)
    ensures var t := Skip(MemberEnd(last, fmt) + more);
      if last then t == Skip(more) else At(t, 0) == ',' && Skip(t[1..]) == Skip(more)
  {
    var next := (if fmt then "\n" else "") + more;
    if fmt { SkipOne('\n', more); } else { assert next == more; }
    if last {
      assert MemberEnd(last, fmt) + more == next;
    } else {
      assert MemberEnd(last, fmt) + more == "," + next;
      SkipStops("," + next);
      assert ("," + next)[1..] == next;
    }
  }

  lemma MoveFirst<T>(done: seq<T>, xs: seq<T>)
    requires xs != []
    ensures done + [xs[0]] + xs[1..] == done + xs
    ensures |xs| == 1 ==> done + [xs[0]] == done + xs
  {
  }

  lemma FirstAndRest(c: string, s: string)
    requires |c| == 1
    ensures |c + s| == |s| + 1 && (c + s)[0] == c[0] && (c + s)[1..] == s
  {
  }

  lemma Assoc(a: string, b: string, c: string)
    ensures (a + b) + c == a + (b + c)
  {
  }

  /** The text of the members, with what follows them, from the first key on. */
  lemma MembersText(ms: seq<Member>, depth: nat, fmt: bool, closing: string)
    requires ms != []
    ensures var tail := MemberEnd(|ms| == 1, fmt) + (PrintMembers(ms[1..], depth, fmt) + closing);
      var s := Quote(ms[0].key) + (Colon(fmt) + (Print(ms[0].value, depth + 1, fmt) + tail));
      PrintMembers(ms, depth, fmt) + closing == Indent(depth + 1, fmt) + s
      && Skip(PrintMembers(ms, depth, fmt) + closing) == s
  {
    var q, p := Quote(ms[0].key), Print(ms[0].value, depth + 1, fmt);
    var end, more := MemberEnd(|ms| == 1, fmt), PrintMembers(ms[1..], depth, fmt);
    var tail := end + (more + closing);
    var s := q + (Colon(fmt) + (p + tail));
    Assoc(Indent(depth + 1, fmt) + (q + (Colon(fmt) + p)), end + more, closing);
    Assoc(end, more, closing);
    Assoc(Indent(depth + 1, fmt), q + (Colon(fmt) + p), tail);
    Assoc(q, Colon(fmt) + p, tail);
    Assoc(Colon(fmt), p, tail);
    assert s[0] == '\"';
    hide Print, Skip, Quote, Colon, MemberEnd;
    SkipStops(s);
    if fmt { SkipTabs(depth + 1, s); } else { assert "" + s == s; }
  }

  lemma KeyColon(key: string, fmt: bool, p: string)
    requires CString(key) && p != "" && !IsBlank(p[0])
    ensures var colon := Colon(fmt) + p;
      && ParseString(Quote(key) + colon) == Ok(key, colon)
      && At(colon, 0) == ':' && Skip(colon) == colon && Skip(colon[1..]) == p
  {
    hide ParseString, Quote, CString;
    var colon := Colon(fmt) + p;
    LiteralRoundTrip(key, colon);
    SkipStops(colon);
    SkipStops(p);
    assert colon[1..] == (if fmt then "\t" else "") + p;
    if fmt { SkipOne('\t', p); } else { assert "" + p == p; }
  }

  lemma TailCannotExtend(ms: seq<Member>, depth: nat, fmt: bool, rest: string)
    requires ms != []
    ensures CannotExtend(AfterFirst(ms, depth, fmt, rest))
  {
    hide Print, Tabs, Quote;
    NoMembers(depth, fmt);
  }

  /** `cJSON_Parse` of `cJSON_Print` or `cJSON_PrintUnformatted`, also when the end of the text is required. */
  lemma TextRoundTrip(v: Value, fmt: bool, whole: bool)
    requires Printable(v)
    ensures ParseText(Print(v, 0, fmt), whole) == Ok(v, "")
  {
    PrintStarts(v, 0, fmt);
    SkipStops(Print(v, 0, fmt));
    ValueRoundTrip(v, 0, fmt, "");
    assert Print(v, 0, fmt) + "" == Print(v, 0, fmt);
  }
}
