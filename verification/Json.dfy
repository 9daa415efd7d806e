/**
 JSON values, and the meaning of the recursive parser and of the printers of
 lib/cJSON.c as functions on cursors.
 */
module Json {
  import opened CText
  import opened Literal

  /** A cJSON item without its links. A number is kept as the exact decimal
      `mantissa * 10^exponent` that `parse_number` then rounds to a double. */
  datatype Value =
    | Null
    | False
    | True
    | Number(mantissa: int, exponent: int)
    | Str(text: string)
    | Array(items: seq<Value>)
    | Object(members: seq<Member>)

  datatype Member = Member(key: string, value: Value)

  const INT_MIN := -0x8000_0000
  const INT_MAX := 0x7FFF_FFFF

  /** Values made of constants, C strings, keyed members, and the integers that
      `print_number` prints with its integer branch. */
  ghost predicate Printable(v: Value) {
    match v
    case Number(m, e) => e == 0 && INT_MIN <= m <= INT_MAX
    case Str(s) => CString(s)
    case Array(items) => forall i | 0 <= i < |items| :: Printable(items[i])
    case Object(ms) => forall i | 0 <= i < |ms| :: CString(ms[i].key) && Printable(ms[i].value)
    case _ => true
  }

  // ----------------------------------------------------------------- numbers

  /** A run of digits taken into `acc`: the new accumulator, how many, and what follows. */
  function Digits(s: string, acc: nat): (r: (nat, nat, string))
    ensures |r.2| + r.1 == |s|
    ensures !IsDigit(At(r.2, 0))
    decreases |s|
  {
    if s != "" && IsDigit(s[0]) then
      var (n, k, rest) := Digits(s[1..], acc * 10 + DigitValue(s[0]));
      (n, k + 1, rest)
    else (acc, 0, s)
  }

  function DigitValue(c: char): (d: nat)
    requires IsDigit(c)
    ensures d < 10
  {
    c as int - '0' as int
  }

  /** The part before the point: an optional zero, then digits that start with 1 to 9. */
  function WholePart(s: string): (r: (nat, string))
    ensures |r.1| <= |s| && (IsDigit(At(s, 0)) ==> |r.1| < |s|)
  {
    var t := if At(s, 0) == '0' then s[1..] else s;
    if '1' <= At(t, 0) <= '9' then
      var (n, _, rest) := Digits(t, 0);
      (n, rest)
    else (0, t)
  }

  /** The digits after a point, which must be followed by one: mantissa and decimal places. */
  function Fraction(s: string, n: nat): (r: (nat, nat, string))
    ensures |r.2| <= |s|
  {
    if At(s, 0) == '.' && IsDigit(At(s, 1)) then Digits(s[1..], n) else (n, 0, s)
  }

  /** The exponent with its sign. */
  function Exponent(s: string): (r: (int, string))
    ensures |r.1| <= |s|
  {
    if At(s, 0) == 'e' || At(s, 0) == 'E' then
      var t := s[1..];
      if At(t, 0) == '+' then
        var (n, _, rest) := Digits(t[1..], 0);
        (n, rest)
      else if At(t, 0) == '-' then
        var (n, _, rest) := Digits(t[1..], 0);
        (0 - n, rest)
      else
        var (n, _, rest) := Digits(t, 0);
        (n, rest)
    else (0, s)
  }

  /** `parse_number`. */
  function ParseNumber(s: string): (r: (Value, string))
    ensures |r.1| <= |s| && (At(s, 0) == '-' || IsDigit(At(s, 0)) ==> |r.1| < |s|)
  {
    var negative := At(s, 0) == '-';
    var (n0, s1) := WholePart(if negative then s[1..] else s);
    var (n, places, s2) := Fraction(s1, n0);
    var (e, rest) := Exponent(s2);
    (Number(if negative then 0 - n else n, e - places), rest)
  }

  // ------------------------------------------------------------------ parser

  /** `parse_value`. */
  function ParseValue(s: string): (r: Parse<Value>)
    ensures r.Ok? ==> |r.rest| < |s|
    decreases |s|, 2
  {
    if "null" <= s then Ok(Null, s[4..])
    else if "false" <= s then Ok(False, s[5..])
    else if "true" <= s then Ok(True, s[4..])
    else if At(s, 0) == '\"' then
      var (text, rest) :- ParseString(s);
      Ok(Str(text), rest)
    else if At(s, 0) == '-' || IsDigit(At(s, 0)) then
      var (n, rest) := ParseNumber(s);
      Ok(n, rest)
    else if At(s, 0) == '[' then ParseArray(s)
    else if At(s, 0) == '{' then ParseObject(s)
    else Fail(s)
  }

  /** `parse_array`. */
  function ParseArray(s: string): (r: Parse<Value>)
    requires At(s, 0) == '['
    ensures r.Ok? ==> |r.rest| < |s|
    decreases |s|, 0
  {
    var t := Skip(s[1..]);
    if At(t, 0) == ']' then Ok(Array([]), t[1..]) else ParseItems(t, [])
  }

  /** The elements from the one that starts at `s`, after those in `done`. */
  function ParseItems(s: string, done: seq<Value>): (r: Parse<Value>)
    ensures r.Ok? ==> |r.rest| < |s|
    decreases |s|, 3
  {
    var (v, after) :- ParseValue(s);
    var t := Skip(after);
    if At(t, 0) == ',' then ParseItems(Skip(t[1..]), done + [v])
    else if At(t, 0) == ']' then Ok(Array(done + [v]), t[1..])
    else Fail(t)
  }

  /** `parse_object`. */
  function ParseObject(s: string): (r: Parse<Value>)
    requires At(s, 0) == '{'
    ensures r.Ok? ==> |r.rest| < |s|
    decreases |s|, 0
  {
    var t := Skip(s[1..]);
    if At(t, 0) == '}' then Ok(Object([]), t[1..]) else ParseMembers(t, [])
  }

  /** The members from the one whose key starts at `s`, after those in `done`. */
  function ParseMembers(s: string, done: seq<Member>): (r: Parse<Value>)
    ensures r.Ok? ==> |r.rest| < |s|
    decreases |s|, 3
  {
    var (key, afterKey) :- ParseString(s);
    var colon := Skip(afterKey);
    if At(colon, 0) != ':' then Fail(colon)
    else
      var (v, after) :- ParseValue(Skip(colon[1..]));
      var t := Skip(after);
      var done' := done + [Member(key, v)];
      if At(t, 0) == ',' then ParseMembers(Skip(t[1..]), done')
      else if At(t, 0) == '}' then Ok(Object(done'), t[1..])
      else Fail(t)
  }

  /** A value that parses, by its first character. */
  lemma ValueKind(s: string)
    requires ParseValue(s).Ok?
    ensures s != "" && !IsBlank(s[0]) && s[0] !in "/]},"
    ensures At(s, 0) !in "\"-[{" && !IsDigit(At(s, 0)) ==> "null" <= s || "false" <= s || "true" <= s
  {
    hide ParseArray, ParseObject, ParseNumber, ParseString;
  }

  lemma StringValue(s: string)
    requires At(s, 0) == '\"'
    ensures ParseValue(s) == if ParseString(s).Ok? then Ok(Str(ParseString(s).value), ParseString(s).rest) else ParseString(s).PropagateFailure()
  {
    hide ParseString;
  }

  lemma NumberValueIs(s: string)
    requires At(s, 0) == '-' || IsDigit(At(s, 0))
    ensures ParseValue(s) == Ok(ParseNumber(s).0, ParseNumber(s).1)
  {
    hide ParseNumber;
  }

  lemma BracketValue(s: string)
    ensures At(s, 0) == '[' ==> ParseValue(s) == ParseArray(s)
    ensures At(s, 0) == '{' ==> ParseValue(s) == ParseObject(s)
  {
    hide ParseArray, ParseObject;
  }

  lemma ConstantValue(s: string)
    ensures "null" <= s ==> ParseValue(s) == Ok(Null, s[4..])
    ensures "false" <= s ==> ParseValue(s) == Ok(False, s[5..])
    ensures "true" <= s ==> ParseValue(s) == Ok(True, s[4..])
  {
    assert "null" <= s ==> s[0] == 'n';
    assert "false" <= s ==> s[0] == 'f';
    assert "true" <= s ==> s[0] == 't';
  }

  /** `cJSON_ParseWithOpts`, whose `whole` asks for nothing but blanks after the value. */
  function ParseText(s: string, whole: bool): Parse<Value> {
    var (v, rest) :- ParseValue(Skip(s));
    if !whole then Ok(v, rest)
    else if Skip(rest) == "" then Ok(v, "")
    else Fail(Skip(rest))
  }

  // ----------------------------------------------------------------- printer

  function Decimal(n: nat): string {
    var last := [('0' as int + n % 10) as char];
    if n < 10 then last else Decimal(n / 10) + last
  }

  /** `sprintf("%d")`. */
  function PrintInt(n: int): string {
    if n < 0 then "-" + Decimal(-n) else Decimal(n)
  }

  function Tabs(n: nat): string {
    if n == 0 then "" else "\t" + Tabs(n - 1)
  }

  /** `print_value`: the text at a nesting depth, formatted or not. */
  function Print(v: Value, depth: nat, fmt: bool): string
    decreases v, 1
  {
    match v
    case Null => "null"
    case False => "false"
    case True => "true"
    case Number(m, e) => PrintInt(m)
    case Str(s) => Quote(s)
    case Array(items) => "[" + PrintItems(items, depth, fmt) + "]"
    case Object(ms) =>
      "{" + (if fmt then "\n" else "") + PrintMembers(ms, depth, fmt) + Indent(depth, fmt) + "}"
  }

  function PrintItems(items: seq<Value>, depth: nat, fmt: bool): string
    decreases items, 0
  {
    if items == [] then ""
    else if |items| == 1 then Print(items[0], depth + 1, fmt)
    else Print(items[0], depth + 1, fmt) + (if fmt then ", " else ",") + PrintItems(items[1..], depth, fmt)
  }

  function PrintMembers(ms: seq<Member>, depth: nat, fmt: bool): string
    decreases ms, 0
  {
    if ms == [] then ""
    else
      Indent(depth + 1, fmt) + (Quote(ms[0].key) + (Colon(fmt) + Print(ms[0].value, depth + 1, fmt)))
      + (MemberEnd(|ms| == 1, fmt) + PrintMembers(ms[1..], depth, fmt))
  }

  function Indent(depth: nat, fmt: bool): string {
    if fmt then Tabs(depth) else ""
  }

  function Colon(fmt: bool): string {
    if fmt then ":\t" else ":"
  }

  /** What follows a member. */
  function MemberEnd(last: bool, fmt: bool): string {
    (if last then "" else ",") + (if fmt then "\n" else "")
  }
}
