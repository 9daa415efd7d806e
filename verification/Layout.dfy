/**
 How printed text looks: scans of the text alone that accept one layout and nothing else, and
 the printers' output is accepted.
 */
module Layout {
  import opened CText
  import opened Json
  import opened Literal
  import opened RoundTrip

  // -------------------------------------------------------------------- scans

  /** What follows a literal whose body is written as shortly as JSON allows: control characters by their
      letters or by four small digits, and a backslash before nothing but quote and backslash. */
  function PastLiteral(s: string): (r: Option<string>)
    ensures r.Some? ==> |r.value| < |s|
    decreases |s|
  {
    if s == "" || s[0] as int < 32 then None
    else if s[0] == '\"' then Some(s[1..])
    else if s[0] != '\\' then PastLiteral(s[1..])
    else if |s| >= 2 && s[1] in "\"\\bfnrt" then PastLiteral(s[2..])
    else if |s| >= 6 && s[1..6] in CONTROLS then PastLiteral(s[6..])
    else None
  }

  /** The control characters that have no letter. */
  const CONTROLS: set<string> := {
    "u0001", "u0002", "u0003", "u0004", "u0005", "u0006", "u0007", "u000b", "u000e", "u000f",
    "u0010", "u0011", "u0012", "u0013", "u0014", "u0015", "u0016", "u0017", "u0018", "u0019",
    "u001a", "u001b", "u001c", "u001d", "u001e", "u001f" }

  function PastDigits(s: string): (r: string)
    ensures |r| <= |s|
  {
    if s != "" && '0' <= s[0] <= '9' then PastDigits(s[1..]) else s
  }

  /** What follows an integer without leading zeros. */
  function PastInteger(s: string): (r: Option<string>)
    ensures r.Some? ==> |r.value| < |s|
  {
    var t := if s != "" && s[0] == '-' then s[1..] else s;
    if t != "" && '1' <= t[0] <= '9' then Some(PastDigits(t[1..]))
    else if t == s && t != "" && t[0] == '0' && !IsDigit(At(t, 1)) then Some(t[1..])
    else None
  }

  /** What follows the tabs at the start, and how many they are. */
  function PastTabs(s: string): (r: (nat, string))
    ensures |r.1| + r.0 == |s|
  {
    if s != "" && s[0] == '\t' then
      var (n, rest) := PastTabs(s[1..]);
      (n + 1, rest)
    else (0, s)
  }

  function Inner(open: string): char {
    if open == "" then '\0' else open[|open| - 1]
  }

  /** Text laid out for reading, within the brackets `open`: a tab after each colon, a space after each comma
      of an array, a line of its own for each member, indented by a tab for each bracket that is open, and no other
      blank. Literals are written shortly, and integers without leading zeros. */
  predicate Laid(s: string, open: string)
    decreases |s|, 1
  {
    if s == "" then open == ""
    else if s[0] == '\"' then PastLiteral(s[1..]).Some? && Laid(PastLiteral(s[1..]).value, open)
    else if s[0] == '-' || IsDigit(s[0]) then PastInteger(s).Some? && Laid(PastInteger(s).value, open)
    else if s[0] == '[' then Laid(s[1..], open + "[")
    else if s[0] == ']' then Inner(open) == '[' && Laid(s[1..], open[..|open| - 1])
    else if s[0] == '{' then LineLaid(s[1..], open + "{")
    else if s[0] == ':' then Inner(open) == '{' && At(s, 1) == '\t' && Laid(s[2..], open)
    else if s[0] == ',' then
      if Inner(open) == '[' then At(s, 1) == ' ' && Laid(s[2..], open)
      else |s| >= 2 && !Closes(s[2..]) && LineLaid(s[1..], open)
    else if s[0] == '\n' then Closes(s[1..]) && LineLaid(s, open)
    else s[0] in "nulfasetr" && Laid(s[1..], open)
  }

  /** Tabs, and the brace that closes an object. */
  predicate Closes(s: string) {
    At(PastTabs(s).1, 0) == '}'
  }

  /** A new line in an object: as many tabs as brackets are open, one fewer before the brace that closes it. */
  predicate LineLaid(s: string, open: string)
    decreases |s|, 0
  {
    s != "" && s[0] == '\n' && Inner(open) == '{' &&
    var (tabs, rest) := PastTabs(s[1..]);
    if At(rest, 0) == '}' then tabs == |open| - 1 && Laid(rest[1..], open[..|open| - 1])
    else tabs == |open| && rest != "" && Laid(rest, open)
  }

  /** The same without any blanks. */
  predicate Compact(s: string)
    decreases |s|
  {
    if s == "" then true
    else if s[0] == '\"' then PastLiteral(s[1..]).Some? && Compact(PastLiteral(s[1..]).value)
    else if s[0] == '-' || IsDigit(s[0]) then PastInteger(s).Some? && Compact(PastInteger(s).value)
    else s[0] in "[]{},:nulfasetr" && Compact(s[1..])
  }

  // ------------------------------------------------------------------ tokens

  lemma {:induction false} EscapePassed(t: string, rest: string)
    requires CString(t)
    ensures PastLiteral(Escape(t) + ("\"" + rest)) == Some(rest)
  {
    hide EscapeChar, PastLiteral;
    if t == "" {
      assert Escape(t) + ("\"" + rest) == "\"" + rest;
      QuotePassed(rest);
    } else {
      EscapePassed(t[1..], rest);
      Assoc(EscapeChar(t[0]), Escape(t[1..]), "\"" + rest);
      CharPassed(t[0], Escape(t[1..]) + ("\"" + rest));
    }
  }

  lemma QuotePassed(rest: string)
    ensures PastLiteral("\"" + rest) == Some(rest)
  {
    assert ("\"" + rest)[1..] == rest;
  }

  lemma CharPassed(c: char, rest: string)
    requires 0 < c as int < 256
    ensures PastLiteral(EscapeChar(c) + rest) == PastLiteral(rest)
  {
    if c as int < 32 && ShortEscape(c) == None {
      ControlPassed(c, rest);
    } else {
      var s := EscapeChar(c) + rest;
      assert s[|EscapeChar(c)|..] == rest;
    }
  }

  lemma ControlPassed(c: char, rest: string)
    requires 0 < c as int < 32 && ShortEscape(c) == None
    ensures PastLiteral(EscapeChar(c) + rest) == PastLiteral(rest)
  {
    var s := EscapeChar(c) + rest;
    ControlListed(c);
    assert s[1..6] == EscapeChar(c)[1..] && s[6..] == rest && s[1] == 'u' && s[0] == '\\';
    hide EscapeChar, ShortEscape;
  }

  lemma ControlListed(c: char)
    requires 0 < c as int < 32 && ShortEscape(c) == None
    ensures |EscapeChar(c)| == 6 && EscapeChar(c)[0] == '\\' && EscapeChar(c)[1] == 'u' && EscapeChar(c)[1..] in CONTROLS
  {
    var n := c as int;
    assert EscapeChar(c)[1..] == ['u', '0', '0', HexDigit(n / 16), HexDigit(n % 16)];
  }

  lemma {:induction false} DigitsPassed(digits: string, rest: string)
    requires AllDigits(digits) && !IsDigit(At(rest, 0))
    ensures PastDigits(digits + rest) == rest
  {
    if digits == "" {
      assert digits + rest == rest;
    } else {
      assert (digits + rest)[1..] == digits[1..] + rest;
      DigitsPassed(digits[1..], rest);
    }
  }

  lemma IntegerPassed(m: int, rest: string)
    requires !IsDigit(At(rest, 0))
    ensures var s := PrintInt(m) + rest; PastInteger(s) == Some(rest) && s != "" && (s[0] == '-' || IsDigit(s[0]))
  {
    hide Decimal, PastDigits;
    NaturalPassed(if m < 0 then -m else m, rest);
    if m < 0 {
      var t := Decimal(-m) + rest;
      assert PrintInt(m) + rest == "-" + t && ("-" + t)[1..] == t;
    }
  }

  lemma NaturalPassed(n: nat, rest: string)
    requires !IsDigit(At(rest, 0))
    ensures var t := Decimal(n) + rest;
      && t != "" && IsDigit(t[0]) && (if n > 0 then t[0] != '0' && PastDigits(t[1..]) == rest else t[0] == '0' && t[1..] == rest)
  {
    var digits := Decimal(n);
    DecimalDenotes(n);
    if n == 0 { ZeroText(); }
    hide Decimal, Denotes, PastDigits;
    var t := digits + rest;
    assert t[1..] == digits[1..] + rest;
    if n > 0 { DigitsPassed(digits[1..], rest); }
  }

  lemma {:induction false} TabsPassed(n: nat, rest: string)
    requires At(rest, 0) != '\t'
    ensures PastTabs(Tabs(n) + rest) == (n, rest)
  {
    if n == 0 {
      assert Tabs(n) + rest == rest;
    } else {
      assert (Tabs(n) + rest)[1..] == Tabs(n - 1) + rest;
      TabsPassed(n - 1, rest);
    }
  }

  lemma WordLaid(word: string, rest: string, open: string)
    requires word in {"null", "false", "true"} && Laid(rest, open)
    ensures Laid(word + rest, open)
  {
    LettersLaid(word, rest, open);
  }

  lemma {:induction false} LettersLaid(word: string, rest: string, open: string)
    requires (forall i | 0 <= i < |word| :: word[i] in "nulfasetr") && Laid(rest, open)
    ensures Laid(word + rest, open)
  {
    if word == "" {
      assert word + rest == rest;
    } else {
      assert (word + rest)[1..] == word[1..] + rest;
      LettersLaid(word[1..], rest, open);
    }
  }

  lemma LiteralLaid(t: string, rest: string, open: string)
    requires CString(t) && Laid(rest, open)
    ensures Laid(Quote(t) + rest, open)
  {
    hide Escape, PastLiteral;
    EscapePassed(t, rest);
    var s := Quote(t) + rest;
    assert s[0] == '\"' && s[1..] == Escape(t) + ("\"" + rest);
  }

  // ------------------------------------------------------------------ values

  /** The formatted print of a value, at the depth of the brackets around it, is laid out if what follows is. */
  lemma {:induction false} ValueLaid(v: Value, open: string, rest: string)
    requires Printable(v) && !IsDigit(At(rest, 0)) && Laid(rest, open)
    ensures Laid(Print(v, |open|, true) + rest, open)
    decreases v, 1
  {
    hide Laid, Escape, PastInteger, Decimal, CString;
    match v
    case Null => WordLaid("null", rest, open);
    case False => WordLaid("false", rest, open);
    case True => WordLaid("true", rest, open);
    case Number(m, _) => NumberLaid(m, rest, open);
    case Str(t) => LiteralLaid(t, rest, open);
    case Array(items) => ArrayLaid(items, open, rest);
    case Object(ms) => ObjectLaid(ms, open, rest);
  }

  lemma NumberLaid(m: int, rest: string, open: string)
    requires !IsDigit(At(rest, 0)) && Laid(rest, open)
    ensures Laid(PrintInt(m) + rest, open)
  {
    hide PrintInt, PastInteger;
    IntegerPassed(m, rest);
  }

  lemma PopIs(open: string, c: string)
    requires |c| == 1
    ensures Inner(open + c) == c[0] && (open + c)[..|open + c| - 1] == open
  {
  }

  lemma {:induction false} ArrayLaid(items: seq<Value>, open: string, rest: string)
    requires (forall i | 0 <= i < |items| :: Printable(items[i])) && Laid(rest, open)
    ensures Laid("[" + PrintItems(items, |open|, true) + "]" + rest, open)
    decreases items, 1
  {
    hide Print, PrintItems, Printable, Laid;
    var end := "]" + rest;
    BracketLaid(rest, open);
    ItemsLaid(items, open, end);
    var p := PrintItems(items, |open|, true);
    Assoc("[" + p, "]", rest);
    Assoc("[", p, end);
    OpenLaid(p + end, open);
  }

  lemma BracketLaid(rest: string, open: string)
    requires Laid(rest, open)
    ensures Laid("]" + rest, open + "[")
  {
    PopIs(open, "[");
    FirstAndRest("]", rest);
    hide LineLaid, PastLiteral, PastInteger, Inner;
  }

  lemma OpenLaid(s: string, open: string)
    requires Laid(s, open + "[")
    ensures Laid("[" + s, open)
  {
    FirstAndRest("[", s);
    hide LineLaid, PastLiteral, PastInteger, Inner;
  }

  lemma {:induction false} ItemsLaid(items: seq<Value>, open: string, end: string)
    requires (forall i | 0 <= i < |items| :: Printable(items[i])) && Laid(end, open + "[") && end != "" && end[0] == ']'
    ensures Laid(PrintItems(items, |open|, true) + end, open + "[")
    decreases items, 0
  {
    hide Laid, Print, Printable;
    var within := open + "[";
    if items == [] {
      assert PrintItems(items, |open|, true) + end == end;
    } else if |items| == 1 {
      ValueLaid(items[0], within, end);
    } else {
      ItemsLaid(items[1..], open, end);
      var more := PrintItems(items[1..], |open|, true) + end;
      CommaLaid(more, open);
      ValueLaid(items[0], within, ", " + more);
      var (p, q) := (Print(items[0], |open| + 1, true), PrintItems(items[1..], |open|, true));
      Assoc(p + ", ", q, end);
      Assoc(p, ", ", q + end);
    }
  }

  lemma CommaLaid(more: string, open: string)
    requires Laid(more, open + "[")
    ensures Laid(", " + more, open + "[")
  {
    PopIs(open, "[");
    assert (", " + more)[2..] == more;
    hide LineLaid, PastLiteral, PastInteger;
  }

  /** A closing brace on its line, and the tabs before it. */
  lemma BraceLaid(open: string, rest: string)
    requires Laid(rest, open)
    ensures var end := Tabs(|open|) + ("}" + rest); Closes(end) && LineLaid("\n" + end, open + "{")
  {
    hide Laid;
    var end := Tabs(|open|) + ("}" + rest);
    FirstAndRest("}", rest);
    TabsPassed(|open|, "}" + rest);
    PopIs(open, "{");
    FirstAndRest("\n", end);
  }

  lemma {:induction false} ObjectLaid(ms: seq<Member>, open: string, rest: string)
    requires (forall i | 0 <= i < |ms| :: CString(ms[i].key) && Printable(ms[i].value)) && Laid(rest, open)
    ensures Laid(Print(Object(ms), |open|, true) + rest, open)
    decreases ms, 1
  {
    var end := Tabs(|open|) + ("}" + rest);
    var members := PrintMembers(ms, |open|, true);
    ObjectAssoc("\n", members, Tabs(|open|), rest);
    assert Print(Object(ms), |open|, true) + rest == "{" + ("\n" + (members + end));
    hide Print, PrintMembers, Printable, Tabs, PastLiteral, PastInteger, CString;
    BraceLaid(open, rest);
    MembersLaid(ms, open, end);
    FirstAndRest("{", "\n" + (members + end));
    hide LineLaid;
    assert Laid("{" + ("\n" + (members + end)), open);
  }

  /** The members of an object, each on its line, before the line of the closing brace. */
  lemma {:induction false} MembersLaid(ms: seq<Member>, open: string, end: string)
    requires forall i | 0 <= i < |ms| :: CString(ms[i].key) && Printable(ms[i].value)
    requires Closes(end) && LineLaid("\n" + end, open + "{")
    ensures LineLaid("\n" + (PrintMembers(ms, |open|, true) + end), open + "{")
    ensures ms != [] ==> !Closes(PrintMembers(ms, |open|, true) + end)
    decreases ms, 0
  {
    if ms == [] {
      assert PrintMembers(ms, |open|, true) + end == end;
    } else {
      var more := PrintMembers(ms[1..], |open|, true) + end;
      var tail := MemberEnd(|ms| == 1, true) + more;
      MembersText(ms, |open|, true, end);
      MembersLaid(ms[1..], open, end);
      hide Laid, LineLaid, Print, PrintMembers, Printable, Tabs, Quote, Closes, CString, MemberEnd, Colon;
      EndLaid(|ms| == 1, open, more) by { if |ms| == 1 { NoMembers(|open|, true); assert more == end; } }
      ValueLaid(ms[0].value, open + "{", tail);
      FieldLaid(ms[0].key, Print(ms[0].value, |open| + 1, true) + tail, open);
    }
  }

  lemma EndLaid(last: bool, open: string, more: string)
    requires LineLaid("\n" + more, open + "{") && (Closes(more) <==> last)
    ensures var tail := MemberEnd(last, true) + more; Laid(tail, open + "{") && !IsDigit(At(tail, 0))
  {
    var line := "\n" + more;
    FirstAndRest("\n", more);
    PopIs(open, "{");
    if last {
      assert MemberEnd(last, true) + more == line;
    } else {
      assert MemberEnd(last, true) + more == "," + line && ("," + line)[1..] == line && ("," + line)[2..] == more;
    }
    hide LineLaid, PastLiteral, PastInteger, Closes;
  }

  /** A key, the colon with its tab, and a value, on a line of the object. */
  lemma FieldLaid(key: string, value: string, open: string)
    requires CString(key) && Laid(value, open + "{")
    ensures var s := Indent(|open| + 1, true) + (Quote(key) + (Colon(true) + value));
      LineLaid("\n" + s, open + "{") && !Closes(s)
  {
    var colon := Colon(true) + value;
    var t := Quote(key) + colon;
    ColonLaid(value, open);
    assert t[0] == '\"';
    hide Laid, Quote, Colon;
    LiteralLaid(key, colon, open + "{");
    TabsPassed(|open| + 1, t);
    PopIs(open, "{");
    FirstAndRest("\n", Tabs(|open| + 1) + t);
  }

  lemma ColonLaid(value: string, open: string)
    requires Laid(value, open + "{")
    ensures Laid(":\t" + value, open + "{")
  {
    PopIs(open, "{");
    assert (":\t" + value)[2..] == value;
    hide LineLaid, PastLiteral, PastInteger;
  }

  /** `cJSON_Print` lays out every tree. */
  lemma PrintLaid(v: Value)
    requires Printable(v)
    ensures Laid(Print(v, 0, true), "")
  {
    ValueLaid(v, "", "");
    assert Print(v, 0, true) + "" == Print(v, 0, true);
  }

  // ---------------------------------------------------------- without blanks

  lemma MarkCompact(c: string, rest: string)
    requires |c| == 1 && c[0] in "[]{},:" && Compact(rest)
    ensures Compact(c + rest)
  {
    FirstAndRest(c, rest);
    hide PastLiteral, PastInteger;
  }

  lemma {:induction false} WordCompact(word: string, rest: string)
    requires (forall i | 0 <= i < |word| :: word[i] in "nulfasetr") && Compact(rest)
    ensures Compact(word + rest)
  {
    hide PastLiteral, PastInteger;
    if word == "" {
      assert word + rest == rest;
    } else {
      assert (word + rest)[1..] == word[1..] + rest;
      WordCompact(word[1..], rest);
    }
  }

  lemma LiteralCompact(t: string, rest: string)
    requires CString(t) && Compact(rest)
    ensures Compact(Quote(t) + rest)
  {
    hide Escape, PastLiteral;
    EscapePassed(t, rest);
    assert (Quote(t) + rest)[1..] == Escape(t) + ("\"" + rest);
  }

  lemma NumberCompact(m: int, rest: string)
    requires !IsDigit(At(rest, 0)) && Compact(rest)
    ensures Compact(PrintInt(m) + rest)
  {
    hide PrintInt, PastInteger;
    IntegerPassed(m, rest);
  }

  /** The unformatted print has no blanks outside its literals. */
  lemma {:induction false} ValueCompact(v: Value, depth: nat, rest: string)
    requires Printable(v) && !IsDigit(At(rest, 0)) && Compact(rest)
    ensures Compact(Print(v, depth, false) + rest)
    decreases v, 1
  {
    hide Compact, Escape, PastInteger, Decimal, CString;
    match v
    case Null => WordCompact("null", rest);
    case False => WordCompact("false", rest);
    case True => WordCompact("true", rest);
    case Number(m, _) => NumberCompact(m, rest);
    case Str(t) => LiteralCompact(t, rest);
    case Array(items) => ArrayCompact(items, depth, rest);
    case Object(ms) => ObjectCompact(ms, depth, rest);
  }

  lemma {:induction false} ArrayCompact(items: seq<Value>, depth: nat, rest: string)
    requires (forall i | 0 <= i < |items| :: Printable(items[i])) && Compact(rest)
    ensures Compact("[" + PrintItems(items, depth, false) + "]" + rest)
    decreases items, 1
  {
    hide Print, PrintItems, Printable, Compact;
    MarkCompact("]", rest);
    ItemsCompact(items, depth, "]" + rest);
    var p := PrintItems(items, depth, false);
    Assoc("[" + p, "]", rest);
    Assoc("[", p, "]" + rest);
    MarkCompact("[", p + ("]" + rest));
  }

  lemma {:induction false} ItemsCompact(items: seq<Value>, depth: nat, end: string)
    requires (forall i | 0 <= i < |items| :: Printable(items[i])) && Compact(end) && !IsDigit(At(end, 0))
    ensures Compact(PrintItems(items, depth, false) + end)
    decreases items, 0
  {
    hide Compact, Print, Printable;
    if items == [] {
      assert PrintItems(items, depth, false) + end == end;
    } else if |items| == 1 {
      ValueCompact(items[0], depth + 1, end);
    } else {
      ItemsCompact(items[1..], depth, end);
      var (p, q) := (Print(items[0], depth + 1, false), PrintItems(items[1..], depth, false));
      MarkCompact(",", q + end);
      ValueCompact(items[0], depth + 1, "," + (q + end));
      Assoc(p + ",", q, end);
      Assoc(p, ",", q + end);
    }
  }

  lemma {:induction false} ObjectCompact(ms: seq<Member>, depth: nat, rest: string)
    requires (forall i | 0 <= i < |ms| :: CString(ms[i].key) && Printable(ms[i].value)) && Compact(rest)
    ensures Compact(Print(Object(ms), depth, false) + rest)
    decreases ms, 1
  {
    var members := PrintMembers(ms, depth, false);
    ObjectAssoc("", members, "", rest);
    assert Print(Object(ms), depth, false) + rest == "{" + ("" + (members + ("" + ("}" + rest))));
    assert "" + (members + ("" + ("}" + rest))) == members + ("}" + rest) by { hide *; }
    hide Print, PrintMembers, Printable, Compact, CString;
    MarkCompact("}", rest);
    MembersCompact(ms, depth, "}" + rest);
    MarkCompact("{", members + ("}" + rest));
  }

  lemma {:induction false} MembersCompact(ms: seq<Member>, depth: nat, end: string)
    requires forall i | 0 <= i < |ms| :: CString(ms[i].key) && Printable(ms[i].value)
    requires Compact(end) && !IsDigit(At(end, 0))
    ensures Compact(PrintMembers(ms, depth, false) + end)
    decreases ms, 0
  {
    hide Compact, Print, Printable, CString, Quote;
    if ms == [] {
      assert PrintMembers(ms, depth, false) + end == end;
    } else {
      var more := PrintMembers(ms[1..], depth, false) + end;
      var tail := MemberEnd(|ms| == 1, false) + more;
      MembersText(ms, depth, false, end);
      hide PrintMembers;
      MembersCompact(ms[1..], depth, end);
      EndCompact(ms, depth, end);
      hide MemberEnd;
      ValueCompact(ms[0].value, depth + 1, tail);
      KeyCompact(ms[0].key, depth, Print(ms[0].value, depth + 1, false) + tail);
    }
  }

  lemma EndCompact(ms: seq<Member>, depth: nat, end: string)
    requires ms != [] && Compact(PrintMembers(ms[1..], depth, false) + end) && !IsDigit(At(end, 0))
    ensures var tail := MemberEnd(|ms| == 1, false) + (PrintMembers(ms[1..], depth, false) + end);
      Compact(tail) && !IsDigit(At(tail, 0))
  {
    hide Compact, PrintMembers, MemberEnd;
    var more := PrintMembers(ms[1..], depth, false) + end;
    EndIs(more);
    if |ms| == 1 {
      NoMembers(depth, false);
      assert ms[1..] == [] && "" + end == end;
    } else {
      MarkCompact(",", more);
    }
  }

  lemma EndIs(more: string)
    ensures MemberEnd(true, false) + more == more && MemberEnd(false, false) + more == "," + more
    ensures ("," + more)[0] == ','
  {
    assert "" + "" + more == more && "," + "" + more == "," + more;
  }

  lemma KeyCompact(key: string, depth: nat, value: string)
    requires CString(key) && Compact(value)
    ensures Compact(Indent(depth + 1, false) + (Quote(key) + (Colon(false) + value)))
  {
    hide Compact, CString, Quote;
    MarkCompact(":", value);
    LiteralCompact(key, ":" + value);
    assert "" + (Quote(key) + (":" + value)) == Quote(key) + (":" + value);
  }

  /** `cJSON_PrintUnformatted` writes no blanks outside literals. */
  lemma PrintCompact(v: Value)
    requires Printable(v)
    ensures Compact(Print(v, 0, false))
  {
    ValueCompact(v, 0, "");
    assert Print(v, 0, false) + "" == Print(v, 0, false);
  }
}
