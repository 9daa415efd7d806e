/**
 The composing printers of lib/cJSON.c: every text is written into a buffer of
 the size computed beforehand, and every write is checked to fall inside it.
 */
module Printer {
  import opened CText
  import opened Literal
  import opened Json
  import opened RoundTrip

  // ------------------------------------------------------------ raw writing

  /** `*ptr++=c` */
  method Put(out: array<char>, ptr: nat, c: char)
    requires ptr < out.Length
    modifies out
    ensures out[..ptr + 1] == old(out[..ptr]) + [c]
  {
    out[ptr] := c;
  }

  /** `memcpy` of a text without its terminator. */
  method PutText(out: array<char>, ptr0: nat, s: string) returns (ptr: nat)
    requires ptr0 + |s| <= out.Length
    modifies out
    ensures ptr == ptr0 + |s| && out[..ptr] == old(out[..ptr0]) + s
  {
    ptr := ptr0;
    for i := 0 to |s|
      invariant ptr == ptr0 + i && out[..ptr] == old(out[..ptr0]) + s[..i]
    {
      Put(out, ptr, s[i]);
      ptr := ptr + 1;
    }
  }

  /** A loop of `*ptr++='\t'`. */
  method PutTabs(out: array<char>, ptr0: nat, n: nat) returns (ptr: nat)
    requires ptr0 + n <= out.Length
    modifies out
    ensures ptr == ptr0 + n && out[..ptr] == old(out[..ptr0]) + Tabs(n)
  {
    ptr := ptr0;
    assert Tabs(0) == "";
    for i := 0 to n
      invariant ptr == ptr0 + i && out[..ptr] == old(out[..ptr0]) + Tabs(i)
    {
      Put(out, ptr, '\t');
      TabsGrow(i);
      ptr := ptr + 1;
    }
  }

  lemma {:induction false} TabsGrow(n: nat)
    ensures Tabs(n + 1) == Tabs(n) + "\t" && |Tabs(n)| == n
  {
    if n > 0 {
      TabsGrow(n - 1);
    }
  }

  // ---------------------------------------------------------------- literals

  /** The counting pass of `print_string_ptr`. */
  method EscapedLength(str: string) returns (len: nat)
    requires CString(str)
    ensures len == |Escape(str)|
  {
    var ptr := 0;
    len := 0;
    assert str[0..] == str;
    while ptr < |str|
      invariant 0 <= ptr <= |str| && len + |Escape(str[ptr..])| == |Escape(str)|
    {
      var token := str[ptr];
      len := len + 1;
      if ShortEscape(token).Some? { len := len + 1; } else if token as int < 32 { len := len + 5; }
      assert str[ptr..][1..] == str[ptr + 1..];
      EscapeCharLength(token);
      ptr := ptr + 1;
    }
  }

  lemma EscapeCharLength(c: char)
    ensures |EscapeChar(c)| == if ShortEscape(c).Some? then 2 else if c as int < 32 then 6 else 1
  {
  }

  /** The escape of one byte, after its backslash has been decided on. */
  method PutEscape(out: array<char>, ptr0: nat, c: char) returns (ptr: nat)
    requires ptr0 + |EscapeChar(c)| <= out.Length
    modifies out
    ensures ptr == ptr0 + |EscapeChar(c)| && out[..ptr] == old(out[..ptr0]) + EscapeChar(c)
  {
    ptr := ptr0;
    if c as int > 31 && c != '\"' && c != '\\' {
      Put(out, ptr, c);
      return ptr + 1;
    }
    Put(out, ptr, '\\');
    ptr := ptr + 1;
    match ShortEscape(c)
    case Some(e) =>
      Put(out, ptr, e);
      ptr := ptr + 1;
    case None =>
      ptr := PutText(out, ptr, ['u', '0', '0', HexDigit(c as int / 16), HexDigit(c as int % 16)]);
  }

  /** Whether some byte needs an escape. */
  method NeedsEscape(str: string) returns (flag: bool)
    requires CString(str)
    ensures !flag ==> Escape(str) == str
  {
    flag := false;
    var ptr := 0;
    while ptr < |str|
      invariant 0 <= ptr <= |str| && (!flag ==> forall j | 0 <= j < ptr :: EscapeChar(str[j]) == [str[j]])
    {
      if str[ptr] as int < 32 || str[ptr] == '\"' || str[ptr] == '\\' { flag := true; }
      ptr := ptr + 1;
    }
    if !flag { PlainEscape(str); }
  }

  /** The length `print_string_ptr` computes, in either of its branches; it allocates three bytes more. */
  method LiteralLength(str: string) returns (len: nat, flag: bool)
    requires CString(str)
    ensures len + 2 == |Quote(str)| && (!flag ==> Escape(str) == str)
  {
    flag := NeedsEscape(str);
    if !flag { len := |str|; } else { len := EscapedLength(str); }
  }

  /** The writing half of `print_string_ptr`, into space for exactly its text and terminator. */
  method WriteLiteral(out: array<char>, at: nat, str: string, flag: bool) returns (end: nat)
    requires at + |Quote(str)| < out.Length && (!flag ==> Escape(str) == str)
    modifies out
    ensures end == at + |Quote(str)| && out[..end] == old(out[..at]) + Quote(str) && out[end] == '\0'
  {
    ghost var start := out[..at];
    Put(out, at, '\"');
    if !flag {
      end := PutText(out, at + 1, str);
    } else {
      end := WriteEscaped(out, at + 1, str);
    }
    Put(out, end, '\"');
    QuoteParts(start, Escape(str));
    Put(out, end + 1, '\0');
    end := end + 1;
    assert out[..end] == out[..end + 1][..end];
  }

  lemma QuoteParts(start: string, e: string)
    ensures start + "\"" + e + "\"" == start + ("\"" + e + "\"")
  {
  }

  /** The escaping loop. */
  method WriteEscaped(out: array<char>, at: nat, str: string) returns (ptr2: nat)
    requires at + |Escape(str)| <= out.Length
    modifies out
    ensures ptr2 == at + |Escape(str)| && out[..ptr2] == old(out[..at]) + Escape(str)
  {
    ghost var start := out[..at];
    var ptr: nat := 0;
    ptr2 := at;
    assert str[0..] == str;
    while ptr < |str|
      invariant ptr <= |str| && ptr2 + |Escape(str[ptr..])| == at + |Escape(str)|
      invariant out[..ptr2] + Escape(str[ptr..]) == start + Escape(str)
    {
      assert str[ptr..][1..] == str[ptr + 1..];
      Assoc(out[..ptr2], EscapeChar(str[ptr]), Escape(str[ptr + 1..]));
      ptr2 := PutEscape(out, ptr2, str[ptr]);
      ptr := ptr + 1;
    }
    assert out[..ptr2] + "" == out[..ptr2];
  }

  /** `print_string_ptr`: exactly `len + 3` bytes are allocated, and all of them are written. */
  method PrintStringPtr(str: string) returns (text: string)
    requires CString(str)
    ensures text == Quote(str)
  {
    var len, flag := LiteralLength(str);
    var out := new char[len + 3];
    var end := WriteLiteral(out, 0, str, flag);
    assert end + 1 == out.Length;
    text := out[..end];
    assert [] + Quote(str) == Quote(str);
  }

  /** Text without a byte to escape is its own escaped form. */
  lemma {:induction false} PlainEscape(s: string)
    requires forall j | 0 <= j < |s| :: EscapeChar(s[j]) == [s[j]]
    ensures Escape(s) == s
  {
    if s != "" {
      PlainEscape(s[1..]);
      assert [s[0]] + s[1..] == s;
    }
  }

  // ------------------------------------------------------------------ values

  lemma {:induction false} DecimalLength(n: nat, digits: nat, bound: nat)
    requires digits >= 1 && bound == Power10(digits) && n < bound
    ensures 1 <= |Decimal(n)| <= digits
    decreases digits
  {
    if n >= 10 {
      DecimalLength(n / 10, digits - 1, Power10(digits - 1));
    }
  }

  ghost function Power10(k: nat): nat {
    if k == 0 then 1 else 10 * Power10(k - 1)
  }

  /** An `int` is printed in at most eleven characters, of the twenty allowed for. */
  lemma IntLength(n: int)
    requires INT_MIN <= n <= INT_MAX
    ensures 1 <= |PrintInt(n)| <= 11
  {
    assert Power10(10) == 10 * (10 * (10 * (10 * (10 * (10 * (10 * (10 * Power10(2))))))));
    DecimalLength(if n < 0 then -n else n, 10, 10_000_000_000);
  }

  /** `strcpy` of a text into a buffer of its own. */
  method Copied(size: nat, s: string) returns (text: string)
    requires |s| < size
    ensures text == s
  {
    var out := new char[size];
    var end := PutText(out, 0, s);
    Put(out, end, '\0');
    text := out[..end + 1][..end];
  }

  /** `print_number` on an integer. */
  method PrintNumber(n: int) returns (text: string)
    requires INT_MIN <= n <= INT_MAX
    ensures text == PrintInt(n)
  {
    if n == 0 {
      ZeroText();
      text := Copied(2, "0");
    } else {
      IntLength(n);
      text := Copied(21, PrintInt(n));
    }
  }

  /** `print_value` without a print buffer. */
  method PrintValue(v: Value, depth: nat, fmt: bool) returns (text: string)
    requires Printable(v)
    ensures text == Print(v, depth, fmt)
    decreases v, 2
  {
    match v
    case Null => text := Copied(5, "null");
    case False => text := Copied(6, "false");
    case True => text := Copied(5, "true");
    case Number(m, _) => text := PrintNumber(m);
    case Str(s) => text := PrintStringPtr(s);
    case Array(items) => text := PrintArray(items, depth, fmt);
    case Object(ms) => text := PrintObject(ms, depth, fmt);
  }

  /** What `print_array` adds to its `len` for its entries from the first of `entries` on. */
  ghost function ItemsSize(entries: seq<string>, fmt: bool): nat {
    if entries == [] then 0 else |entries[0]| + 2 + (if fmt then 1 else 0) + ItemsSize(entries[1..], fmt)
  }

  lemma {:induction false} ItemsSizeAppend(entries: seq<string>, e: string, fmt: bool)
    ensures ItemsSize(entries + [e], fmt) == ItemsSize(entries, fmt) + |e| + 2 + (if fmt then 1 else 0)
  {
    if entries != [] {
      assert (entries + [e])[1..] == entries[1..] + [e];
      ItemsSizeAppend(entries[1..], e, fmt);
    } else {
      assert (entries + [e])[1..] == [];
    }
  }

  /** The printed entries, separated. */
  ghost function JoinItems(entries: seq<string>, fmt: bool): string {
    if entries == [] then ""
    else if |entries| == 1 then entries[0]
    else entries[0] + (if fmt then ", " else ",") + JoinItems(entries[1..], fmt)
  }

  lemma {:induction false} JoinIsPrint(entries: seq<string>, items: seq<Value>, depth: nat, fmt: bool)
    requires |entries| == |items| && forall i | 0 <= i < |items| :: entries[i] == Print(items[i], depth + 1, fmt)
    ensures JoinItems(entries, fmt) == PrintItems(items, depth, fmt)
    decreases |items|
  {
    hide Print;
    if |items| > 1 { JoinIsPrint(entries[1..], items[1..], depth, fmt); }
  }

  /** `print_array`: the entries are printed and measured, then composed. */
  method PrintArray(items: seq<Value>, depth: nat, fmt: bool) returns (text: string)
    requires forall i | 0 <= i < |items| :: Printable(items[i])
    ensures text == Print(Array(items), depth, fmt)
    decreases items, 1
  {
    if |items| == 0 {
      text := Copied(3, "[]");
      return;
    }
    var len := 5;
    var entries: seq<string> := [];
    for i := 0 to |items|
      invariant |entries| == i && len == 5 + ItemsSize(entries, fmt)
      invariant forall j | 0 <= j < i :: entries[j] == Print(items[j], depth + 1, fmt)
    {
      var ret := PrintValue(items[i], depth + 1, fmt);
      ItemsSizeAppend(entries, ret, fmt);
      entries := entries + [ret];
      len := len + |ret| + 2 + (if fmt then 1 else 0);
    }
    JoinIsPrint(entries, items, depth, fmt);
    text := ComposeArray(entries, len, fmt);
  }

  /** The composing loop of `print_array`, in the `len` bytes allocated. */
  method ComposeArray(entries: seq<string>, len: nat, fmt: bool) returns (text: string)
    requires entries != [] && len == 5 + ItemsSize(entries, fmt)
    ensures text == "[" + JoinItems(entries, fmt) + "]"
  {
    hide ItemsSize, JoinItems;
    NoItemsLeft(fmt);
    var out := new char[len];
    Put(out, 0, '[');
    var ptr: nat := 1;
    assert entries[0..] == entries && entries[|entries|..] == [];
    for i := 0 to |entries|
      invariant ptr + ItemsSize(entries[i..], fmt) + 4 <= len == out.Length && fresh(out)
      invariant out[..ptr] + JoinItems(entries[i..], fmt) == "[" + JoinItems(entries, fmt)
    {
      ptr := PutEntry(out, ptr, entries, i, fmt);
    }
    assert out[..ptr] + "" == out[..ptr];
    Put(out, ptr, ']');
    Put(out, ptr + 1, '\0');
    text := out[..ptr + 2][..ptr + 1];
  }

  lemma NoItemsLeft(fmt: bool)
    ensures ItemsSize([], fmt) == 0 && JoinItems([], fmt) == ""
  {
  }

  /** One entry, and the separator if another follows. */
  method PutEntry(out: array<char>, ptr0: nat, entries: seq<string>, i: nat, fmt: bool) returns (ptr: nat)
    requires i < |entries| && ptr0 + ItemsSize(entries[i..], fmt) + 4 <= out.Length
    modifies out
    ensures ptr + ItemsSize(entries[i + 1..], fmt) + 4 <= out.Length
    ensures out[..ptr] + JoinItems(entries[i + 1..], fmt) == old(out[..ptr0]) + JoinItems(entries[i..], fmt)
  {
    EntryParts(entries, i, fmt);
    hide ItemsSize, JoinItems;
    ghost var start := out[..ptr0];
    ptr := PutText(out, ptr0, entries[i]);
    if i != |entries| - 1 {
      ptr := PutText(out, ptr, if fmt then ", " else ",");
      out[ptr] := '\0';
      assert out[..ptr] == start + entries[i] + (if fmt then ", " else ",");
      Assoc3(start, entries[i], if fmt then ", " else ",", JoinItems(entries[i + 1..], fmt));
    } else {
      assert out[..ptr] + "" == out[..ptr];
    }
  }

  lemma EntryParts(entries: seq<string>, i: nat, fmt: bool)
    requires i < |entries|
    ensures ItemsSize(entries[i..], fmt) == |entries[i]| + 2 + (if fmt then 1 else 0) + ItemsSize(entries[i + 1..], fmt)
    ensures i + 1 == |entries| ==> JoinItems(entries[i..], fmt) == entries[i] && JoinItems(entries[i + 1..], fmt) == ""
    ensures i + 1 < |entries| ==>
      JoinItems(entries[i..], fmt) == entries[i] + (if fmt then ", " else ",") + JoinItems(entries[i + 1..], fmt)
  {
    assert entries[i..][1..] == entries[i + 1..];
  }

  lemma Assoc3(a: string, b: string, c: string, d: string)
    ensures a + b + c + d == a + (b + c + d)
  {
  }

  /** The printed names and entries of an object. */
  ghost function JoinMembers(names: seq<string>, entries: seq<string>, depth: nat, fmt: bool): string
    requires |names| == |entries|
  {
    if names == [] then ""
    else
      Indent(depth + 1, fmt) + (names[0] + (Colon(fmt) + entries[0]))
      + (MemberEnd(|names| == 1, fmt) + JoinMembers(names[1..], entries[1..], depth, fmt))
  }

  lemma {:induction false} JoinIsPrintMembers(names: seq<string>, entries: seq<string>, ms: seq<Member>, depth: nat, fmt: bool)
    requires |names| == |entries| == |ms|
    requires forall i | 0 <= i < |ms| :: names[i] == Quote(ms[i].key) && entries[i] == Print(ms[i].value, depth + 1, fmt)
    ensures JoinMembers(names, entries, depth, fmt) == PrintMembers(ms, depth, fmt)
    decreases |ms|
  {
    hide Print, Quote, Indent, Colon, MemberEnd;
    if ms != [] { JoinIsPrintMembers(names[1..], entries[1..], ms[1..], depth, fmt); }
  }

  /** What `print_object` adds to its `len`, `depth` being one more than the object's. */
  ghost function MembersSize(names: seq<string>, entries: seq<string>, depth: nat, fmt: bool): nat
    requires |names| == |entries|
  {
    if names == [] then 0
    else |entries[0]| + |names[0]| + 2 + (if fmt then 2 + depth else 0)
         + MembersSize(names[1..], entries[1..], depth, fmt)
  }

  lemma {:induction false} MembersSizeAppend(names: seq<string>, entries: seq<string>, n: string, e: string, depth: nat, fmt: bool)
    requires |names| == |entries|
    ensures MembersSize(names + [n], entries + [e], depth, fmt)
            == MembersSize(names, entries, depth, fmt) + |e| + |n| + 2 + (if fmt then 2 + depth else 0)
  {
    if names != [] {
      assert (names + [n])[1..] == names[1..] + [n] && (entries + [e])[1..] == entries[1..] + [e];
      MembersSizeAppend(names[1..], entries[1..], n, e, depth, fmt);
    } else {
      assert (names + [n])[1..] == [] && (entries + [e])[1..] == [];
    }
  }

  /** `print_object`: names and entries are printed and measured, then composed. */
  method PrintObject(ms: seq<Member>, depth0: nat, fmt: bool) returns (text: string)
    requires forall i | 0 <= i < |ms| :: CString(ms[i].key) && Printable(ms[i].value)
    ensures text == Print(Object(ms), depth0, fmt)
    decreases ms, 1
  {
    if |ms| == 0 {
      text := EmptyObjectText(depth0, fmt);
      return;
    }
    hide Print, Printable, Quote, CString, MembersSize, JoinMembers;
    PrintedObject(ms, depth0, fmt);
    var depth := depth0 + 1;
    var names, entries, len := MemberTexts(ms, depth, fmt);
    JoinIsPrintMembers(names, entries, ms, depth0, fmt);
    text := ComposeObject(names, entries, len, depth, fmt);
  }

  /** The loop of `print_object` that prints and measures the names and the entries. */
  method MemberTexts(ms: seq<Member>, depth: nat, fmt: bool) returns (names: seq<string>, entries: seq<string>, len: nat)
    requires forall i | 0 <= i < |ms| :: CString(ms[i].key) && Printable(ms[i].value)
    ensures |names| == |entries| == |ms|
    ensures len == 7 + (if fmt then depth else 0) + MembersSize(names, entries, depth, fmt)
    ensures forall i | 0 <= i < |ms| :: names[i] == Quote(ms[i].key) && entries[i] == Print(ms[i].value, depth, fmt)
    decreases ms, 0
  {
    hide Print, Printable, Quote, CString, MembersSize;
    NoMembersSize(depth, fmt);
    len := 7 + (if fmt then depth else 0);
    names, entries := [], [];
    for i := 0 to |ms|
      invariant |entries| == |names| == i
      invariant len == 7 + (if fmt then depth else 0) + MembersSize(names, entries, depth, fmt)
      invariant forall j | 0 <= j < i :: names[j] == Quote(ms[j].key) && entries[j] == Print(ms[j].value, depth, fmt)
    {
      var str := PrintStringPtr(ms[i].key);
      var ret := PrintValue(ms[i].value, depth, fmt);
      MembersSizeAppend(names, entries, str, ret, depth, fmt);
      names, entries := names + [str], entries + [ret];
      len := len + |ret| + |str| + 2 + (if fmt then 2 + depth else 0);
    }
  }

  lemma PrintedObject(ms: seq<Member>, depth: nat, fmt: bool)
    ensures Print(Object(ms), depth, fmt)
            == "{" + (if fmt then "\n" else "") + PrintMembers(ms, depth, fmt) + Indent(depth, fmt) + "}"
  {
  }

  lemma NoMembersSize(depth: nat, fmt: bool)
    ensures MembersSize([], [], depth, fmt) == 0
  {
  }

  method EmptyObjectText(depth: nat, fmt: bool) returns (text: string)
    ensures text == Print(Object([]), depth, fmt)
  {
    hide Tabs, Print;
    EmptyPrint(depth, fmt);
    var out := new char[if fmt then depth + 4 else 3];
    Put(out, 0, '{');
    var ptr: nat := 1;
    assert out[..ptr] == "{";
    if fmt {
      Put(out, ptr, '\n');
      ptr := PutTabs(out, ptr + 1, depth);
      assert out[..ptr] == "{\n" + Tabs(depth);
    } else {
      assert "{" + "" == "{";
    }
    assert out[..ptr] == (if fmt then "{\n" else "{") + Indent(depth, fmt);
    Put(out, ptr, '}');
    Put(out, ptr + 1, '\0');
    text := out[..ptr + 2][..ptr + 1];
  }

  lemma EmptyPrint(depth: nat, fmt: bool)
    ensures Print(Object([]), depth, fmt) == (if fmt then "{\n" else "{") + Indent(depth, fmt) + "}"
  {
    hide Indent;
    assert PrintMembers([], depth, fmt) == "";
    var open := "{" + (if fmt then "\n" else "");
    assert open + "" == open == if fmt then "{\n" else "{";
  }

  /** One turn of the composing loop of `print_object`. */
  method ComposeMember(out: array<char>, ptr0: nat, name: string, entry: string, last: bool, depth: nat, fmt: bool)
    returns (ptr: nat)
    requires depth > 0 && ptr0 + |name| + |entry| + 2 + (if fmt then 2 + depth else 0) < out.Length
    modifies out
    ensures ptr <= ptr0 + |name| + |entry| + 2 + (if fmt then 2 + depth else 0)
    ensures out[..ptr] == old(out[..ptr0])
      + (Indent(depth, fmt) + (name + (Colon(fmt) + entry)) + MemberEnd(last, fmt))
  {
    hide Tabs;
    ghost var start := out[..ptr0];
    assert start + "" == start;
    ptr := ptr0;
    TabsGrow(depth);
    if fmt { ptr := PutTabs(out, ptr, depth); }
    ptr := PutText(out, ptr, name);
    ptr := PutText(out, ptr, Colon(fmt));
    ptr := PutText(out, ptr, entry);
    KeyValueAssoc(start, Indent(depth, fmt), name, Colon(fmt), entry);
    ghost var member := Indent(depth, fmt) + (name + (Colon(fmt) + entry));
    ptr := PutMemberEnd(out, ptr, last, fmt);
    Assoc(start, member, MemberEnd(last, fmt));
    out[ptr] := '\0';
  }

  lemma KeyValueAssoc(start: string, indent: string, name: string, colon: string, entry: string)
    ensures start + indent + name + colon + entry == start + (indent + (name + (colon + entry)))
  {
  }

  method PutMemberEnd(out: array<char>, ptr0: nat, last: bool, fmt: bool) returns (ptr: nat)
    requires ptr0 + (if last then 0 else 1) + (if fmt then 1 else 0) <= out.Length
    modifies out
    ensures ptr == ptr0 + |MemberEnd(last, fmt)| && out[..ptr] == old(out[..ptr0]) + MemberEnd(last, fmt)
  {
    ptr := ptr0;
    if !last { Put(out, ptr, ','); ptr := ptr + 1; }
    if fmt { Put(out, ptr, '\n'); ptr := ptr + 1; }
  }

  /** The composing loop of `print_object`, in the `len` bytes allocated. */
  method ComposeObject(names: seq<string>, entries: seq<string>, len: nat, depth: nat, fmt: bool) returns (text: string)
    requires depth > 0 && names != [] && |names| == |entries|
    requires len == 7 + (if fmt then depth else 0) + MembersSize(names, entries, depth, fmt)
    ensures text == "{" + (if fmt then "\n" else "") + JoinMembers(names, entries, depth - 1, fmt)
                    + Indent(depth - 1, fmt) + "}"
  {
    hide Tabs, Colon, MemberEnd;
    var out := new char[len];
    Put(out, 0, '{');
    var ptr: nat := 1;
    if fmt { Put(out, 1, '\n'); ptr := 2; }
    out[ptr] := '\0';
    ghost var open := out[..ptr];
    assert open == "{" + (if fmt then "\n" else "");
    assert names[0..] == names && entries[0..] == entries;
    for i := 0 to |names|
      invariant ptr + MembersSize(names[i..], entries[i..], depth, fmt) + (if fmt then depth else 0) + 4 <= len == out.Length
      invariant fresh(out)
      invariant out[..ptr] + JoinMembers(names[i..], entries[i..], depth - 1, fmt)
                == open + JoinMembers(names, entries, depth - 1, fmt)
    {
      assert names[i..][1..] == names[i + 1..] && entries[i..][1..] == entries[i + 1..];
      ghost var start := out[..ptr];
      ptr := ComposeMember(out, ptr, names[i], entries[i], i == |names| - 1, depth, fmt);
      MemberAssoc(start, Indent(depth, fmt) + (names[i] + (Colon(fmt) + entries[i])),
                  MemberEnd(i == |names| - 1, fmt), JoinMembers(names[i + 1..], entries[i + 1..], depth - 1, fmt));
    }
    ghost var body := out[..ptr];
    assert body + "" == body;
    text := CloseObject(out, ptr, depth, fmt);
  }

  /** The end of `print_object`. */
  method CloseObject(out: array<char>, ptr0: nat, depth: nat, fmt: bool) returns (text: string)
    requires depth > 0 && ptr0 + (if fmt then depth else 0) + 2 <= out.Length
    modifies out
    ensures text == old(out[..ptr0]) + Indent(depth - 1, fmt) + "}"
  {
    hide Tabs;
    var ptr := ptr0;
    TabsGrow(depth - 1);
    if fmt { ptr := PutTabs(out, ptr, depth - 1); }
    assert out[..ptr] == old(out[..ptr0]) + Indent(depth - 1, fmt);
    Put(out, ptr, '}');
    Put(out, ptr + 1, '\0');
    text := out[..ptr + 2][..ptr + 1];
  }

  lemma MemberAssoc(start: string, member: string, end: string, more: string)
    ensures start + (member + end) + more == start + (member + (end + more))
  {
  }
}
