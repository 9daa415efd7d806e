/**
 The buffered printers of lib/cJSON.c: one growing buffer, whose `offset` is
 brought up to date by the caller after a value has been printed.
 */
module BufferedPrinter {
  import opened CText
  import opened Literal
  import opened Json
  import opened RoundTrip
  import opened PowerOfTwo
  import P = Printer

  /** The most bytes `pow2gt` can size without overflowing C's `int`. */
  const LIMIT: nat := 0x4000_0000

  /** The slack of `print_number`, the largest request beyond what is written. */
  const SLACK: nat := 21

  lemma ConcatCString(a: string, b: string)
    requires CString(a) && CString(b)
    ensures CString(a + b)
  {
  }

  class PrintBuffer {
    var buffer: array<char>
    var length: nat
    var offset: nat

    ghost predicate Valid()
      reads this, buffer
    {
      buffer.Length == length && offset <= length && CString(buffer[..offset])
    }

    /** The text before the offset. */
    ghost function Committed(): string
      reads this, buffer
      requires offset <= buffer.Length
    {
      buffer[..offset]
    }

    /** The buffer holds `all`, of which the offset may still have to pass some. */
    ghost predicate Printed(all: string)
      reads this, buffer
    {
      Valid() && Holds(buffer[..], all) && offset <= |all|
    }

    constructor (prebuffer: nat)
      requires prebuffer > 0
      ensures Valid() && Committed() == "" && fresh(buffer)
    {
      buffer := new char[prebuffer];
      length := prebuffer;
      offset := 0;
    }

    /** `ensure`: room for `needed` bytes at the offset, every byte already held kept. */
    method Ensure(needed: nat)
      requires Valid() && 0 < needed && offset + needed <= LIMIT
      modifies this
      ensures Valid() && offset == old(offset) && offset + needed <= length
      ensures old(length) <= length && buffer[..old(length)] == old(buffer[..])
      ensures buffer == old(buffer) || fresh(buffer)
      ensures if old(offset) + needed <= old(length) then buffer == old(buffer) else LeastPowerFrom(length, offset + needed)
    {
      if offset + needed <= length { return; }
      var newsize := Pow2Gt(offset + needed);
      var newbuffer := new char[newsize];
      forall i | 0 <= i < length { newbuffer[i] := buffer[i]; }
      assert newbuffer[..length] == buffer[..];
      assert newbuffer[..offset] == newbuffer[..length][..offset];
      length := newsize;
      buffer := newbuffer;
    }

    /** `update`: the offset past the text at it, however far it lagged behind. */
    method Update(ghost all: string)
      requires Printed(all)
      modifies this`offset
      ensures Valid() && offset == |all| && Committed() == all
    {
      var at := offset;
      while buffer[at] != '\0'
        invariant offset <= at <= |all| && at < buffer.Length
        decreases |all| - at
      {
        HoldsAt(buffer[..], all, at);
        at := at + 1;
      }
      HoldsAt(buffer[..], all, at);
      assert buffer[..at] == buffer[..|all|];
      offset := at;
    }

    /** `ptr=ensure(p,needed)`, the bytes of `s`, and `p->offset+=`. */
    method Append(s: string, needed: nat)
      requires Valid() && CString(s) && 0 < needed && |s| <= needed && offset + needed <= LIMIT
      modifies this, buffer
      ensures Valid() && offset == old(offset) + |s| && Committed() == old(Committed()) + s
      ensures buffer == old(buffer) || fresh(buffer)
    {
      ghost var before := Committed();
      Ensure(needed);
      assert buffer[..offset] == before;
      var ptr := P.PutText(buffer, offset, s);
      if |s| < needed {
        buffer[ptr] := '\0';
      }
      ConcatCString(before, s);
      assert buffer[..ptr] == before + s;
      offset := ptr;
    }

    /** `ptr=ensure(p,needed)` and the bytes of `s` with a terminator, the offset left behind. */
    method Finish(s: string, needed: nat)
      requires Valid() && CString(s) && |s| < needed && offset + needed <= LIMIT
      modifies this, buffer
      ensures Printed(old(Committed()) + s) && offset == old(offset)
      ensures buffer == old(buffer) || fresh(buffer)
    {
      ghost var before := Committed();
      Ensure(needed);
      assert buffer[..offset] == before;
      var ptr := P.PutText(buffer, offset, s);
      buffer[ptr] := '\0';
      ConcatCString(before, s);
      assert buffer[..ptr] == before + s;
      assert buffer[..offset] == buffer[..ptr][..offset];
    }

    /** `print_value` with a print buffer; the result is an index into it. */
    method PrintValue(v: Value, depth: nat, fmt: bool) returns (out: nat)
      requires Valid() && Printable(v) && offset + |Print(v, depth, fmt)| + SLACK <= LIMIT
      modifies this, buffer
      ensures Printed(old(Committed()) + Print(v, depth, fmt))
      ensures old(offset) <= offset && (buffer == old(buffer) || fresh(buffer))
      ensures out == ReturnedAt(v, depth, fmt, old(offset))
      decreases v, 2
    {
      out := offset;
      match v
      case Null => Finish("null", 5);
      case False => Finish("false", 6);
      case True => Finish("true", 5);
      case Number(m, _) => PrintNumber(m);
      case Str(s) => PrintStringPtr(s);
      case Array(items) => out := PrintArray(items, depth, fmt);
      case Object(ms) => out := PrintObject(ms, depth, fmt);
    }

    /** `print_number` on an integer. */
    method PrintNumber(n: int)
      requires Valid() && INT_MIN <= n <= INT_MAX && offset + SLACK <= LIMIT
      modifies this, buffer
      ensures Printed(old(Committed()) + PrintInt(n)) && offset == old(offset)
      ensures buffer == old(buffer) || fresh(buffer)
    {
      IntText(n);
      if n == 0 {
        ZeroText();
        Finish("0", 2);
      } else {
        Finish(PrintInt(n), 21);
      }
    }

    /** `print_string_ptr` */
    method PrintStringPtr(str: string)
      requires Valid() && CString(str) && offset + |Quote(str)| + 1 <= LIMIT
      modifies this, buffer
      ensures Printed(old(Committed()) + Quote(str)) && offset == old(offset)
      ensures buffer == old(buffer) || fresh(buffer)
    {
      ghost var before := Committed();
      var len, flag := P.LiteralLength(str);
      Ensure(len + 3);
      assert buffer[..offset] == before;
      var end := P.WriteLiteral(buffer, offset, str, flag);
      QuoteCString(str);
      ConcatCString(before, Quote(str));
      assert buffer[..offset] == buffer[..end][..offset];
    }

    /** `print_value` and the `update` after it. */
    method AppendValue(v: Value, depth: nat, fmt: bool)
      requires Valid() && Printable(v) && offset + |Print(v, depth, fmt)| + SLACK <= LIMIT
      modifies this, buffer
      ensures Valid() && offset == old(offset) + |Print(v, depth, fmt)|
      ensures Committed() == old(Committed()) + Print(v, depth, fmt)
      ensures buffer == old(buffer) || fresh(buffer)
      decreases v, 3
    {
      hide Print, Printable, CString, Holds;
      ghost var all := Committed() + Print(v, depth, fmt);
      var child := PrintValue(v, depth, fmt);
      Update(all);
    }

    /** `print_string_ptr` and the `update` after it. */
    method AppendLiteral(str: string)
      requires Valid() && CString(str) && offset + |Quote(str)| + 1 <= LIMIT
      modifies this, buffer
      ensures Valid() && offset == old(offset) + |Quote(str)| && Committed() == old(Committed()) + Quote(str)
      ensures buffer == old(buffer) || fresh(buffer)
    {
      hide Quote, CString, Holds;
      ghost var all := Committed() + Quote(str);
      PrintStringPtr(str);
      Update(all);
    }

    /** `print_array` with a print buffer. */
    method PrintArray(items: seq<Value>, depth: nat, fmt: bool) returns (out: nat)
      requires Valid() && forall i | 0 <= i < |items| :: Printable(items[i])
      requires offset + |Print(Array(items), depth, fmt)| + SLACK <= LIMIT
      modifies this, buffer
      ensures Printed(old(Committed()) + Print(Array(items), depth, fmt))
      ensures old(offset) <= offset && (buffer == old(buffer) || fresh(buffer))
      ensures out == old(offset)
      decreases items, 1
    {
      hide Print, Printable, Pow2, CString, Holds;
      Punctuation();
      ghost var start := Committed();
      ArrayText(items, depth, fmt);
      out := offset;
      if |items| == 0 {
        Finish("[]", 3);
        return;
      }
      Append("[", 1);
      assert items[0..] == items;
      for i := 0 to |items|
        invariant Valid() && out <= offset && (buffer == old(buffer) || fresh(buffer))
        invariant offset + |PrintItems(items[i..], depth, fmt)| + 1 + SLACK <= LIMIT
        invariant Committed() + PrintItems(items[i..], depth, fmt) == start + "[" + PrintItems(items, depth, fmt)
      {
        ItemsText(items, i, depth, fmt);
        ghost var before, printed := Committed(), Print(items[i], depth + 1, fmt);
        AppendValue(items[i], depth + 1, fmt);
        if i + 1 < |items| {
          Append(if fmt then ", " else ",", (if fmt then 2 else 1) + 1);
        }
        ItemsJoin(before, printed, items, i, depth, fmt);
      }
      ghost var body := Committed();
      assert body + "" == body;
      Finish("]", 2);
      P.Assoc3(start, "[", PrintItems(items, depth, fmt), "]");
    }

    /** `print_object` with a print buffer. */
    method PrintObject(ms: seq<Member>, depth0: nat, fmt: bool) returns (out: nat)
      requires Valid() && forall i | 0 <= i < |ms| :: CString(ms[i].key) && Printable(ms[i].value)
      requires offset + |Print(Object(ms), depth0, fmt)| + SLACK <= LIMIT
      modifies this, buffer
      ensures Printed(old(Committed()) + Print(Object(ms), depth0, fmt))
      ensures old(offset) <= offset && (buffer == old(buffer) || fresh(buffer))
      ensures out == ReturnedAt(Object(ms), depth0, fmt, old(offset))
      decreases ms, 1
    {
      hide Print, Printable, Pow2, Quote, CString, Tabs, Holds;
      Punctuation();
      ghost var start := Committed();
      ObjectParts(start, ms, depth0, fmt);
      out := offset;
      if |ms| == 0 {
        EmptyParts(depth0, fmt);
        Finish((if fmt then "{\n" else "{") + Indent(depth0, fmt) + "}", if fmt then depth0 + 4 else 3);
        return;
      }
      var len := if fmt then 2 else 1;
      Append(if fmt then "{\n" else "{", len + 1);
      var depth := depth0 + 1;
      assert ms[0..] == ms;
      for i := 0 to |ms|
        invariant Valid() && old(offset) <= offset && (buffer == old(buffer) || fresh(buffer))
        invariant offset + |PrintMembers(ms[i..], depth0, fmt)| + |Indent(depth0, fmt)| + 1 + SLACK <= LIMIT
        invariant Committed() + PrintMembers(ms[i..], depth0, fmt)
                  == start + (if fmt then "{\n" else "{") + PrintMembers(ms, depth0, fmt)
      {
        PrintMember(ms, i, depth, fmt);
      }
      ghost var body := Committed();
      assert body + "" == body;
      IndentCString(depth - 1, fmt);
      if fmt {
        // The loop that writes the tabs counts with the variable that held the start.
        out := depth - 1;
      }
      Finish(Indent(depth - 1, fmt) + "}", if fmt then depth + 1 else 2);
    }

    /** One turn of the loop of `print_object`, `depth` being one more than the object's. */
    method PrintMember(ms: seq<Member>, i: nat, depth: nat, fmt: bool)
      requires Valid() && i < |ms| && depth > 0 && CString(ms[i].key) && Printable(ms[i].value)
      requires offset + |PrintMembers(ms[i..], depth - 1, fmt)| + SLACK <= LIMIT
      modifies this, buffer
      ensures Valid() && old(offset) <= offset && (buffer == old(buffer) || fresh(buffer))
      ensures offset + |PrintMembers(ms[i + 1..], depth - 1, fmt)| == old(offset) + |PrintMembers(ms[i..], depth - 1, fmt)|
      ensures Committed() + PrintMembers(ms[i + 1..], depth - 1, fmt)
              == old(Committed()) + PrintMembers(ms[i..], depth - 1, fmt)
      decreases ms, 0
    {
      hide Print, PrintMembers, MemberEnd, Colon, Printable, Pow2, Quote, CString, Tabs, Holds;
      ghost var start := Committed();
      MemberParts(start, ms, i, depth - 1, fmt);
      IndentCString(depth, fmt);
      if fmt { Append(Indent(depth, fmt), depth); } else { assert start + "" == start; }
      AppendLiteral(ms[i].key);
      var len := if fmt then 2 else 1;
      Append(Colon(fmt), len);
      AppendValue(ms[i].value, depth, fmt);
      len := (if fmt then 1 else 0) + (if i + 1 < |ms| then 1 else 0);
      Append(MemberEnd(i + 1 == |ms|, fmt), len + 1);
    }
  }

  lemma Punctuation()
    ensures CString("[") && CString("]") && CString("[]") && CString(",") && CString(", ") && CString("{") && CString("{\n")
  {
  }

  lemma ArrayText(items: seq<Value>, depth: nat, fmt: bool)
    ensures Print(Array(items), depth, fmt) == "[" + PrintItems(items, depth, fmt) + "]"
    ensures items == [] ==> Print(Array(items), depth, fmt) == "[]"
  {
  }

  /** The items from the `i`th are its text, a separator if another follows, and the rest. */
  lemma ItemsText(items: seq<Value>, i: nat, depth: nat, fmt: bool)
    requires i < |items|
    ensures PrintItems(items[i..], depth, fmt) == Print(items[i], depth + 1, fmt)
      + (if i + 1 < |items| then (if fmt then ", " else ",") + PrintItems(items[i + 1..], depth, fmt) else "")
    ensures i + 1 == |items| ==> PrintItems(items[i + 1..], depth, fmt) == ""
  {
    hide Print;
    assert items[i..][1..] == items[i + 1..];
  }

  lemma ItemsJoin(before: string, printed: string, items: seq<Value>, i: nat, depth: nat, fmt: bool)
    requires i < |items| && printed == Print(items[i], depth + 1, fmt)
    ensures before + PrintItems(items[i..], depth, fmt)
      == before + printed + (if i + 1 < |items| then if fmt then ", " else "," else "") + PrintItems(items[i + 1..], depth, fmt)
  {
    hide Print, PrintItems;
    ItemsText(items, i, depth, fmt);
  }

  lemma {:induction false} TabsCString(n: nat)
    ensures CString(Tabs(n)) && |Tabs(n)| == n
  {
    if n > 0 { TabsCString(n - 1); }
  }

  lemma IndentCString(depth: nat, fmt: bool)
    ensures CString(Indent(depth, fmt)) && CString(Indent(depth, fmt) + "}") && |Indent(depth, fmt)| == if fmt then depth else 0
  {
    hide Tabs;
    TabsCString(depth);
  }

  lemma ObjectParts(start: string, ms: seq<Member>, depth: nat, fmt: bool)
    ensures var text := Print(Object(ms), depth, fmt);
      && |text| == (if fmt then 2 else 1) + |PrintMembers(ms, depth, fmt)| + |Indent(depth, fmt)| + 1
      && start + text == start + (if fmt then "{\n" else "{") + PrintMembers(ms, depth, fmt) + (Indent(depth, fmt) + "}")
  {
    hide PrintMembers, Tabs;
    var open, members, indent := if fmt then "{\n" else "{", PrintMembers(ms, depth, fmt), Indent(depth, fmt);
    assert "{" + (if fmt then "\n" else "") == open;
    Assoc(open + members, indent, "}");
    Assoc(start, open + members, indent + "}");
    Assoc(start, open, members);
  }

  lemma EmptyParts(depth: nat, fmt: bool)
    ensures var text := (if fmt then "{\n" else "{") + Indent(depth, fmt) + "}";
      text == Print(Object([]), depth, fmt) && CString(text) && |text| == if fmt then depth + 3 else 2
  {
    hide Tabs;
    NoMembers(depth, fmt);
    IndentCString(depth, fmt);
    var open := if fmt then "{\n" else "{";
    assert "{" + (if fmt then "\n" else "") + "" == open;
  }

  /** The members from the `i`th are its pieces and the rest. */
  lemma MemberParts(start: string, ms: seq<Member>, i: nat, depth: nat, fmt: bool)
    requires i < |ms|
    ensures var (indent, key, colon) := (Indent(depth + 1, fmt), Quote(ms[i].key), Colon(fmt));
      var (value, end) := (Print(ms[i].value, depth + 1, fmt), MemberEnd(i + 1 == |ms|, fmt));
      var more := PrintMembers(ms[i + 1..], depth, fmt);
      && |PrintMembers(ms[i..], depth, fmt)| == |indent| + |key| + |colon| + |value| + |end| + |more|
      && start + indent + key + colon + value + end + more == start + PrintMembers(ms[i..], depth, fmt)
      && CString(colon) && CString(end) && |colon| == (if fmt then 2 else 1)
      && |end| == (if fmt then 1 else 0) + (if i + 1 < |ms| then 1 else 0)
  {
    hide Print, Quote, Tabs;
    assert ms[i..][1..] == ms[i + 1..];
    var (indent, key, colon) := (Indent(depth + 1, fmt), Quote(ms[i].key), Colon(fmt));
    var (value, end) := (Print(ms[i].value, depth + 1, fmt), MemberEnd(i + 1 == |ms|, fmt));
    P.KeyValueAssoc(start, indent, key, colon, value);
    P.MemberAssoc(start, indent + (key + (colon + value)), end, PrintMembers(ms[i + 1..], depth, fmt));
    Assoc(start, indent + (key + (colon + value)), end);
  }

  /** Where `print_value` says its text starts. In the formatted branch of
      `print_object` the variable that holds the start is reused to count tabs. */
  function ReturnedAt(v: Value, depth: nat, fmt: bool, start: nat): nat {
    if v.Object? && v.members != [] && fmt then depth else start
  }

  lemma IntText(n: int)
    requires INT_MIN <= n <= INT_MAX
    ensures CString(PrintInt(n)) && |PrintInt(n)| <= 11
  {
    P.IntLength(n);
    DecimalDenotes(if n < 0 then -n else n);
    hide Decimal;
  }

  lemma {:induction false} EscapeCString(s: string)
    requires CString(s)
    ensures CString(Escape(s))
  {
    if s != "" {
      EscapeCString(s[1..]);
      EscapeCharCString(s[0]);
    }
  }

  lemma EscapeCharCString(c: char)
    requires 0 < c as int < 256
    ensures CString(EscapeChar(c))
  {
  }

  lemma QuoteCString(s: string)
    requires CString(s)
    ensures CString(Quote(s))
  {
    hide Escape;
    EscapeCString(s);
  }

  /** Printing makes no NUL: the text of a printable value is a C string. */
  lemma {:induction false} PrintCString(v: Value, depth: nat, fmt: bool)
    requires Printable(v)
    ensures CString(Print(v, depth, fmt))
    decreases v, 1
  {
    hide CString, PrintInt, Quote, Tabs, PrintItems, PrintMembers, Indent;
    Punctuation();
    match v
    case Null => Constants();
    case False => Constants();
    case True => Constants();
    case Number(m, _) => IntText(m);
    case Str(t) => QuoteCString(t);
    case Array(items) =>
      ItemsCString(items, depth, fmt);
      ConcatCString("[", PrintItems(items, depth, fmt));
      ConcatCString("[" + PrintItems(items, depth, fmt), "]");
    case Object(ms) =>
      MembersCString(ms, depth, fmt);
      IndentCString(depth, fmt);
      var (open, body) := ("{" + (if fmt then "\n" else ""), PrintMembers(ms, depth, fmt));
      assert open == if fmt then "{\n" else "{";
      ConcatCString(open, body);
      ConcatCString(open + body, Indent(depth, fmt));
      ConcatCString(open + body + Indent(depth, fmt), "}");
  }

  lemma Constants()
    ensures CString("null") && CString("false") && CString("true") && CString("}")
  {
  }

  lemma {:induction false} ItemsCString(items: seq<Value>, depth: nat, fmt: bool)
    requires forall i | 0 <= i < |items| :: Printable(items[i])
    ensures CString(PrintItems(items, depth, fmt))
    decreases items, 0
  {
    if items == [] {
    } else {
      PrintCString(items[0], depth + 1, fmt);
      ItemsCString(items[1..], depth, fmt);
      var p, comma := Print(items[0], depth + 1, fmt), if fmt then ", " else ",";
      hide Print, Printable;
      Punctuation();
      ConcatCString(p, comma);
      ConcatCString(p + comma, PrintItems(items[1..], depth, fmt));
      hide CString;
    }
  }

  lemma {:induction false} MembersCString(ms: seq<Member>, depth: nat, fmt: bool)
    requires forall i | 0 <= i < |ms| :: CString(ms[i].key) && Printable(ms[i].value)
    ensures CString(PrintMembers(ms, depth, fmt))
    decreases ms, 0
  {
    if ms == [] {
    } else {
      PrintCString(ms[0].value, depth + 1, fmt);
      MembersCString(ms[1..], depth, fmt);
      hide Print, Printable, CString, Quote, Indent, Colon, MemberEnd;
      IndentCString(depth + 1, fmt);
      QuoteCString(ms[0].key);
      MarksCString(|ms| == 1, fmt);
      var value, more := Print(ms[0].value, depth + 1, fmt), PrintMembers(ms[1..], depth, fmt);
      ConcatCString(Colon(fmt), value);
      ConcatCString(Quote(ms[0].key), Colon(fmt) + value);
      ConcatCString(Indent(depth + 1, fmt), Quote(ms[0].key) + (Colon(fmt) + value));
      ConcatCString(MemberEnd(|ms| == 1, fmt), more);
      ConcatCString(Indent(depth + 1, fmt) + (Quote(ms[0].key) + (Colon(fmt) + value)), MemberEnd(|ms| == 1, fmt) + more);
    }
  }

  lemma MarksCString(last: bool, fmt: bool)
    ensures CString(Colon(fmt)) && CString(MemberEnd(last, fmt))
  {
  }

  /** `cJSON_PrintBuffered`: for every size of the first buffer, the text of the composing printer. */
  method PrintBuffered(v: Value, prebuffer: nat, fmt: bool) returns (text: string)
    requires prebuffer > 0 && Printable(v) && |Print(v, 0, fmt)| + SLACK <= LIMIT
    ensures text == Print(v, 0, fmt)
  {
    hide Print, Printable;
    var p := new PrintBuffer(prebuffer);
    var out := p.PrintValue(v, 0, fmt);
    assert "" + Print(v, 0, fmt) == Print(v, 0, fmt);
    assert out == 0;
    text := StringAt(p.buffer, out, Print(v, 0, fmt));
  }

  /** The C string that a returned pointer denotes. */
  method StringAt(buffer: array<char>, out: nat, ghost all: string) returns (text: string)
    requires Holds(buffer[..], all) && out <= |all|
    ensures text == all[out..]
  {
    var at := out;
    while buffer[at] != '\0'
      invariant out <= at <= |all| && at < buffer.Length
      decreases |all| - at
    {
      HoldsAt(buffer[..], all, at);
      at := at + 1;
    }
    HoldsAt(buffer[..], all, at);
    text := buffer[out..at];
    assert text == buffer[..|all|][out..];
  }
}
