/**
 The parser of lib/cJSON.c with its cursors: each method moves an index through
 the text and computes what the functions of `Literal` and `Json` say.
 */
module Parser {
  import opened CText
  import opened Literal
  import opened LiteralProofs
  import opened Json
  import opened Safety
  import RoundTrip

  /** A returned cursor with what was read before it, or the error pointer. */
  datatype Read<+T> = Done(value: T, end: nat) | Failed(at: nat)

  /** What a method read of `text` is what the function read of the suffix. */
  ghost predicate Reads<T(!new)>(r: Read<T>, text: string, spec: Parse<T>) {
    match r
    case Done(v, end) => end <= |text| && spec == Ok(v, text[end..])
    case Failed(at) => at <= |text| && spec == Fail(text[at..])
  }

  lemma Suffix(text: string, at: nat, n: nat)
    requires at + n <= |text|
    ensures text[at..][n..] == text[at + n..]
    ensures forall i: nat :: At(text[at..], i) == At(text, at + i)
  {
  }

  /** `skip` */
  method SkipAt(text: string, at0: nat) returns (at: nat)
    requires at0 <= |text|
    ensures at0 <= at <= |text| && text[at..] == Skip(text[at0..])
  {
    at := at0;
    while At(text, at) != '\0' && At(text, at) as int <= 32
      invariant at0 <= at <= |text| && Skip(text[at..]) == Skip(text[at0..])
      decreases |text| - at
    {
      Suffix(text, at, 1);
      at := at + 1;
    }
    Suffix(text, at, 0);
  }

  // ------------------------------------------------------------------ digits

  /** A `do`/`while` run of digits, entered on any character: the accumulator and the count. */
  method DigitsAt(text: string, at0: nat, acc: nat) returns (n: nat, count: nat, at: nat)
    requires at0 <= |text|
    ensures at0 <= at <= |text| && Digits(text[at0..], acc) == (n, count, text[at..])
  {
    n, count, at := acc, 0, at0;
    while IsDigit(At(text, at))
      invariant at0 <= at <= |text|
      invariant var (m, k, rest) := Digits(text[at..], n); Digits(text[at0..], acc) == (m, count + k, rest)
      decreases |text| - at
    {
      Suffix(text, at, 1);
      n, count, at := n * 10 + DigitValue(At(text, at)), count + 1, at + 1;
    }
    Suffix(text, at, 0);
  }

  /** The zero and the digits before the point. */
  method WholePartAt(text: string, at: nat) returns (n: nat, num: nat)
    requires at <= |text|
    ensures num <= |text| && WholePart(text[at..]) == (n, text[num..])
  {
    n, num := 0, at;
    Suffix(text, num, 0);
    if At(text, num) == '0' {
      Suffix(text, num, 1);
      num := num + 1;
    }
    Suffix(text, num, 0);
    if '1' <= At(text, num) <= '9' {
      var count;
      n, count, num := DigitsAt(text, num, 0);
    }
  }

  /** The digits after the point, if a point and a digit follow. */
  method FractionAt(text: string, at: nat, n0: nat) returns (n: nat, places: nat, num: nat)
    requires at <= |text|
    ensures num <= |text| && Fraction(text[at..], n0) == (n, places, text[num..])
  {
    n, places, num := n0, 0, at;
    Suffix(text, num, 0);
    if At(text, num) == '.' && IsDigit(At(text, num + 1)) {
      Suffix(text, num, 1);
      n, places, num := DigitsAt(text, num + 1, n);
    }
  }

  /** The exponent and its sign. */
  method ExponentAt(text: string, at: nat) returns (e: int, num: nat)
    requires at <= |text|
    ensures num <= |text| && Exponent(text[at..]) == (e, text[num..])
  {
    var signsubscale: int;
    e, signsubscale, num := 0, 1, at;
    Suffix(text, num, 0);
    if At(text, num) == 'e' || At(text, num) == 'E' {
      Suffix(text, num, 1);
      num := num + 1;
      Suffix(text, num, 0);
      if At(text, num) == '+' {
        Suffix(text, num, 1);
        num := num + 1;
      } else if At(text, num) == '-' {
        Suffix(text, num, 1);
        signsubscale, num := -1, num + 1;
      }
      var count;
      e, count, num := DigitsAt(text, num, 0);
      e := if signsubscale == -1 then 0 - e else e;
    }
  }

  /** `parse_number` */
  method ParseNumberAt(text: string, at: nat) returns (v: Value, num: nat)
    requires at <= |text|
    ensures num <= |text| && ParseNumber(text[at..]) == (v, text[num..])
  {
    hide WholePart, Fraction, Exponent;
    var sign: int;
    num, sign := at, 1;
    Suffix(text, at, 0);
    if At(text, num) == '-' {
      Suffix(text, at, 1);
      sign, num := -1, num + 1;
    }
    var n, places: nat;
    var e: int;
    n, num := WholePartAt(text, num);
    n, places, num := FractionAt(text, num, n);
    e, num := ExponentAt(text, num);
    v := Number(if sign == -1 then -(n as int) else n, e - (places as int));
  }

  // ---------------------------------------------------------------- literals

  /** The value of one hexadecimal digit, if it is one. */
  function Nibble(c: char): Option<nat> {
    if IsHexDigit(c) then Some(HexValue(c)) else None
  }

  /** `parse_hex4`: each digit is read only after the one before it. */
  method ParseHex4At(text: string, at: nat) returns (h: nat)
    requires at <= |text|
    ensures h == Hex4(text[at..])
  {
    Suffix(text, at, 0);
    h := 0;
    var d := Nibble(At(text, at));
    if d.None? { return 0; }
    h := h + d.value;
    h := h * 16;
    d := Nibble(At(text, at + 1));
    if d.None? { return 0; }
    h := h + d.value;
    h := h * 16;
    d := Nibble(At(text, at + 2));
    if d.None? { return 0; }
    h := h + d.value;
    h := h * 16;
    d := Nibble(At(text, at + 3));
    if d.None? { return 0; }
    h := h + d.value;
  }

  /** The masks and shifts of the transcoder are the remainders and quotients used here. */
  lemma MasksAreRemainders(u: bv32, v: bv32)
    ensures (u | 0x80) & 0xBF == 0x80 + u % 0x40 && u >> 6 == u / 0x40
    ensures u & 0x3FF == u % 0x400
    ensures ((u & 0x3FF) << 10) | (v & 0x3FF) == ((u & 0x3FF) << 10) + (v & 0x3FF)
  {
  }

  /** The byte marks share no bit with what is left of the character. */
  lemma MarksAreAdded(u: bv32)
    ensures (u & 0x1F) | 0xC0 == 0xC0 + (u & 0x1F)
    ensures (u & 0x0F) | 0xE0 == 0xE0 + (u & 0x0F)
    ensures (u & 0x07) | 0xF0 == 0xF0 + (u & 0x07)
  {
  }

  /** The bytes before `ptr` are those before `from` and then `tail`. */
  ghost predicate Written(now: seq<char>, was: seq<char>, from: nat, ptr: nat, tail: string) {
    from <= ptr && ptr + |tail| <= |now| == |was| && now[..from] == was[..from] && now[ptr..ptr + |tail|] == tail
  }

  lemma WrittenNothing(now: seq<char>, from: nat, ptr: nat)
    requires from <= ptr <= |now|
    ensures Written(now, now, from, ptr, "")
  {
  }

  lemma WrittenEnds(now: seq<char>, was: seq<char>, from: nat, tail: string)
    requires Written(now, was, from, from, tail)
    ensures from + |tail| <= |now| && now[..from + |tail|] == was[..from] + tail
  {
    assert now[..from + |tail|] == now[..from] + now[from..from + |tail|];
  }

  /** `*--ptr2=c` */
  method PutBack(out: array<char>, ptr0: nat, c: char, ghost was: seq<char>, ghost from: nat, ghost tail: string)
    returns (ptr: nat)
    requires from < ptr0 && Written(out[..], was, from, ptr0, tail)
    modifies out
    ensures ptr == ptr0 - 1 && Written(out[..], was, from, ptr, [c] + tail)
  {
    ptr := ptr0 - 1;
    out[ptr] := c;
    assert out[ptr..ptr0 + |tail|] == [out[ptr]] + out[ptr0..ptr0 + |tail|];
  }

  lemma Utf8Length(u: nat)
    requires u < 0x11_0000
    ensures |Utf8(u)| == if u < 0x80 then 1 else if u < 0x800 then 2 else if u < 0x1_0000 then 3 else 4
    ensures u < 0x800 ==> u / 0x40 < 0x20
    ensures u < 0x1_0000 ==> u / 0x40 / 0x40 < 0x10
    ensures u / 0x40 / 0x40 / 0x40 < 5
  {
  }

  /** What is left of a character after `k` shifts. */
  function Shifted(u: nat, k: nat): nat {
    if k == 0 then u else Shifted(u, k - 1) / 0x40
  }

  /** The last `k` continuation bytes, from its low bits up. */
  function Continued(u: nat, k: nat): string {
    if k == 0 then "" else [(0x80 + Shifted(u, k - 1) % 0x40) as char] + Continued(u, k - 1)
  }

  function FirstMark(len: nat): nat {
    if len == 1 then 0 else if len == 2 then 0xC0 else if len == 3 then 0xE0 else 0xF0
  }

  /** The UTF-8 of a character is the marked first byte and the continuation bytes. */
  lemma Utf8Backward(u: nat, len: nat)
    requires u < 0x11_0000 && len == if u < 0x80 then 1 else if u < 0x800 then 2 else if u < 0x1_0000 then 3 else 4
    ensures |Utf8(u)| == len && FirstMark(len) + Shifted(u, len - 1) < 0x100
    ensures Utf8(u) == [(FirstMark(len) + Shifted(u, len - 1)) as char] + Continued(u, len - 1)
  {
    Utf8Length(u);
    assert Shifted(u, 0) == u && Shifted(u, 1) == u / 0x40 && Shifted(u, 2) == u / 0x40 / 0x40;
    assert Shifted(u, 3) == u / 0x40 / 0x40 / 0x40;
    assert Continued(u, 0) == "" && Continued(u, 1) == [(0x80 + u % 0x40) as char] + "";
    assert Continued(u, 2) == [(0x80 + u / 0x40 % 0x40) as char] + Continued(u, 1);
    assert Continued(u, 3) == [(0x80 + u / 0x40 / 0x40 % 0x40) as char] + Continued(u, 2);
  }

  /** One continuation byte before the ones written, and the shift. */
  method PutSextet(out: array<char>, ptr0: nat, uc0: nat, ghost u: nat, ghost k: nat, ghost was: seq<char>, ghost from: nat)
    returns (ptr: nat, uc: nat)
    requires from < ptr0 && uc0 == Shifted(u, k) && Written(out[..], was, from, ptr0, Continued(u, k))
    modifies out
    ensures ptr == ptr0 - 1 && uc == Shifted(u, k + 1) && Written(out[..], was, from, ptr, Continued(u, k + 1))
  {
    hide Written;
    ptr := PutBack(out, ptr0, (0x80 + uc0 % 0x40) as char, was, from, Continued(u, k));
    uc := uc0 / 0x40;
  }

  /** The backward writes of the transcoder, last byte first, falling through from the longest form. */
  method WriteUtf8(out: array<char>, ptr0: nat, u: nat) returns (ptr: nat)
    requires u < 0x11_0000 && ptr0 + |Utf8(u)| <= out.Length
    modifies out
    ensures ptr == ptr0 + |Utf8(u)|
    ensures out[..ptr] == old(out[..ptr0]) + Utf8(u)
  {
    var len := 4;
    if u < 0x80 { len := 1; } else if u < 0x800 { len := 2; } else if u < 0x1_0000 { len := 3; }
    hide Written, Utf8, Continued, Shifted;
    Utf8Backward(u, len);
    NoneShifted(u);
    ghost var was, k: nat := out[..], 0;
    var uc := u;
    ptr := ptr0 + len;
    assert Written(out[..], was, ptr0, ptr, "") by { WrittenNothing(was, ptr0, ptr); }
    if len >= 4 {
      ptr, uc := PutSextet(out, ptr, uc, u, k, was, ptr0);
      k := k + 1;
    }
    if len >= 3 {
      ptr, uc := PutSextet(out, ptr, uc, u, k, was, ptr0);
      k := k + 1;
    }
    if len >= 2 {
      ptr, uc := PutSextet(out, ptr, uc, u, k, was, ptr0);
      k := k + 1;
    }
    ptr := PutBack(out, ptr, (FirstMark(len) + uc) as char, was, ptr0, Continued(u, k));
    WrittenEnds(out[..], was, ptr0, Utf8(u));
    ptr := ptr + len;
  }

  lemma NoneShifted(u: nat)
    ensures Shifted(u, 0) == u && Continued(u, 0) == ""
  {
  }

  /** The `\u` case of the decoding loop, from the backslash: what it writes and where the cursor goes. */
  method UnicodeTurn(text: string, ptr0: nat, out: array<char>, into0: nat) returns (ptr: nat, into: nat)
    requires ptr0 + 2 <= |text| && text[ptr0] == '\\' && text[ptr0 + 1] == 'u'
    requires into0 + |UnicodeToken(text[ptr0..]).0| <= out.Length
    modifies out
    ensures ptr == ptr0 + UnicodeToken(text[ptr0..]).1 && into == into0 + |UnicodeToken(text[ptr0..]).0|
    ensures out[..into] == old(out[..into0]) + UnicodeToken(text[ptr0..]).0
  {
    hide Hex4, Utf8;
    Suffix(text, ptr0, 2);
    var uc := ParseHex4At(text, ptr0 + 2);
    ptr, into := ptr0 + 6, into0;
    if LowSurrogate(uc) || uc == 0 { return; }
    if HighSurrogate(uc) {
      if At(text, ptr0 + 6) != '\\' || At(text, ptr0 + 7) != 'u' { return; }
      Suffix(text, ptr0, 8);
      var uc2 := ParseHex4At(text, ptr0 + 8);
      ptr := ptr0 + 12;
      if !LowSurrogate(uc2) { return; }
      uc := JoinSurrogates(uc, uc2);
    }
    into := WriteUtf8(out, into0, uc);
  }

  /** One turn of the decoding loop. */
  method DecodeTurn(text: string, ptr0: nat, out: array<char>, into0: nat) returns (ptr: nat, into: nat)
    requires CString(text) && ptr0 < |text| && text[ptr0] != '\"' && ptr0 + Token(text[ptr0..]).1 <= |text|
    requires into0 + |Token(text[ptr0..]).0| <= out.Length
    modifies out
    ensures ptr == ptr0 + Token(text[ptr0..]).1 && into == into0 + |Token(text[ptr0..]).0|
    ensures out[..into] == old(out[..into0]) + Token(text[ptr0..]).0
  {
    hide UnicodeToken;
    Suffix(text, ptr0, 1);
    if text[ptr0] != '\\' {
      out[into0] := text[ptr0];
      return ptr0 + 1, into0 + 1;
    }
    var c := At(text, ptr0 + 1);
    if c == 'u' {
      ptr, into := UnicodeTurn(text, ptr0, out, into0);
      return;
    }
    out[into0] := match c
      case 'b' => '\U{0008}'
      case 'f' => '\U{000C}'
      case 'n' => '\n'
      case 'r' => '\r'
      case 't' => '\t'
      case _ => c;
    return ptr0 + 2, into0 + 1;
  }

  /** The first pass: the count that sizes the output. */
  method CountLoop(text: string, at: nat) returns (len: nat)
    requires CString(text) && at <= |text| && CountPass(text[at..]).Ok?
    ensures len == CountPass(text[at..]).value
  {
    hide CountPass, Decode, Consumed, CString;
    CStringAt(text);
    var ptr := at;
    len := 0;
    while At(text, ptr) != '\"' && At(text, ptr) != '\0'
      invariant at <= ptr <= |text|
      invariant CountPass(text[ptr..]).Ok? && CountPass(text[at..]).value == len + CountPass(text[ptr..]).value
      decreases |text| - ptr
    {
      len := len + 1;
      CountStep(text, ptr);
      if At(text, ptr) == '\\' { ptr := ptr + 1; }
      ptr := ptr + 1;
    }
    CountStop(text, ptr);
  }

  /** The terminator is only at the end. */
  lemma CStringAt(text: string)
    requires CString(text)
    ensures forall i | 0 <= i <= |text| :: At(text, i) == '\0' <==> i == |text|
  {
  }

  lemma CountStep(text: string, ptr: nat)
    requires ptr < |text| && text[ptr] != '\"' && CountPass(text[ptr..]).Ok?
    ensures var n := if text[ptr] == '\\' then 2 else 1;
      && ptr + n <= |text| && CountPass(text[ptr + n..]).Ok?
      && CountPass(text[ptr..]).value == 1 + CountPass(text[ptr + n..]).value
  {
    var n := if text[ptr] == '\\' then 2 else 1;
    PlainCounted(text[ptr..], n);
    Suffix(text, ptr, n);
  }

  lemma CountStop(text: string, ptr: nat)
    requires ptr <= |text| && (ptr < |text| ==> text[ptr] == '\"')
    ensures CountPass(text[ptr..]) == Ok(0, text[ptr..])
    ensures Decode(text[ptr..]) == Ok("", text[if ptr < |text| then ptr + 1 else ptr..])
  {
    if ptr < |text| { Suffix(text, ptr, 1); }
  }

  lemma DecodeAt(text: string, ptr: nat)
    requires ptr < |text| && text[ptr] != '\"' && Decode(text[ptr..]).Ok?
    ensures var (bytes, used) := Token(text[ptr..]);
      && ptr + used <= |text| && Decode(text[ptr + used..]).Ok?
      && Decode(text[ptr..]) == Prepend(bytes, Decode(text[ptr + used..]))
  {
    hide Token;
    var (bytes, used) := Token(text[ptr..]);
    DecodeStep(text[ptr..], bytes, used);
    Suffix(text, ptr, used);
  }

  /** `parse_string`: the second pass writes inside the `len + 1` bytes the first pass sized. */
  method ParseStringAt(text: string, at: nat, ghost depth: nat) returns (r: Read<string>)
    requires CString(text) && at <= |text| && SafeIn(text[at..], depth)
    ensures Reads(r, text, ParseString(text[at..]))
    ensures r.Done? ==> at < r.end && (depth > 0 ==> SafeIn(text[r.end..], depth))
  {
    hide SafeIn;
    SafeString(text[at..], depth);
    Suffix(text, at, 0);
    if At(text, at) != '\"' {
      return Failed(at);
    }
    Suffix(text, at, 1);
    r := LiteralAt(text, at);
  }

  lemma Allocation(text: string, at: nat)
    requires at < |text| && text[at] == '\"' && !ParseString(text[at..]).Overrun?
    ensures CountPass(text[at + 1..]).Ok? && Decode(text[at + 1..]).Ok?
    ensures |Decode(text[at + 1..]).value| <= CountPass(text[at + 1..]).value
    ensures ParseString(text[at..]) == Decode(text[at + 1..])
  {
    Suffix(text, at, 1);
  }

  /** The two passes, from the opening quote. */
  method LiteralAt(text: string, at: nat) returns (r: Read<string>)
    requires CString(text) && at < |text| && text[at] == '\"' && !ParseString(text[at..]).Overrun?
    ensures r.Done? && Reads(r, text, ParseString(text[at..])) && at < r.end
  {
    hide CountPass, Decode, ParseString, Token, Consumed;
    Allocation(text, at);
    var len := CountLoop(text, at + 1);
    var out := new char[len + 1];
    var ptr, into: nat := at + 1, 0;
    ghost var bytes, rest := Decode(text[at + 1..]).value, Decode(text[at + 1..]).rest;
    while At(text, ptr) != '\"' && At(text, ptr) != '\0'
      invariant at < ptr <= |text| && into <= out.Length && fresh(out)
      invariant Decode(text[ptr..]).Ok? && Decode(text[ptr..]).rest == rest
      invariant bytes == out[..into] + Decode(text[ptr..]).value && |bytes| <= len
      decreases |text| - ptr
    {
      DecodeAt(text, ptr);
      ghost var before, token := out[..into], Token(text[ptr..]).0;
      ptr, into := DecodeTurn(text, ptr, out, into);
      RoundTrip.Assoc(before, token, Decode(text[ptr..]).value);
    }
    CountStop(text, ptr);
    out[into] := '\0';
    assert out[..into] + "" == out[..into];
    assert Decode(text[at + 1..]) == Ok(out[..into], text[if ptr < |text| then ptr + 1 else ptr..]);
    if At(text, ptr) == '\"' { ptr := ptr + 1; }
    return Done(out[..into], ptr);
  }

  // ------------------------------------------------------------------ values

  /** `parse_value` */
  method ParseValueAt(text: string, at: nat, ghost depth: nat) returns (r: Read<Value>)
    requires CString(text) && at <= |text| && SafeIn(text[at..], depth)
    ensures Reads(r, text, ParseValue(text[at..])) && (r.Done? ==> at < r.end)
    ensures r.Done? && depth > 0 ==> SafeIn(text[r.end..], depth)
    decreases |text| - at, 1
  {
    hide CString, SafeIn, ParseArray, ParseObject, ParseNumber, ParseString;
    SafeValue(text[at..], depth);
    Suffix(text, at, 0);
    if "null" <= text[at..] { Suffix(text, at, 4); return Done(Null, at + 4); }
    if "false" <= text[at..] { Suffix(text, at, 5); return Done(False, at + 5); }
    if "true" <= text[at..] { Suffix(text, at, 4); return Done(True, at + 4); }
    if At(text, at) == '\"' {
      var s := ParseStringAt(text, at, depth);
      return match s case Done(t, end) => Done(Str(t), end) case Failed(e) => Failed(e);
    }
    if At(text, at) == '-' || IsDigit(At(text, at)) {
      var n, num := ParseNumberAt(text, at);
      return Done(n, num);
    }
    if At(text, at) == '[' { r := ParseArrayAt(text, at, depth); return; }
    if At(text, at) == '{' { r := ParseObjectAt(text, at, depth); return; }
    return Failed(at);
  }

  /** `parse_array` from the cursor after an element. */
  ghost function AfterItem(t: string, done: seq<Value>): Parse<Value> {
    if At(t, 0) == ',' then ParseItems(Skip(t[1..]), done)
    else if At(t, 0) == ']' then Ok(Array(done), t[1..])
    else Fail(t)
  }

  lemma ItemRead(s: string, done: seq<Value>)
    ensures var r := ParseValue(s);
      ParseItems(s, done) == if r.Ok? then AfterItem(Skip(r.rest), done + [r.value]) else r
  {
    hide ParseValue;
  }

  /** The branches after an element, by the character at the cursor. */
  lemma AfterItemAt(text: string, at: nat, done: seq<Value>)
    requires at <= |text|
    ensures var r := AfterItem(text[at..], done);
      && (At(text, at) == ',' ==> at < |text| && r == ParseItems(Skip(text[at + 1..]), done))
      && (At(text, at) == ']' ==> at < |text| && r == Ok(Array(done), text[at + 1..]))
      && (At(text, at) != ',' && At(text, at) != ']' ==> r == Fail(text[at..]))
  {
    hide ParseItems, Skip;
    if at < |text| { Suffix(text, at, 1); }
  }

  /** After a comma or a colon, and the blanks that follow. */
  lemma SafeComma(text: string, at: nat, depth: nat)
    requires at < |text| && text[at] in ",:" && SafeIn(text[at..], depth) && depth > 0
    ensures SafeIn(Skip(text[at + 1..]), depth)
  {
    hide SafeIn, Skip;
    Suffix(text, at, 1);
    SafeOne(text[at..], depth);
    SafeSkip(text[at + 1..], depth);
  }

  /** An element and the blanks after it. */
  method ItemAt(text: string, at: nat, ghost done: seq<Value>, ghost depth: nat) returns (r: Read<Value>)
    requires CString(text) && at <= |text| && SafeIn(text[at..], depth + 1)
    ensures r.Done? ==> at < r.end <= |text| && ParseItems(text[at..], done) == AfterItem(text[r.end..], done + [r.value])
    ensures r.Failed? ==> r.at <= |text| && ParseItems(text[at..], done) == Fail(text[r.at..])
    ensures r.Done? ==> SafeIn(text[r.end..], depth + 1)
    decreases |text| - at, 2
  {
    hide CString, SafeIn, ParseValue, ParseItems, Skip, AfterItem;
    ItemRead(text[at..], done);
    r := ParseValueAt(text, at, depth + 1);
    if r.Done? {
      SafeSkip(text[r.end..], depth + 1);
      var value := SkipAt(text, r.end);
      r := Done(r.value, value);
    }
  }

  /** `parse_array` */
  method ParseArrayAt(text: string, at: nat, ghost depth: nat) returns (r: Read<Value>)
    requires CString(text) && at < |text| && text[at] == '[' && SafeIn(text[at..], depth)
    ensures Reads(r, text, ParseArray(text[at..])) && (r.Done? ==> at < r.end)
    decreases |text| - at, 0
  {
    hide SafeIn;
    hide CString, ParseValue, ParseItems, Skip, AfterItem;
    ghost var spec := ParseArray(text[at..]);
    Suffix(text, at, 1);
    SafeOpen(text[at..], depth);
    SafeSkip(text[at + 1..], depth + 1);
    var value := SkipAt(text, at + 1);
    Suffix(text, value, 0);
    if At(text, value) == ']' {
      Suffix(text, value, 1);
      return Done(Array([]), value + 1);
    }
    var child := ItemAt(text, value, [], depth);
    if child.Failed? { return Failed(child.at); }
    var items := [] + [child.value];
    value := child.end;
    while At(text, value) == ','
      invariant at < value <= |text| && spec == AfterItem(text[value..], items) && SafeIn(text[value..], depth + 1)
      decreases |text| - value
    {
      AfterItemAt(text, value, items);
      SafeComma(text, value, depth + 1);
      value := SkipAt(text, value + 1);
      child := ItemAt(text, value, items, depth);
      if child.Failed? { return Failed(child.at); }
      items := items + [child.value];
      value := child.end;
    }
    AfterItemAt(text, value, items);
    if At(text, value) == ']' { return Done(Array(items), value + 1); }
    return Failed(value);
  }

  /** `parse_object` from the cursor after a member. */
  ghost function AfterMember(t: string, done: seq<Member>): Parse<Value> {
    if At(t, 0) == ',' then ParseMembers(Skip(t[1..]), done)
    else if At(t, 0) == '}' then Ok(Object(done), t[1..])
    else Fail(t)
  }

  /** One key, colon and value. */
  ghost function ParseMember(s: string): Parse<Member> {
    var (key, afterKey) :- ParseString(s);
    var colon := Skip(afterKey);
    if At(colon, 0) != ':' then Fail(colon)
    else
      var (v, after) :- ParseValue(Skip(colon[1..]));
      Ok(Member(key, v), after)
  }

  lemma MemberRead(s: string, done: seq<Member>)
    ensures var r := ParseMember(s);
      ParseMembers(s, done) == if r.Ok? then AfterMember(Skip(r.rest), done + [r.value]) else r.PropagateFailure()
  {
    hide ParseValue, ParseString;
  }

  /** The branches after a member, by the character at the cursor. */
  lemma AfterMemberAt(text: string, at: nat, done: seq<Member>)
    requires at <= |text|
    ensures var r := AfterMember(text[at..], done);
      && (At(text, at) == ',' ==> at < |text| && r == ParseMembers(Skip(text[at + 1..]), done))
      && (At(text, at) == '}' ==> at < |text| && r == Ok(Object(done), text[at + 1..]))
      && (At(text, at) != ',' && At(text, at) != '}' ==> r == Fail(text[at..]))
  {
    hide ParseMembers, Skip;
    if at < |text| { Suffix(text, at, 1); }
  }

  /** A key, a colon, a value and the blanks after it. */
  method MemberAt(text: string, at: nat, ghost done: seq<Member>, ghost depth: nat) returns (r: Read<Member>)
    requires CString(text) && at <= |text| && SafeIn(text[at..], depth + 1)
    ensures r.Done? ==>
      at < r.end <= |text| && ParseMembers(text[at..], done) == AfterMember(text[r.end..], done + [r.value])
    ensures r.Failed? ==> r.at <= |text| && ParseMembers(text[at..], done) == Fail(text[r.at..])
    ensures r.Done? ==> SafeIn(text[r.end..], depth + 1)
    decreases |text| - at, 2
  {
    hide CString, SafeIn, ParseValue, ParseString, ParseMembers, Skip, AfterMember;
    MemberRead(text[at..], done);
    var key := ParseStringAt(text, at, depth + 1);
    if key.Failed? { return Failed(key.at); }
    SafeSkip(text[key.end..], depth + 1);
    var value := SkipAt(text, key.end);
    Suffix(text, value, 0);
    if At(text, value) != ':' { return Failed(value); }
    Suffix(text, value, 1);
    SafeComma(text, value, depth + 1);
    value := SkipAt(text, value + 1);
    var child := ParseValueAt(text, value, depth + 1);
    if child.Failed? { return Failed(child.at); }
    SafeSkip(text[child.end..], depth + 1);
    value := SkipAt(text, child.end);
    return Done(Member(key.value, child.value), value);
  }

  /** `parse_object` */
  method ParseObjectAt(text: string, at: nat, ghost depth: nat) returns (r: Read<Value>)
    requires CString(text) && at < |text| && text[at] == '{' && SafeIn(text[at..], depth)
    ensures Reads(r, text, ParseObject(text[at..])) && (r.Done? ==> at < r.end)
    decreases |text| - at, 0
  {
    hide SafeIn;
    hide CString, ParseMembers, Skip, AfterMember;
    ghost var spec := ParseObject(text[at..]);
    Suffix(text, at, 1);
    SafeOpen(text[at..], depth);
    SafeSkip(text[at + 1..], depth + 1);
    var value := SkipAt(text, at + 1);
    Suffix(text, value, 0);
    if At(text, value) == '}' {
      Suffix(text, value, 1);
      return Done(Object([]), value + 1);
    }
    var child := MemberAt(text, value, [], depth);
    if child.Failed? { return Failed(child.at); }
    var members := [] + [child.value];
    value := child.end;
    while At(text, value) == ','
      invariant at < value <= |text| && spec == AfterMember(text[value..], members) && SafeIn(text[value..], depth + 1)
      decreases |text| - value
    {
      AfterMemberAt(text, value, members);
      SafeComma(text, value, depth + 1);
      value := SkipAt(text, value + 1);
      child := MemberAt(text, value, members, depth);
      if child.Failed? { return Failed(child.at); }
      members := members + [child.value];
      value := child.end;
    }
    AfterMemberAt(text, value, members);
    if At(text, value) == '}' { return Done(Object(members), value + 1); }
    return Failed(value);
  }

  /** `cJSON_ParseWithOpts` */
  method ParseTextAt(text: string, whole: bool) returns (r: Read<Value>)
    requires CString(text) && Safe(text)
    ensures Reads(r, text, ParseText(text, whole))
  {
    hide CString, SafeIn, ParseValue, Skip;
    assert text[0..] == text;
    SafeSkip(text, 0);
    var start := SkipAt(text, 0);
    r := ParseValueAt(text, start, 0);
    if r.Done? && whole {
      var end := SkipAt(text, r.end);
      assert text[end..] == "" <==> end == |text|;
      if end < |text| { return Failed(end); }
      return Done(r.value, end);
    }
  }
}
