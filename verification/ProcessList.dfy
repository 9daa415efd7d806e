/**
 The process table and its file (src/process.c): deleting an app from the array
 of slots, and writing the table as JSON and reading it back.
 */
module ProcessList {
  import opened CText
  import opened Json
  import opened Safety
  import RoundTrip
  import LiteralProofs
  import Literal
  import Parser
  import Printer

  const LIST_SIZE := 256

  /** `process_s`, without the memory figure that only a status answer fills in. */
  datatype App = App(
    name: string, cmd: string, dir: string,
    pid: int, isRunning: int, id: int, restartTimes: int, startTime: int)

  /** A slot as C zeroes it. */
  const BLANK := App("", "", "", 0, 0, 0, 0, 0)

  // ------------------------------------------------------------ object items

  function LowerChar(c: char): char {
    if 'A' <= c <= 'Z' then (c as int + 32) as char else c
  }

  function Lower(s: string): (r: string)
    ensures |r| == |s|
  {
    seq(|s|, i requires 0 <= i < |s| => LowerChar(s[i]))
  }

  /** `cJSON_strcasecmp`: whether the strings differ by more than case. */
  method Strcasecmp(s: string, t: string) returns (differ: bool)
    requires CString(s) && CString(t)
    ensures differ <==> Lower(s) != Lower(t)
  {
    var i := 0;
    while LowerChar(At(s, i)) == LowerChar(At(t, i))
      invariant i <= |s| && i <= |t| && forall j | 0 <= j < i :: LowerChar(s[j]) == LowerChar(t[j])
      decreases |s| - i
    {
      if At(s, i) == '\0' {
        assert Lower(s) == Lower(t);
        return false;
      }
      i := i + 1;
    }
    assert i < |s| && i < |t| ==> Lower(s)[i] != Lower(t)[i];
    return true;
  }

  /** The index of the first member that `cJSON_GetObjectItem` takes for `key`. */
  function Find(ms: seq<Member>, key: string, i: nat): (k: nat)
    requires i <= |ms|
    ensures i <= k <= |ms|
    ensures k < |ms| ==> Lower(ms[k].key) == Lower(key)
    ensures forall j | i <= j < k :: Lower(ms[j].key) != Lower(key)
    decreases |ms| - i
  {
    if i == |ms| || Lower(ms[i].key) == Lower(key) then i else Find(ms, key, i + 1)
  }

  /** The children of a node that has some, with their keys; those of an array have none. */
  function Members(v: Value): seq<Member> {
    if v.Object? then v.members else []
  }

  function GetObjectItem(v: Value, key: string): Option<Value> {
    var ms := Members(v);
    var k := Find(ms, key, 0);
    if k < |ms| then Some(ms[k].value) else None
  }

  method GetItem(v: Value, key: string) returns (r: Option<Value>)
    requires CStrings(v) && CString(key)
    ensures r == GetObjectItem(v, key)
  {
    var ms := Members(v);
    var k := 0;
    while k < |ms|
      invariant k <= |ms| && Find(ms, key, 0) == Find(ms, key, k)
    {
      var differ := Strcasecmp(ms[k].key, key);
      if !differ { return Some(ms[k].value); }
      k := k + 1;
    }
    return None;
  }

  /** What `cJSON_GetArraySize` counts and `cJSON_GetArrayItem` walks: an object has children too. */
  function Children(v: Value): seq<Value> {
    if v.Array? then v.items else if v.Object? then seq(|v.members|, i requires 0 <= i < |v.members| => v.members[i].value) else []
  }

  // ----------------------------------------------------------------- numbers

  function Pow10(n: nat): (p: nat)
    ensures p > 0
  {
    if n == 0 then 1 else 10 * Pow10(n - 1)
  }

  /** `(int)n`, which drops the fraction; out of range, what x86-64 makes of it. */
  function ToInt(m: int, e: int): int {
    var n := if e >= 0 then m * Pow10(e) else if m >= 0 then m / Pow10(-e) else -(-m / Pow10(-e));
    if INT_MIN <= n <= INT_MAX then n else INT_MIN
  }

  /** The `valueint` of a parsed node. */
  function ValueInt(v: Value): int {
    if v.True? then 1 else if v.Number? then ToInt(v.mantissa, v.exponent) else 0
  }

  // ----------------------------------------------------- one process as JSON

  /** `create_process_cJSON` */
  function ProcessJson(a: App): Value {
    Object([
      Member("app_name", Str(a.name)),
      Member("cmd", Str(a.cmd)),
      Member("dir", Str(a.dir)),
      Member("is_running", Number(a.isRunning, 0))])
  }

  /** The `valuestring` of a node that has one. */
  function ValueString(v: Value): string {
    if v.Str? then v.text else ""
  }

  /** The items copied in turn, until one is missing. */
  function Copied(a: App, name: Option<Value>, cmd: Option<Value>, dir: Option<Value>, running: Option<Value>): App {
    if name.None? then a
    else if cmd.None? then a.(name := ValueString(name.value))
    else if dir.None? then a.(name := ValueString(name.value), cmd := ValueString(cmd.value))
    else
      var b := a.(name := ValueString(name.value), cmd := ValueString(cmd.value), dir := ValueString(dir.value));
      if running.None? then b else b.(isRunning := ValueInt(running.value))
  }

  /** `parse_process_cJSON`: the slot as far as it is filled before a missing key. */
  function Filled(a: App, v: Value): App {
    Copied(a, GetObjectItem(v, "app_name"), GetObjectItem(v, "cmd"), GetObjectItem(v, "dir"), GetObjectItem(v, "is_running"))
  }

  /** The four keys are there, and so `parse_process_cJSON` does not return -1. */
  predicate Complete(v: Value) {
    && GetObjectItem(v, "app_name").Some?
    && GetObjectItem(v, "cmd").Some?
    && GetObjectItem(v, "dir").Some?
    && GetObjectItem(v, "is_running").Some?
  }

  /** Every `valuestring` that `strcpy` is reached with is one. */
  predicate Copyable(v: Value) {
    var name := GetObjectItem(v, "app_name");
    name.Some? ==>
      && name.value.Str?
      && var cmd := GetObjectItem(v, "cmd");
         cmd.Some? ==>
           && cmd.value.Str?
           && var dir := GetObjectItem(v, "dir");
              dir.Some? ==> dir.value.Str?
  }

  method ParseProcessCJSON(a: App, v: Value) returns (process: App, ok: bool)
    requires Copyable(v) && CStrings(v)
    ensures process == Filled(a, v) && ok == Complete(v)
  {
    hide GetObjectItem, ValueInt, CStrings;
    process := a;
    var item := GetItem(v, "app_name");
    if item.None? { return process, false; }
    process := process.(name := ValueString(item.value));
    item := GetItem(v, "cmd");
    if item.None? { return process, false; }
    process := process.(cmd := ValueString(item.value));
    item := GetItem(v, "dir");
    if item.None? { return process, false; }
    process := process.(dir := ValueString(item.value));
    item := GetItem(v, "is_running");
    if item.None? { return process, false; }
    process := process.(isRunning := ValueInt(item.value));
    return process, true;
  }

  /** Reading back what was written fills in the four fields that the file keeps and no others. */
  lemma ProcessRoundTrip(a: App, slot: App)
    requires INT_MIN <= a.isRunning <= INT_MAX
    ensures Copyable(ProcessJson(a)) && Complete(ProcessJson(a))
    ensures Filled(slot, ProcessJson(a)) == Restored(a, slot)
  {
    hide Lower;
    KeysApart();
    var ms := ProcessJson(a).members;
    assert Find(ms, "app_name", 0) == 0;
    assert Find(ms, "cmd", 0) == 1;
    assert Find(ms, "dir", 2) == 2 && Find(ms, "dir", 0) == 2;
    assert Find(ms, "is_running", 2) == 3 && Find(ms, "is_running", 0) == 3;
    assert Pow10(0) == 1;
  }

  lemma KeysApart()
    ensures Lower("cmd") != Lower("dir")
  {
    assert Lower("cmd")[0] == 'c' && Lower("dir")[0] == 'd';
  }

  /** A slot with the saved fields of `a`. */
  function Restored(a: App, slot: App): App {
    slot.(name := a.name, cmd := a.cmd, dir := a.dir, isRunning := a.isRunning)
  }

  // ------------------------------------------------------- the table as text

  function TableJson(table: seq<App>): Value {
    Array(seq(|table|, i requires 0 <= i < |table| => ProcessJson(table[i])))
  }

  /** The text `save_process_list` writes. */
  function FileText(table: seq<App>): string {
    Print(TableJson(table), 0, true)
  }

  ghost predicate Savable(a: App) {
    CString(a.name) && CString(a.cmd) && CString(a.dir) && INT_MIN <= a.isRunning <= INT_MAX
  }

  /** The loop of `parse_process_list` from item `i` on: the slots and its result. */
  function FilledAll(slots: seq<App>, items: seq<Value>, i: nat): (r: (seq<App>, int))
    requires i <= |items| <= |slots|
    ensures |r.0| == |slots| && -1 <= r.1 <= |slots|
    decreases |items| - i
  {
    if i == |items| then (slots, |items|)
    else
      var now := slots[i := Filled(slots[i], items[i])];
      if Complete(items[i]) then FilledAll(now, items, i + 1) else (now, -1)
  }

  predicate CopyableFrom(items: seq<Value>, i: nat)
    requires i <= |items|
    decreases |items| - i
  {
    i == |items| || (Copyable(items[i]) && (Complete(items[i]) ==> CopyableFrom(items, i + 1)))
  }

  /** The literals have complete escapes, and the text parses into no more apps than there are slots. */
  ghost predicate Loadable(text: string, size: nat) {
    var r := ParseText(text, false);
    Safe(text) && (r.Ok? ==> |Children(r.value)| <= size && CopyableFrom(Children(r.value), 0))
  }

  /** `parse_process_list` */
  function Loaded(slots: seq<App>, text: string): (r: (seq<App>, int))
    ensures |r.0| == |slots| && -1 <= r.1 <= |slots|
  {
    var r := ParseText(text, false);
    if r.Ok? && |Children(r.value)| <= |slots| then FilledAll(slots, Children(r.value), 0) else (slots, -1)
  }

  method ParseProcessList(list: array<App>, text: string) returns (res: int)
    requires CString(text) && Loadable(text, list.Length)
    modifies list
    ensures (list[..], res) == Loaded(old(list[..]), text)
  {
    hide ParseText, Filled, Copyable, Complete, CString, CStrings, Safe;
    SafeText(text, false);
    var r := Parser.ParseTextAt(text, false);
    if r.Failed? { return -1; }
    ParsedText(text);
    var items := Children(r.value);
    ChildrenCStrings(r.value);
    var i := 0;
    while i < |items|
      invariant i <= |items| && CopyableFrom(items, i)
      invariant FilledAll(list[..], items, i) == Loaded(old(list[..]), text)
    {
      var process, ok := ParseProcessCJSON(list[i], items[i]);
      ghost var slots := list[..];
      list[i] := process;
      assert list[..] == slots[i := process];
      if !ok { return -1; }
      i := i + 1;
    }
    return |items|;
  }

  /** `create_process_list_json_str` over the first `count` slots, as `save_process_list` calls it. */
  method CreateProcessListJson(list: array<App>, count: nat) returns (text: string)
    requires count <= list.Length && forall i | 0 <= i < count :: Savable(list[i])
    ensures text == FileText(list[..count])
  {
    hide CString;
    var items: seq<Value> := [];
    for i := 0 to count
      invariant |items| == i && forall j | 0 <= j < i :: items[j] == ProcessJson(list[j])
    {
      items := items + [ProcessJson(list[i])];
    }
    assert Array(items) == TableJson(list[..count]);
    forall i | 0 <= i < count
      ensures Printable(items[i])
    {
      ProcessPrintable(list[i]);
    }
    text := Printer.PrintValue(Array(items), 0, true);
  }

  lemma ProcessPrintable(a: App)
    requires Savable(a)
    ensures Printable(ProcessJson(a))
  {
    var ms := ProcessJson(a).members;
    assert forall i | 0 <= i < 4 :: CString(ms[i].key) && Printable(ms[i].value);
  }

  // ------------------------------------------------------------ persistence

  /** Writing a table and reading it back, whatever stands after the file in the
      reader's buffer: every name, command, directory and running mark in order. */
  lemma TableRoundTrip(table: seq<App>, slots: seq<App>, junk: string)
    requires |table| <= |slots| && forall i | 0 <= i < |table| :: Savable(table[i])
    ensures Loadable(FileText(table) + junk, |slots|)
    ensures Loaded(slots, FileText(table) + junk) == (RestoredAll(table, slots), |table|)
  {
    hide ParseValue, Print, Copyable, Filled, CString, SafeIn;
    var v := TableJson(table);
    var text := FileText(table) + junk;
    forall i | 0 <= i < |table|
      ensures Printable(v.items[i])
    {
      ProcessPrintable(table[i]);
    }
    TableText(table, junk);
    PrintSafe(v, 0, true, junk, 0);
    RoundTrip.ArrayRoundTrip(v.items, 0, true, junk);
    SkipStops(text);
    assert ParseText(text, false) == Ok(v, junk);
    RefilledAll(table, slots, 0);
    assert RestoredSome(table, slots, 0) == slots;
    assert RestoredSome(table, slots, |table|) == RestoredAll(table, slots);
  }

  lemma TableText(table: seq<App>, junk: string)
    ensures var text := FileText(table) + junk;
      text == "[" + PrintItems(TableJson(table).items, 0, true) + "]" + junk && text[0] == '['
  {
    hide PrintItems;
    assert TableJson(table).Array?;
  }

  /** The slots once the first `n` have been restored. */
  ghost function RestoredSome(table: seq<App>, slots: seq<App>, n: nat): (r: seq<App>)
    requires n <= |table| <= |slots|
    ensures |r| == |slots|
  {
    seq(|slots|, i requires 0 <= i < |slots| => if i < n then Restored(table[i], slots[i]) else slots[i])
  }

  ghost function RestoredAll(table: seq<App>, slots: seq<App>): (r: seq<App>)
    requires |table| <= |slots|
    ensures |r| == |slots|
  {
    RestoredSome(table, slots, |table|)
  }

  lemma {:induction false} RefilledAll(table: seq<App>, slots: seq<App>, i: nat)
    requires i <= |table| <= |slots| && forall i | 0 <= i < |table| :: Savable(table[i])
    ensures CopyableFrom(TableJson(table).items, i)
    ensures FilledAll(RestoredSome(table, slots, i), TableJson(table).items, i)
         == (RestoredSome(table, slots, |table|), |table|)
    decreases |table| - i
  {
    hide Filled, Copyable, Complete, CString, ProcessJson;
    if i < |table| {
      ProcessRoundTrip(table[i], slots[i]);
      RefilledAll(table, slots, i + 1);
      assert RestoredSome(table, slots, i)[i := Restored(table[i], slots[i])] == RestoredSome(table, slots, i + 1);
    }
  }

  // ---------------------------------------------------------------- deleting

  /** The first slot from `i` on without a name, where a scan for the end of the table stops. */
  function Scan(slots: seq<App>, i: nat): (n: nat)
    requires i <= |slots|
    ensures i <= n <= |slots|
    ensures forall j | i <= j < n :: slots[j].name != ""
    ensures n < |slots| ==> slots[n].name == ""
    decreases |slots| - i
  {
    if i == |slots| || slots[i].name == "" then i else Scan(slots, i + 1)
  }

  /** The table that a scan finds in the slots. */
  function Contents(slots: seq<App>): seq<App> {
    slots[..Scan(slots, 0)]
  }

  /** A scan finds exactly the slots before the first nameless one. */
  lemma ScanStops(slots: seq<App>, n: nat)
    requires n <= |slots| && (n < |slots| ==> slots[n].name == "")
    requires forall i | 0 <= i < n :: slots[i].name != ""
    ensures Scan(slots, 0) == n
  {
  }

  /** `get_process_list_count` */
  method GetProcessListCount(list: array<App>) returns (count: nat)
    ensures count == Scan(list[..], 0)
  {
    count := 0;
    while count < list.Length
      invariant count <= list.Length && Scan(list[..], 0) == Scan(list[..], count)
    {
      if |list[count].name| == 0 { break; }
      count := count + 1;
    }
  }

  /** The last of the first `n` slots with this name, or -1. */
  function LastNamed(slots: seq<App>, name: string, n: nat): (k: int)
    requires n <= |slots|
    ensures -1 <= k < n
    ensures k >= 0 ==> slots[k].name == name
    ensures forall j | k < j < n :: slots[j].name != name
  {
    if n == 0 then -1 else if slots[n - 1].name == name then n - 1 else LastNamed(slots, name, n - 1)
  }

  function Renumbered(a: App): App {
    a.(id := a.id - 1)
  }

  /** The slots after the shift that closes the gap at `k`: the nameless slot that ends the table moves too. */
  function Shifted(slots: seq<App>, k: nat, count: nat): (r: seq<App>)
    requires k < count < |slots|
    ensures |r| == |slots|
  {
    seq(|slots|, i requires 0 <= i < |slots| =>
      if k <= i < count then Renumbered(slots[i + 1])
      else if i == count then Renumbered(slots[i])
      else slots[i])
  }

  /** The table without its app `k`, the ids after it one lower. */
  function Removed(table: seq<App>, k: nat): (r: seq<App>)
    requires k < |table|
    ensures |r| == |table| - 1
  {
    seq(|table| - 1, i requires 0 <= i < |table| - 1 => if i < k then table[i] else Renumbered(table[i + 1]))
  }

  /** `del_process_by_app_name` */
  method DelProcessByAppName(list: array<App>, name: string) returns (res: int)
    requires var count := Scan(list[..], 0); count < list.Length || LastNamed(list[..], name, count) == -1
    modifies list
    ensures var slots := old(list[..]); var count := Scan(slots, 0);
      var k := LastNamed(slots, name, count);
      if k == -1 then res == -1 && list[..] == slots
      else res == 0 && list[..] == Shifted(slots, k, count)
  {
    hide Scan, LastNamed, Shifted;
    ghost var slots := list[..];
    var count := GetProcessListCount(list);
    var index := -1;
    NoneNamed(slots, name);
    for i := 0 to count
      invariant list[..] == slots && index == LastNamed(slots, name, i)
    {
      NextNamed(slots, name, i);
      if list[i].name == name { index := i; }
    }
    if index == -1 { return -1; }
    CloseGap(list, index, count);
    return 0;
  }

  lemma NoneNamed(slots: seq<App>, name: string)
    ensures LastNamed(slots, name, 0) == -1
  {
  }

  lemma NextNamed(slots: seq<App>, name: string, n: nat)
    requires n < |slots|
    ensures LastNamed(slots, name, n + 1) == if slots[n].name == name then n else LastNamed(slots, name, n)
  {
  }

  /** The slots when those before `i` have been moved up to close the gap at `k`. */
  ghost function ShiftedTo(slots: seq<App>, k: nat, i: nat): (r: seq<App>)
    requires k <= i < |slots|
    ensures |r| == |slots|
  {
    seq(|slots|, j requires 0 <= j < |slots| =>
      if k <= j < i then Renumbered(slots[j + 1])
      else if j == i && i > k then Renumbered(slots[j])
      else slots[j])
  }

  /** The loop of `del_process_by_app_name` that moves the later slots up. */
  method CloseGap(list: array<App>, index: nat, count: nat)
    requires index < count < list.Length
    modifies list
    ensures list[..] == Shifted(old(list[..]), index, count)
  {
    ghost var slots := list[..];
    assert ShiftedTo(slots, index, index) == slots;
    assert ShiftedTo(slots, index, count) == Shifted(slots, index, count);
    hide ShiftedTo, Shifted;
    for i := index to count
      invariant list[..] == ShiftedTo(slots, index, i)
    {
      MoveUp(list, i, slots, index);
    }
  }

  /** One turn: the next slot is renumbered and copied. */
  method MoveUp(list: array<App>, i: nat, ghost slots: seq<App>, ghost k: nat)
    requires k <= i && i + 1 < list.Length == |slots| && list[..] == ShiftedTo(slots, k, i)
    modifies list
    ensures list[..] == ShiftedTo(slots, k, i + 1)
  {
    hide Renumbered;
    ghost var was := list[..];
    list[i + 1] := Renumbered(list[i + 1]);
    list[i] := list[i + 1];
    assert list[..] == was[i + 1 := Renumbered(was[i + 1])][i := Renumbered(was[i + 1])];
  }

  /** The scanned table after the shift is the old one without app `k`. */
  lemma ShiftRemoves(slots: seq<App>, k: nat)
    requires k < Scan(slots, 0) < |slots|
    ensures var count := Scan(slots, 0);
      Scan(Shifted(slots, k, count), 0) == count - 1
      && Contents(Shifted(slots, k, count)) == Removed(Contents(slots), k)
  {
    var count := Scan(slots, 0);
    ShiftedSlots(slots, k, count);
    hide Shifted, Removed, Scan;
    ScanStops(Shifted(slots, k, count), count - 1);
  }

  lemma ShiftedSlots(slots: seq<App>, k: nat, count: nat)
    requires k < count < |slots| && slots[count].name == "" && forall i | 0 <= i < count :: slots[i].name != ""
    ensures var now := Shifted(slots, k, count);
      && now[..count - 1] == Removed(slots[..count], k)
      && now[count - 1].name == ""
      && forall i | 0 <= i < count - 1 :: now[i].name != ""
  {
    var now := Shifted(slots, k, count);
    forall i | 0 <= i < count - 1
      ensures now[i] == Removed(slots[..count], k)[i] && now[i].name != ""
    {
      assert slots[i].name != "" && slots[i + 1].name != "";
    }
  }

  // ------------------------------------------------- parsed strings are C's

  ghost predicate CStrings(v: Value) {
    match v
    case Str(s) => CString(s)
    case Array(items) => forall i | 0 <= i < |items| :: CStrings(items[i])
    case Object(ms) => forall i | 0 <= i < |ms| :: CString(ms[i].key) && CStrings(ms[i].value)
    case _ => true
  }

  lemma ChildrenCStrings(v: Value)
    requires CStrings(v)
    ensures forall i | 0 <= i < |Children(v)| :: CStrings(Children(v)[i])
  {
  }

  lemma SuffixCString(s: string, t: string)
    requires CString(s) && |t| <= |s| && t == s[|s| - |t|..]
    ensures CString(t)
  {
  }

  lemma ParsedText(text: string)
    requires CString(text) && ParseText(text, false).Ok?
    ensures CStrings(ParseText(text, false).value)
  {
    hide ParseValue;
    SkipCString(text);
    ParsedValue(Skip(text));
  }

  lemma {:induction false} SkipCString(s: string)
    requires CString(s)
    ensures CString(Skip(s))
    decreases |s|
  {
    if s != "" && IsBlank(s[0]) { SkipCString(s[1..]); }
  }

  lemma {:induction false} DecodedRest(s: string)
    requires CString(s) && Literal.Decode(s).Ok?
    ensures CString(Literal.Decode(s).rest)
    decreases |s|
  {
    if s != "" && s[0] != '\"' {
      hide Literal.Token;
      DecodedRest(s[Literal.Token(s).1..]);
    }
  }

  lemma ParsedString(s: string)
    requires CString(s) && Literal.ParseString(s).Ok?
    ensures CString(Literal.ParseString(s).value) && CString(Literal.ParseString(s).rest)
  {
    hide Literal.Decode, Literal.CountPass;
    SuffixCString(s, s[1..]);
    hide CString;
    LiteralProofs.DecodeCString(s[1..]);
    DecodedRest(s[1..]);
  }

  lemma {:induction false} DigitsRest(s: string, acc: nat)
    requires CString(s)
    ensures CString(Digits(s, acc).2)
    decreases |s|
  {
    if s != "" && IsDigit(s[0]) { DigitsRest(s[1..], acc * 10 + DigitValue(s[0])); }
  }

  lemma ParsedNumber(s: string)
    requires CString(s)
    ensures CString(ParseNumber(s).1) && ParseNumber(s).0.Number?
  {
    WholeRest(if At(s, 0) == '-' then s[1..] else s);
    var (n0, s1) := WholePart(if At(s, 0) == '-' then s[1..] else s);
    if At(s1, 0) == '.' && IsDigit(At(s1, 1)) { DigitsRest(s1[1..], n0); }
    var (n, places, s2) := Fraction(s1, n0);
    ExponentRest(s2);
    hide WholePart, Fraction, Exponent;
  }

  lemma WholeRest(s: string)
    requires CString(s)
    ensures CString(WholePart(s).1)
  {
    hide Digits;
    DigitsRest(if At(s, 0) == '0' then s[1..] else s, 0);
  }

  lemma ExponentRest(s: string)
    requires CString(s)
    ensures CString(Exponent(s).1)
  {
    hide Digits;
    if At(s, 0) == 'e' || At(s, 0) == 'E' {
      DigitsRest(s[1..], 0);
      if At(s[1..], 0) == '+' || At(s[1..], 0) == '-' { DigitsRest(s[1..][1..], 0); }
    }
  }

  /** What is left after a value, and the strings in it, hold no NUL. */
  lemma {:induction false} ParsedValue(s: string)
    requires CString(s) && ParseValue(s).Ok?
    ensures CStrings(ParseValue(s).value) && CString(ParseValue(s).rest)
    decreases |s|, 2
  {
    hide ParseValue, ParseArray, ParseObject, ParseNumber, Literal.ParseString, CString;
    ValueKind(s);
    if At(s, 0) == '\"' {
      StringValue(s);
      ParsedString(s);
    } else if At(s, 0) == '-' || IsDigit(At(s, 0)) {
      NumberValueIs(s);
      ParsedNumber(s);
    } else if At(s, 0) == '[' {
      BracketValue(s);
      ParsedArray(s);
    } else if At(s, 0) == '{' {
      BracketValue(s);
      ParsedObject(s);
    } else {
      ConstantValue(s);
      var n := if "false" <= s then 5 else 4;
      SuffixCString(s, s[n..]);
    }
  }

  lemma {:induction false} ParsedArray(s: string)
    requires CString(s) && At(s, 0) == '[' && ParseArray(s).Ok?
    ensures CStrings(ParseArray(s).value) && CString(ParseArray(s).rest)
    decreases |s|, 0
  {
    hide ParseItems, Skip, CString;
    SuffixCString(s, s[1..]);
    SkipCString(s[1..]);
    var t := Skip(s[1..]);
    if At(t, 0) == ']' { SuffixCString(t, t[1..]); } else { ParsedItems(t, []); }
  }

  lemma {:induction false} ParsedObject(s: string)
    requires CString(s) && At(s, 0) == '{' && ParseObject(s).Ok?
    ensures CStrings(ParseObject(s).value) && CString(ParseObject(s).rest)
    decreases |s|, 0
  {
    hide ParseMembers, Skip, CString;
    SuffixCString(s, s[1..]);
    SkipCString(s[1..]);
    var t := Skip(s[1..]);
    if At(t, 0) == '}' { SuffixCString(t, t[1..]); } else { ParsedMembers(t, []); }
  }

  lemma {:induction false} ParsedItems(s: string, done: seq<Value>)
    requires CString(s) && CStrings(Array(done)) && ParseItems(s, done).Ok?
    ensures CStrings(ParseItems(s, done).value) && CString(ParseItems(s, done).rest)
    decreases |s|, 3
  {
    hide ParseValue, Skip, CString;
    ParsedValue(s);
    var (v, after) := ParseValue(s).Extract();
    SkipCString(after);
    var t := Skip(after);
    if At(t, 0) == ',' {
      SuffixCString(t, t[1..]);
      SkipCString(t[1..]);
      ParsedItems(Skip(t[1..]), done + [v]);
    } else {
      SuffixCString(t, t[1..]);
    }
  }

  lemma {:induction false} ParsedMembers(s: string, done: seq<Member>)
    requires CString(s) && CStrings(Object(done)) && ParseMembers(s, done).Ok?
    ensures CStrings(ParseMembers(s, done).value) && CString(ParseMembers(s, done).rest)
    decreases |s|, 3
  {
    hide ParseValue, Literal.ParseString, Skip, CString;
    ParsedString(s);
    var (key, afterKey) := Literal.ParseString(s).Extract();
    SkipCString(afterKey);
    var colon := Skip(afterKey);
    SuffixCString(colon, colon[1..]);
    SkipCString(colon[1..]);
    ParsedValue(Skip(colon[1..]));
    var (v, after) := ParseValue(Skip(colon[1..])).Extract();
    SkipCString(after);
    var t := Skip(after);
    SuffixCString(t, t[1..]);
    if At(t, 0) == ',' {
      SkipCString(t[1..]);
      ParsedMembers(Skip(t[1..]), done + [Member(key, v)]);
    }
  }
}
