/**
 What a JSON text says about an app (src/process.c:234-268): the keys, looked up without regard
 to case, the strings and the mark, as a reader of the file would tell them.
 */
module AppFields {
  import opened CText
  import opened Json
  import opened ProcessList
  import Literal
  import RoundTrip

  // --------------------------------------------------------------------- keys

  /** The same letter, or the same other character. */
  predicate SameLetter(c: char, d: char) {
    c == d || ('A' <= c <= 'Z' && d as int == c as int + 32) || ('A' <= d <= 'Z' && c as int == d as int + 32)
  }

  predicate SameLetters(s: string, t: string) {
    |s| == |t| && forall i | 0 <= i < |s| :: SameLetter(s[i], t[i])
  }

  /** `cJSON_strcasecmp` finds no difference exactly between strings of the same letters. */
  lemma LowerSame(s: string, t: string)
    ensures Lower(s) == Lower(t) <==> SameLetters(s, t)
  {
    if |s| == |t| {
      assert forall i | 0 <= i < |s| :: Lower(s)[i] == LowerChar(s[i]) && Lower(t)[i] == LowerChar(t[i]);
      forall i | 0 <= i < |s|
        ensures LowerChar(s[i]) == LowerChar(t[i]) <==> SameLetter(s[i], t[i])
      {
      }
    } else {
      assert |Lower(s)| != |Lower(t)|;
    }
    hide LowerChar;
  }

  /** The first member under this key, if there is one. */
  predicate FirstUnder(ms: seq<Member>, key: string, item: Option<Value>) {
    if item.None? then forall i | 0 <= i < |ms| :: !SameLetters(ms[i].key, key)
    else exists i | 0 <= i < |ms| ::
      SameLetters(ms[i].key, key) && ms[i].value == item.value && forall j | 0 <= j < i :: !SameLetters(ms[j].key, key)
  }

  lemma ItemIsFirst(v: Value, key: string)
    ensures FirstUnder(Members(v), key, GetObjectItem(v, key))
  {
    var ms := Members(v);
    forall i | 0 <= i < |ms|
      ensures Lower(ms[i].key) == Lower(key) <==> SameLetters(ms[i].key, key)
    {
      LowerSame(ms[i].key, key);
    }
    hide Lower, SameLetters;
  }

  lemma FirstIsItem(v: Value, key: string, item: Option<Value>)
    requires FirstUnder(Members(v), key, item)
    ensures GetObjectItem(v, key) == item
  {
    ItemIsFirst(v, key);
    hide SameLetters, GetObjectItem;
  }

  // ------------------------------------------------------------------- fields

  /** What the object says, key by key. */
  predicate Says(v: Value, name: Option<Value>, cmd: Option<Value>, dir: Option<Value>, running: Option<Value>) {
    && FirstUnder(Members(v), "app_name", name) && FirstUnder(Members(v), "cmd", cmd)
    && FirstUnder(Members(v), "dir", dir) && FirstUnder(Members(v), "is_running", running)
    && (name.Some? ==> name.value.Str?) && (cmd.Some? ==> cmd.value.Str?) && (dir.Some? ==> dir.value.Str?)
  }

  /** A slot takes the name, the command, the directory and the mark in this order, and none after one
      that is missing. */
  lemma FilledSays(slot: App, v: Value, name: Option<Value>, cmd: Option<Value>, dir: Option<Value>, running: Option<Value>)
    requires Says(v, name, cmd, dir, running)
    ensures Complete(v) <==> name.Some? && cmd.Some? && dir.Some? && running.Some?
    ensures var a := Filled(slot, v);
      && a.name == (if name.Some? then name.value.text else slot.name)
      && a.cmd == (if name.Some? && cmd.Some? then cmd.value.text else slot.cmd)
      && a.dir == (if name.Some? && cmd.Some? && dir.Some? then dir.value.text else slot.dir)
      && a.isRunning == (if Complete(v) then ValueInt(running.value) else slot.isRunning)
      && (a.pid, a.id, a.restartTimes, a.startTime) == (slot.pid, slot.id, slot.restartTimes, slot.startTime)
  {
    hide GetObjectItem, FirstUnder, ValueInt;
    FirstIsItem(v, "app_name", name);
    FirstIsItem(v, "cmd", cmd);
    FirstIsItem(v, "dir", dir);
    FirstIsItem(v, "is_running", running);
  }

  /** What is written of an app says its name, command, directory and mark. */
  lemma WrittenSays(a: App)
    requires INT_MIN <= a.isRunning <= INT_MAX
    ensures Says(ProcessJson(a), Some(Str(a.name)), Some(Str(a.cmd)), Some(Str(a.dir)), Some(Number(a.isRunning, 0)))
  {
    var ms := Members(ProcessJson(a));
    assert |ms| == 4 && ms[0].key == "app_name" && ms[1].key == "cmd" && ms[2].key == "dir" && ms[3].key == "is_running";
    KeysDiffer();
    hide SameLetters;
  }

  lemma KeysDiffer()
    ensures !SameLetters("app_name", "cmd") && !SameLetters("app_name", "dir") && !SameLetters("app_name", "is_running")
    ensures !SameLetters("cmd", "dir") && !SameLetters("cmd", "is_running") && !SameLetters("dir", "is_running")
    ensures !SameLetters("cmd", "app_name") && !SameLetters("dir", "app_name") && !SameLetters("is_running", "app_name")
    ensures !SameLetters("dir", "cmd") && !SameLetters("is_running", "cmd") && !SameLetters("is_running", "dir")
    ensures SameLetters("app_name", "app_name") && SameLetters("cmd", "cmd") && SameLetters("dir", "dir")
    ensures SameLetters("is_running", "is_running")
  {
    assert "cmd"[0] == 'c' && "dir"[0] == 'd';
  }

  // --------------------------------------------------------------------- marks

  /** The ten digits, read and printed. */
  lemma DigitIs(d: nat)
    requires d < 10
    ensures var digit := ["0123456789"[d]];
      RoundTrip.AllDigits(digit) && RoundTrip.Denotes(digit, 0) == d && PrintInt(d) == digit
  {
    assert ["0123456789"[d]][1..] == "";
  }

  function Zeros(n: nat): (r: string)
    ensures |r| == n
  {
    seq(n, _ => '0')
  }

  /** A power of ten is a one with so many zeros. */
  lemma {:induction false} PowerOfTen(n: nat)
    ensures RoundTrip.AllDigits("1" + Zeros(n)) && RoundTrip.Denotes("1" + Zeros(n), 0) == Pow10(n)
  {
    if n > 0 {
      PowerOfTen(n - 1);
      RoundTrip.DenotesAppend("1" + Zeros(n - 1), '0', 0);
      assert "1" + Zeros(n) == "1" + Zeros(n - 1) + ['0'];
    }
  }

  function Abs(n: int): nat {
    if n < 0 then -n else n
  }

  /** `n` is `m` times ten to the `e`, cut to an integer towards zero. */
  ghost predicate CutTo(m: int, e: int, n: int) {
    if e >= 0 then n == m * Pow10(e)
    else Abs(n) * Pow10(-e) <= Abs(m) < (Abs(n) + 1) * Pow10(-e) && (m >= 0 ==> n >= 0) && (m <= 0 ==> n <= 0)
  }

  lemma IntCut(m: int, e: int) returns (n: int)
    ensures CutTo(m, e, n) && ToInt(m, e) == if -2147483648 <= n <= 2147483647 then n else -2147483648
  {
    if e >= 0 {
      n := m * Pow10(e);
    } else {
      var p := Pow10(-e);
      Quotient(Abs(m), p);
      n := if m >= 0 then m / p else -(-m / p);
      assert Abs(n) == Abs(m) / p;
    }
    hide Pow10;
  }

  lemma Quotient(m: nat, p: nat)
    requires p > 0
    ensures 0 <= m / p && m / p * p <= m < (m / p + 1) * p
  {
  }

  /** `true` is 1, other words and strings 0, and a number is cut to an integer if it fits in 32 bits; if not,
      it becomes the smallest. */
  lemma IntIs(v: Value)
    ensures v == True ==> ValueInt(v) == 1
    ensures v != True && !v.Number? ==> ValueInt(v) == 0
    ensures v.Number? ==> exists n ::
      CutTo(v.mantissa, v.exponent, n) && ValueInt(v) == if -2147483648 <= n <= 2147483647 then n else -2147483648
  {
    hide CutTo, ToInt;
    if v.Number? {
      var n := IntCut(v.mantissa, v.exponent);
    }
  }

  // ---------------------------------------------------------- the saved text

  /** A member of an app's object on its line. */
  function Line(key: string, text: string, last: bool): string {
    "\t\t" + ("\"" + key + "\"" + (":\t" + text)) + ((if last then "" else ",") + "\n")
  }

  /** An app as the file has it: a line for each field, in this order. */
  function EntryText(a: App): string {
    "{" + "\n" + (
      Line("app_name", Literal.Quote(a.name), false) + (
      Line("cmd", Literal.Quote(a.cmd), false) + (
      Line("dir", Literal.Quote(a.dir), false) + (
      Line("is_running", PrintInt(a.isRunning), true) + ""))))
    + "\t" + "}"
  }

  function EntryTexts(table: seq<App>): string {
    if table == [] then ""
    else if |table| == 1 then EntryText(table[0])
    else EntryText(table[0]) + ", " + EntryTexts(table[1..])
  }

  /** The saved file is the list of the apps, each as above. */
  lemma SavedText(table: seq<App>)
    ensures FileText(table) == "[" + EntryTexts(table) + "]"
  {
    hide PrintItems, EntryTexts, ProcessJson;
    ItemsText(table, TableJson(table).items);
  }

  lemma {:induction false} ItemsText(table: seq<App>, items: seq<Value>)
    requires |items| == |table| && forall i | 0 <= i < |table| :: items[i] == ProcessJson(table[i])
    ensures PrintItems(items, 0, true) == EntryTexts(table)
  {
    if table != [] {
      EntryPrinted(table[0]);
      hide Print, EntryText, ProcessJson;
      ItemsText(table[1..], items[1..]);
    }
  }

  lemma EntryPrinted(a: App)
    ensures Print(ProcessJson(a), 1, true) == EntryText(a)
  {
    var ms := ProcessJson(a).members;
    var four := [ms[0], ms[1], ms[2], ms[3]];
    assert ms == four;
    assert Tabs(1) == "\t" by { hide *; TwoTabs(); }
    EntryLines(a, four);
    hide PrintMembers, Tabs, Literal.Quote, PrintInt, Line;
  }

  lemma EntryLines(a: App, ms: seq<Member>)
    requires ms == ProcessJson(a).members
    ensures PrintMembers(ms, 1, true) ==
      Line("app_name", Literal.Quote(a.name), false) + (
      Line("cmd", Literal.Quote(a.cmd), false) + (
      Line("dir", Literal.Quote(a.dir), false) + (
      Line("is_running", PrintInt(a.isRunning), true) + "")))
  {
    assert |ms| == 4 && ms[0].key == "app_name" && ms[1].key == "cmd" && ms[2].key == "dir" && ms[3].key == "is_running";
    assert ms[0].value == Str(a.name) && ms[1].value == Str(a.cmd) && ms[2].value == Str(a.dir) && ms[3].value == Number(a.isRunning, 0);
    ValuePrinted(a);
    KeysPlain();
    hide PrintMembers, Literal.Quote, PrintInt, ProcessJson, Line, Print;
    MemberPrinted(ms, "app_name", Literal.Quote(a.name));
    MemberPrinted(ms[1..], "cmd", Literal.Quote(a.cmd));
    MemberPrinted(ms[1..][1..], "dir", Literal.Quote(a.dir));
    MemberPrinted(ms[1..][1..][1..], "is_running", PrintInt(a.isRunning));
    NoMembers(ms[1..][1..][1..][1..]);
  }

  lemma ValuePrinted(a: App)
    ensures Print(Str(a.name), 2, true) == Literal.Quote(a.name) && Print(Str(a.cmd), 2, true) == Literal.Quote(a.cmd)
    ensures Print(Str(a.dir), 2, true) == Literal.Quote(a.dir) && Print(Number(a.isRunning, 0), 2, true) == PrintInt(a.isRunning)
  {
    hide Literal.Quote, PrintInt;
  }

  lemma KeysPlain()
    ensures Plain("app_name") && Plain("cmd") && Plain("dir") && Plain("is_running")
  {
  }

  /** No character of it needs an escape. */
  predicate Plain(s: string) {
    forall i | 0 <= i < |s| :: 'a' <= s[i] <= 'z' || s[i] == '_'
  }

  lemma NoMembers(ms: seq<Member>)
    requires ms == []
    ensures PrintMembers(ms, 1, true) == ""
  {
  }

  lemma TwoTabs()
    ensures Tabs(2) == "\t\t" && Tabs(1) == "\t"
  {
    assert Tabs(0) == "";
  }

  lemma MemberPrinted(ms: seq<Member>, key: string, text: string)
    requires ms != [] && ms[0].key == key && Plain(key) && Print(ms[0].value, 2, true) == text
    ensures PrintMembers(ms, 1, true) == Line(key, text, |ms| == 1) + PrintMembers(ms[1..], 1, true)
  {
    TwoTabs();
    PlainEscape(key);
    hide Print, Tabs, Plain, Literal.Escape;
    var end := (if |ms| == 1 then "" else ",") + "\n";
    RoundTrip.Assoc("\t\t" + ("\"" + key + "\"" + (":\t" + text)), end, PrintMembers(ms[1..], 1, true));
  }

  lemma {:induction false} PlainEscape(s: string)
    requires Plain(s)
    ensures Literal.Escape(s) == s
  {
    hide Literal.EscapeChar;
    if s != "" {
      PlainEscape(s[1..]);
      PlainChar(s[0]);
      assert [s[0]] + s[1..] == s;
    }
  }

  lemma PlainChar(c: char)
    requires 'a' <= c <= 'z' || c == '_'
    ensures Literal.EscapeChar(c) == [c]
  {
  }
}
