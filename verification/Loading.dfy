/**
 The start of the service (src/server.c:139-181): when the count of loaded apps is
 also what a scan of the slots finds, on which saving and removing rely.
 */
module Loading {
  import opened CText
  import opened Json
  import opened ProcessList
  import opened Supervisor
  import opened SupervisorProofs
  import RoundTrip
  import Safety

  /** The first item from `i` on that lacks a key, where loading gives up. */
  function FirstBroken(items: seq<Value>, i: nat): (k: nat)
    requires i <= |items|
    ensures i <= k <= |items|
    decreases |items| - i
  {
    if i == |items| || !Complete(items[i]) then i else FirstBroken(items, i + 1)
  }

  lemma {:induction false} BrokenFirst(items: seq<Value>, i: nat)
    requires i <= |items|
    ensures var k := FirstBroken(items, i); (k < |items| ==> !Complete(items[k])) && forall j | i <= j < k :: Complete(items[j])
    decreases |items| - i
  {
    hide Complete;
    if i < |items| && Complete(items[i]) { BrokenFirst(items, i + 1); }
  }

  /** Loading fills the slots up to the first broken item, that one in part, and then gives up with -1. */
  lemma {:induction false} FilledSlots(slots: seq<App>, items: seq<Value>, i: nat)
    requires i <= |items| <= |slots|
    ensures var (r, size) := FilledAll(slots, items, i);
      var k := FirstBroken(items, i);
      && size == (if k == |items| then |items| else -1)
      && forall j | 0 <= j < |slots| :: r[j] == if i <= j < |items| && j <= k then Filled(slots[j], items[j]) else slots[j]
    decreases |items| - i
  {
    hide Complete, Filled;
    if i < |items| && Complete(items[i]) {
      FilledSlots(slots[i := Filled(slots[i], items[i])], items, i + 1);
    }
  }

  function NameOf(v: Value): string {
    var name := GetObjectItem(v, "app_name");
    if name.None? then "" else ValueString(name.value)
  }

  lemma FilledName(v: Value)
    ensures Filled(BLANK, v).name == NameOf(v)
  {
    hide GetObjectItem, ValueString, ValueInt;
  }

  /** Every app of the file is complete and named, or nothing before the first broken one is named. */
  predicate Orderly(text: string) {
    var r := ParseText(text, false);
    text != "" && r.Ok? && |Children(r.value)| <= LIST_SIZE ==>
      OrderlyItems(Children(r.value))
  }

  predicate OrderlyItems(items: seq<Value>) {
    var k := FirstBroken(items, 0);
    if k == |items| then forall i | 0 <= i < k :: NameOf(items[i]) != ""
    else forall i | 0 <= i <= k :: NameOf(items[i]) == ""
  }

  /** The loaded count fits the slots if and only if the file is orderly: giving up halfway
      leaves apps in the slots that the count, then 0, does not include. */
  lemma CountFitsIffOrderly(text: string)
    requires Loadable(text, LIST_SIZE)
    ensures Tidy(LoadedSlots(text), |LoadedTable(text)|) <==> Orderly(text)
  {
    hide ParseText, CopyableFrom, OrderlyItems, FilledAll;
    var r := ParseText(text, false);
    if text != "" && r.Ok? {
      TidyIffOrderly(Children(r.value));
      assert Loaded(Blanks(), text) == FilledAll(Blanks(), Children(r.value), 0);
      FilledSlots(Blanks(), Children(r.value), 0);
    } else {
      assert LoadedSlots(text) == Blanks() && LoadedTable(text) == [];
    }
  }

  lemma TidyIffOrderly(items: seq<Value>)
    requires |items| <= LIST_SIZE
    ensures var (slots, size) := FilledAll(Blanks(), items, 0);
      Tidy(slots, if size < 0 then 0 else size) <==> OrderlyItems(items)
  {
    hide Filled, NameOf, FilledAll, Complete;
    FilledSlots(Blanks(), items, 0);
    var slots := FilledAll(Blanks(), items, 0).0;
    var k := FirstBroken(items, 0);
    forall i | 0 <= i < LIST_SIZE
      ensures slots[i].name == if i < |items| && i <= k then NameOf(items[i]) else ""
    {
      if i < |items| { FilledName(items[i]); }
    }
  }

  /** An app that has nothing but a name. */
  function Bare(name: string): Value {
    Object([Member("app_name", Str(name))])
  }

  /** The file of one such app. */
  function HalfText(): string {
    Print(Array([Bare("a")]), 0, true)
  }

  /** It is not orderly: its name stays in the first slot, uncounted. */
  lemma HalfLoaded()
    ensures var text := HalfText();
      && Loadable(text, LIST_SIZE) && !Orderly(text)
      && LoadedTable(text) == [] && Scan(LoadedSlots(text), 0) == 1
      && forall i | 1 <= i < LIST_SIZE :: LoadedSlots(text)[i].name == ""
  {
    hide Complete, Copyable, Filled, FilledAll, GetObjectItem, OrderlyItems, ParseText, Print, Printable, NameOf, Scan;
    var item := Bare("a");
    BareItem("a");
    ArrayPrintable([item]);
    RoundTrip.TextRoundTrip(Array([item]), true, false);
    Safety.PrintedSafe(Array([item]), true);
    assert Children(Array([item])) == [item];
    HalfSlots(item);
    TextOpens([item]);
  }

  lemma TextOpens(items: seq<Value>)
    ensures Print(Array(items), 0, true) != ""
  {
  }

  lemma ArrayPrintable(items: seq<Value>)
    requires forall i | 0 <= i < |items| :: Printable(items[i])
    ensures Printable(Array(items))
  {
  }

  lemma BareItem(name: string)
    requires CString(name)
    ensures var item := Bare(name); Printable(item) && Copyable(item) && !Complete(item) && NameOf(item) == name
  {
    var ms := Members(Bare(name));
    assert |Lower("app_name")| == 8 && |Lower("cmd")| == 3;
    assert Find(ms, "app_name", 0) == 0 && Find(ms, "cmd", 1) == 1 && Find(ms, "cmd", 0) == 1;
  }

  lemma HalfSlots(item: Value)
    requires !Complete(item) && NameOf(item) == "a"
    ensures var (slots, size) := FilledAll(Blanks(), [item], 0);
      && size == -1 && Scan(slots, 0) == 1 && !OrderlyItems([item])
      && forall i | 1 <= i < LIST_SIZE :: slots[i].name == ""
  {
    hide Complete, NameOf, Filled;
    FilledSlots(Blanks(), [item], 0);
    FilledName(item);
    assert FirstBroken([item], 0) == 0;
    ScanStops(FilledAll(Blanks(), [item], 0).0, 1);
  }

  /** A new app stored in the first free slot and counted is found by a scan if and only if it has a name. */
  lemma NewAppFitsIffNamed(slots: seq<App>, n: nat, process: App)
    requires Tidy(slots, n) && n < |slots|
    ensures Scan(slots[n := process], 0) == n + 1 <==> process.name != ""
    ensures Tidy(slots[n := process], n + 1) <==> process.name != ""
  {
    var now := slots[n := process];
    if process.name == "" { ScanStops(now, n); } else { ScanStops(now, n + 1); }
    assert now[n] == process;
  }
}
