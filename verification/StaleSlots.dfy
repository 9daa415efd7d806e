/**
 What a file that loads halfway can lead to (src/process.c:165-178, 106-131): a run after
 which an app has two live instances, one of them in no entry of the table.
 */
module StaleSlots {
  import opened CText
  import opened Json
  import opened Loading
  import opened NewApps
  import opened ProcessList
  import opened Supervisor
  import opened SupervisorRuns
  import RoundTrip
  import Safety

  /** Two complete apps, and one that has nothing but a name. */
  function ThreeItems(): seq<Value> {
    [ProcessJson(Named("a")), ProcessJson(Named("b")), Bare("c")]
  }

  function ThreeText(): string {
    Print(Array(ThreeItems()), 0, true)
  }

  // ------------------------------------------------------------------ loading

  lemma CompleteItem(name: string)
    requires CString(name)
    ensures var v := ProcessJson(Named(name)); Printable(v) && Copyable(v) && Complete(v) && NameOf(v) == name
    ensures Filled(BLANK, ProcessJson(Named(name))) == Named(name)
  {
    ProcessRoundTrip(Named(name), BLANK);
    ProcessPrintable(Named(name));
    FilledName(ProcessJson(Named(name)));
  }

  /** The table is empty, but the first three slots have names. */
  lemma ThreeLoaded()
    ensures Loadable(ThreeText(), LIST_SIZE) && LoadedCount(ThreeText()) == 0
    ensures var slots := LoadedSlots(ThreeText()); slots[2].name == "c" && slots[LIST_SIZE - 1].name == ""
  {
    hide Complete, Copyable, Filled, FilledAll, NameOf, ParseText, Print, Printable, ProcessJson, GetObjectItem;
    var items := ThreeItems();
    CompleteItem("a");
    CompleteItem("b");
    BareItem("c");
    ArrayPrintable(items);
    RoundTrip.TextRoundTrip(Array(items), true, false);
    Safety.PrintedSafe(Array(items), true);
    ThreeFilled(items);
    TextOpens(items);
  }

  lemma ThreeFilled(items: seq<Value>)
    requires |items| == 3 && Complete(items[0]) && Complete(items[1]) && !Complete(items[2])
    requires NameOf(items[0]) == "a" && NameOf(items[1]) == "b" && NameOf(items[2]) == "c"
    requires Copyable(items[0]) && Copyable(items[1]) && Copyable(items[2])
    ensures CopyableFrom(items, 0)
    ensures var (slots, size) := FilledAll(Blanks(), items, 0);
      && size == -1 && slots[2].name == "c" && slots[LIST_SIZE - 1].name == ""
  {
    hide Complete, NameOf, Filled, Copyable;
    FilledSlots(Blanks(), items, 0);
    forall i | 0 <= i < 3
      ensures Filled(BLANK, items[i]).name == NameOf(items[i])
    {
      FilledName(items[i]);
    }
    assert FirstBroken(items, 2) == 2 && FirstBroken(items, 1) == 2 && FirstBroken(items, 0) == 2;
    assert CopyableFrom(items, 2) && CopyableFrom(items, 1) && CopyableFrom(items, 0);
    hide FilledAll;
  }

  // ---------------------------------------------------------------- removals

  /** `is_number` holds of the empty argument and `atoi` makes it 0: it addresses the first app. */
  lemma EmptyAddressesFirst(t: seq<App>)
    requires t != []
    ensures Resolve(t, "") == Entry(t[0])
  {
    assert Atoi("") == 0;
  }

  lemma RemovesEntry(st: State, argument: string, i: nat)
    requires CString(argument) && |Slots(st)| == LIST_SIZE && Scan(Slots(st), 0) < LIST_SIZE
    requires i < |st.table| && Resolve(st.table, argument) == Entry(st.table[i]) && FirstNamed(st.table, st.table[i].name, 0) == i
    ensures Enabled(st, Request("remove", argument))
    ensures Step(st, Request("remove", argument)) == Save(RemoveAt(st, i))
  {
    hide Scan, RemoveAt, FileText, Contents, CString, ParsedProcess;
  }

  lemma RemovesFirst(st: State)
    requires st.table != [] && |Slots(st)| == LIST_SIZE && Scan(Slots(st), 0) < LIST_SIZE
    ensures Enabled(st, Request("remove", ""))
    ensures Step(st, Request("remove", "")) == Save(RemoveAt(st, 0))
  {
    hide Scan, RemoveAt, FileText, Contents, Resolve;
    EmptyAddressesFirst(st.table);
    RemovesEntry(st, "", 0);
  }

  /** The slot that the deletion of entry `i` closes, or -1. */
  function GapOf(st: State, i: nat): int
    requires i < |st.table|
  {
    var slots := Slots(StopAt(st, i));
    LastNamed(slots, st.table[i].name, Scan(slots, 0))
  }

  /** When that slot is in no entry, the last entry leaves the table without being stopped. */
  lemma LastDropped(st: State, i: nat, p: Pid)
    requires i + 1 < |st.table| && (GapOf(st, i) == -1 || GapOf(st, i) >= |st.table|)
    requires p != 0 && p in st.live && forall j | 0 <= j < |st.table| - 1 :: st.table[j].pid != p
    ensures var now := RemoveAt(st, i); var n := |st.table| - 1;
      && now.table == StopAt(st, i).table[..n] && |Slots(now)| == |Slots(st)| && now.forks == st.forks
      && p in now.live && now.live[p] == st.live[p]
      && forall j | 0 <= j < n :: now.table[j].pid != p && now.table[j].name == st.table[j].name
  {
    var stopped := StopAt(st, i);
    var slots := Slots(stopped);
    var n := |st.table| - 1;
    hide Scan, LastNamed, StopAt;
    var left := Deleted(slots, st.table[i].name);
    assert forall j | 0 <= j < n :: left[j] == slots[j] == stopped.table[j];
    assert left[..n] == stopped.table[..n];
    StoppedOthers(st, i, p);
  }

  /** A stop changes neither names, nor other children, nor the pids of other entries. */
  lemma StoppedOthers(st: State, i: nat, p: Pid)
    requires i < |st.table| && p != 0 && p != st.table[i].pid && p in st.live
    ensures var now := StopAt(st, i);
      && p in now.live && now.live[p] == st.live[p] && now.forks == st.forks
      && (forall j | 0 <= j < |st.table| :: now.table[j].name == st.table[j].name)
      && (forall j | 0 <= j < |st.table| && st.table[j].pid != p :: now.table[j].pid != p)
  {
  }

  // ----------------------------------------------------------------- the run

  /** New apps up to the stale slot `j`, the first under its name; the removal of that first app,
      by the empty argument; and the last of the new apps once more. */
  function StaleRun(x: string, j: nat): seq<Event>
    requires j > 0
  {
    Adds(x, j) + [Request("remove", "")] + [StartNew(NameAt(x, j - 1))]
  }

  /** Children `p` and `q` of one app are alive, and `p` is in no entry. */
  ghost predicate Twice(st: State, p: Pid, q: Pid) {
    && p != q && p in st.live && q in st.live && st.live[p] == st.live[q]
    && forall i | 0 <= i < |st.table| :: st.table[i].pid != p
  }

  /** With the table full up to the stale slot, the deletion of its first app closes the gap at a later slot. */
  lemma StaleGap(st: State, x: string, j: nat, forks: nat)
    requires |st.table| == j > 0 && |Slots(st)| == LIST_SIZE && j < LIST_SIZE - 1 && x != ""
    requires st.rest[0].name == x && st.rest[LIST_SIZE - 1 - j].name == ""
    requires forall i | 0 <= i < j :: AddedAt(st, x, forks, i)
    ensures Scan(Slots(st), 0) < LIST_SIZE && GapOf(st, 0) >= j
  {
    var slots := Slots(StopAt(st, 0));
    forall i | 0 <= i < j
      ensures slots[i].name == st.table[i].name == NameAt(x, i)
    {
      assert AddedAt(st, x, forks, i);
    }
    assert slots[j] == Slots(st)[j] == st.rest[0];
    assert slots[LIST_SIZE - 1] == Slots(st)[LIST_SIZE - 1] == st.rest[LIST_SIZE - 1 - j];
    hide LastNamed, Scan;
    assert Scan(slots, 0) > j;
  }

  lemma SavedSame(st: State)
    ensures Save(st) == st.(file := Save(st).file)
  {
  }

  /** The last child forked is alive under the longest name, and in no entry. */
  ghost predicate Lost(st: State, name: string, p: Pid) {
    && p == st.forks && p in st.live && st.live[p] == name
    && Longest(st.table, name) && |st.table| + 1 < LIST_SIZE && st.rest != []
    && forall i | 0 <= i < |st.table| :: st.table[i].pid != p
  }

  /** A child that is in no entry, and its app started once more. */
  lemma AgainTwice(st: State, now: State, name: string, p: Pid)
    requires Lost(st, name, p) && Added(st, now, name)
    ensures Twice(now, p, p + 1)
  {
    forall i | 0 <= i < |now.table|
      ensures now.table[i].pid != p
    {
      if i < |st.table| { assert now.table[i] == now.table[..|st.table|][i]; }
    }
  }

  /** So that removal leaves out the last app, alive. */
  lemma StaleLost(st: State, x: string, j: nat, forks: nat)
    requires |st.table| == j >= 2 && |Slots(st)| == LIST_SIZE && j < LIST_SIZE - 1 && x != "" && st.forks == forks + j
    requires st.rest[0].name == x && st.rest[LIST_SIZE - 1 - j].name == ""
    requires forall i | 0 <= i < j :: AddedAt(st, x, forks, i)
    ensures Enabled(st, Request("remove", "")) && Lost(Step(st, Request("remove", "")), NameAt(x, j - 1), forks + j)
  {
    hide Enabled, Step, Save, RemoveAt, Scan, GapOf;
    StaleGap(st, x, j, forks);
    RemovesFirst(st);
    SavedSame(RemoveAt(st, 0));
    forall i | 0 <= i < j
      ensures st.table[i].pid == forks + i + 1 && st.table[i].name == NameAt(x, i)
    {
      assert AddedAt(st, x, forks, i);
    }
    assert AddedAt(st, x, forks, j - 1);
    LastDropped(st, 0, forks + j);
  }

  /** Wherever the stale slot is, from the third on, the run leaves two live instances of an app. */
  lemma StaleTwice(st: State, x: string, j: nat)
    requires st.table == [] && |st.rest| == LIST_SIZE && 2 <= j < LIST_SIZE - 1
    requires CString(x) && x != "" && st.rest[j].name == x && st.rest[LIST_SIZE - 1].name == ""
    ensures Admissible(st, StaleRun(x, j)) && Twice(Run(st, StaleRun(x, j)), st.forks + j, st.forks + j + 1)
  {
    hide Run, Admissible, Step, Enabled, StartNew, CString, Adds, Longest;
    var full := Run(st, Adds(x, j));
    AddsFill(st, x, j);
    assert full.rest[0] == st.rest[j] && full.rest[LIST_SIZE - 1 - j] == st.rest[LIST_SIZE - 1];
    StaleLost(full, x, j, st.forks);
    var left := Step(full, Request("remove", ""));
    RunThen(st, Adds(x, j), Request("remove", ""));
    PadCString(x, j - 1);
    StartsNew(left, NameAt(x, j - 1));
    AgainTwice(left, Step(left, StartNew(NameAt(x, j - 1))), NameAt(x, j - 1), st.forks + j);
    RunThen(st, Adds(x, j) + [Request("remove", "")], StartNew(NameAt(x, j - 1)));
  }

  /** So a file that leaves a name in slot `j`, and the last slot free, leads to two instances. */
  lemma LeftoverTwice(text: string, now: int, x: string, j: nat)
    requires LoadedCount(text) == 0 && 2 <= j < LIST_SIZE - 1 && LoadedSlots(text)[j].name == x != "" && CString(x)
    requires LoadedSlots(text)[LIST_SIZE - 1].name == ""
    ensures !NoLeftovers(text)
    ensures var first := Startup(text, now);
      Admissible(first, StaleRun(x, j)) && Twice(Run(first, StaleRun(x, j)), j, j + 1)
  {
    hide LoadedSlots, LoadedCount, Run, Admissible, StaleRun, CString, Twice;
    StaleTwice(Startup(text, now), x, j);
  }

  /** For the file of three apps, four requests: `c` and a longer name, the first of them removed, the other once more. */
  lemma TwoInstances(now: int)
    ensures Loadable(ThreeText(), LIST_SIZE) && !NoLeftovers(ThreeText())
    ensures var first := Startup(ThreeText(), now);
      Admissible(first, StaleRun("c", 2)) && Twice(Run(first, StaleRun("c", 2)), 2, 3)
  {
    hide ThreeText, Loadable, NoLeftovers, LoadedSlots, LoadedCount, Startup, Run, Admissible, StaleRun, Twice;
    ThreeLoaded();
    LeftoverTwice(ThreeText(), now, "c", 2);
  }
}
