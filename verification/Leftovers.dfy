/**
 The exact condition for one instance per app: which files, once loaded, let no run ever
 have two live instances of an app or a live one that no running entry tracks.
 */
module Leftovers {
  import opened CText
  import opened Json
  import opened Loading
  import opened NewApps
  import opened ProcessList
  import opened StaleSlots
  import opened Supervisor
  import opened SupervisorProofs
  import opened SupervisorRuns
  import RoundTrip

  // -------------------------------------------------- two apps with one name

  /** The child of entry `j` is alive under its name. */
  ghost predicate ChildAlive(st: State, j: int)
    requires 0 <= j < |st.table|
  {
    var a := st.table[j];
    a.pid in st.live && st.live[a.pid] == a.name
  }

  ghost predicate NoNewerPid(st: State) {
    forall j | 0 <= j < |st.table| :: st.table[j].pid <= st.forks
  }

  /** No pid is newer than the last fork, and the running ones of the first `n` entries have
      live children, each its own. */
  ghost predicate Alive(st: State, n: nat)
    requires n <= |st.table|
  {
    && NoNewerPid(st)
    && (forall j | 0 <= j < n && st.table[j].isRunning != 0 :: ChildAlive(st, j))
    && forall j, k | 0 <= j < k < n && st.table[j].isRunning != 0 && st.table[k].isRunning != 0 ::
         st.table[j].pid != st.table[k].pid
  }

  lemma StartAlive(st: State, i: nat, n: nat)
    requires i <= n <= |st.table| && i < |st.table| && Alive(st, n)
    requires i < n ==> st.table[i].isRunning == 0
    ensures Alive(StartAt(st, i, Started, 0), if i == n then n + 1 else n)
  {
    var now := StartAt(st, i, Started, 0);
    forall j | 0 <= j < (if i == n then n + 1 else n) && now.table[j].isRunning != 0
      ensures ChildAlive(now, j)
    {
      if j != i { assert ChildAlive(st, j); }
    }
  }

  lemma LoadedStep(st: State, i: nat)
    requires i < |st.table| && Alive(st, i)
    ensures Alive(StartLoadedAt(st, i), i + 1)
  {
    var numbered := st.(table := st.table[i := st.table[i].(id := i)]);
    forall j | 0 <= j < i && numbered.table[j].isRunning != 0
      ensures ChildAlive(numbered, j)
    {
      assert ChildAlive(st, j);
    }
    if st.table[i].isRunning != 0 { StartAlive(numbered, i, i); }
  }

  /** The startup loop gives every running entry a child of its own, whatever the names are. */
  lemma {:induction false} LoadedAlive(st: State, i: nat)
    requires i <= |st.table| && Alive(st, i)
    ensures Alive(StartLoadedFrom(st, i), |st.table|)
    decreases |st.table| - i
  {
    hide Alive, StartLoadedAt;
    if i < |st.table| {
      LoadedStep(st, i);
      LoadedAlive(StartLoadedAt(st, i), i + 1);
    }
  }

  /** `startall` leaves every entry running, with a child of its own. */
  lemma {:induction false} StartAllAlive(st: State, i: nat)
    requires i <= |st.table| && Alive(st, |st.table|) && forall j | 0 <= j < i :: st.table[j].isRunning != 0
    ensures var r := StartAllFrom(st, i);
      && Alive(r, |st.table|)
      && forall j | 0 <= j < |st.table| :: r.table[j].isRunning != 0 && r.table[j].name == st.table[j].name
    decreases |st.table| - i
  {
    hide Alive;
    if i < |st.table| {
      if st.table[i].isRunning == 0 { StartAlive(st, i, |st.table|); }
      StartAllAlive(if st.table[i].isRunning != 0 then st else StartAt(st, i, Started, 0), i + 1);
    }
  }

  /** Two entries of one name, and everything started. */
  lemma NamesakesTwice(st: State, i: nat, k: nat)
    requires i < k < |st.table| && st.table[i].name == st.table[k].name && Alive(st, |st.table|)
    ensures Enabled(st, Request("startall", "")) && !OneEach(Step(st, Request("startall", "")))
  {
    hide FileText, Contents, StartAllFrom, OneEach;
    StartAllAlive(st, 0);
    var now := Step(st, Request("startall", ""));
    var all := StartAllFrom(st, 0);
    assert ChildAlive(all, i) && ChildAlive(all, k);
    assert now.live == all.live && now.table == all.table;
    TwoNotOne(now, now.table[i].pid, now.table[k].pid);
  }

  lemma TwoNotOne(st: State, p: Pid, q: Pid)
    requires p != q && p in st.live && q in st.live && st.live[p] == st.live[q]
    ensures !OneEach(st)
  {
  }

  // ------------------------------------------------------ an app without name

  /** At least the length of each name. */
  function NameLengths(t: seq<App>): (n: nat)
    ensures forall i | 0 <= i < |t| :: |t[i].name| <= n
  {
    if t == [] then 0 else |t[0].name| + NameLengths(t[1..])
  }

  lemma {:induction false} DecimalAddresses(t: seq<App>, i: nat)
    requires i < |t| <= LIST_SIZE
    ensures CString(Decimal(i)) && Resolve(t, Decimal(i)) == Entry(t[i])
  {
    hide Decimal, Digits, RoundTrip.Denotes, ParsedProcess, FirstNamed;
    RoundTrip.DecimalDenotes(i);
    RoundTrip.DigitsTaken(Decimal(i), 0, "");
    assert Decimal(i) + "" == Decimal(i);
    assert IsNumber(Decimal(i)) && Atoi(Decimal(i)) == i;
  }

  /** A new app, and the removal of the nameless one. */
  function NamelessRun(st: State): seq<Event> {
    [StartNew(Pad(NameLengths(st.table) + 1)), Request("remove", Decimal(FirstNamed(st.table, "", 0)))]
  }

  lemma NamelessGap(st: State, now: State, name: string)
    requires Added(st, now, name) && FirstNamed(st.table, "", 0) < |st.table| && |Slots(st)| == LIST_SIZE && st.rest != []
    ensures var u := FirstNamed(st.table, "", 0);
      && FirstNamed(now.table, now.table[u].name, 0) == u && |Slots(now)| == LIST_SIZE
      && Scan(Slots(now), 0) < LIST_SIZE && GapOf(now, u) == -1
  {
    var u := FirstNamed(st.table, "", 0);
    assert forall i | 0 <= i < |st.table| :: now.table[i] == now.table[..|st.table|][i];
    FirstNameless(now.table, u);
    var slots := Slots(StopAt(now, u));
    assert Slots(now)[u].name == "" && slots[u].name == "";
    hide Scan, LastNamed, FirstNamed;
    assert Scan(Slots(now), 0) <= u && Scan(slots, 0) <= u;
  }

  lemma FirstNameless(t: seq<App>, u: nat)
    requires u < |t| && t[u].name == "" && forall i | 0 <= i < u :: t[i].name != ""
    ensures FirstNamed(t, "", 0) == u
  {
    var k := FirstNamed(t, "", 0);
    assert k <= u;
  }

  /** A scan stops before the nameless entry, so its removal closes no gap, and the new app is left out. */
  lemma NamelessLoses(st: State)
    requires |Slots(st)| == LIST_SIZE && |st.table| + 1 < LIST_SIZE && FirstNamed(st.table, "", 0) < |st.table|
    requires NoNewerPid(st)
    ensures Admissible(st, NamelessRun(st)) && !OneEach(Run(st, NamelessRun(st)))
  {
    hide Run, Admissible, Step, Enabled, StartNew, NewAppText, CString, Decimal, OneEach, RemoveAt, Save;
    var (name, u) := (Pad(NameLengths(st.table) + 1), FirstNamed(st.table, "", 0));
    StartsNew(st, name);
    var more := Step(st, StartNew(name));
    NamelessGap(st, more, name);
    DecimalAddresses(more.table, u);
    RemovesEntry(more, Decimal(u), u);
    LastDropped(more, u, more.forks);
    var left := Step(more, Request("remove", Decimal(u)));
    SavedSame(RemoveAt(more, u));
    UntrackedNotOne(left, more.forks);
    RunOne(st, StartNew(name));
    RunThen(st, [StartNew(name)], Request("remove", Decimal(u)));
    assert [StartNew(name)] + [Request("remove", Decimal(u))] == NamelessRun(st);
  }

  lemma UntrackedNotOne(st: State, p: Pid)
    requires p in st.live && forall i | 0 <= i < |st.table| :: st.table[i].pid != p
    ensures !OneEach(st)
  {
    assert !exists i :: Runs(st.table, i, p, st.live[p]);
  }

  /** In a table with no room for a new app, the removal of the first app leaves the nameless one, or a copy of it. */
  lemma NamelessStays(st: State)
    requires |Slots(st)| == LIST_SIZE > |st.table| >= 2 && FirstNamed(st.table, "", 0) < |st.table| && NoNewerPid(st)
    ensures Enabled(st, Request("remove", ""))
    ensures NamelessLeft(Step(st, Request("remove", "")), |st.table| - 1)
  {
    hide RemoveAt, Save, Step, Enabled, FirstNamed, Scan, NamelessLeft;
    var u := FirstNamed(st.table, "", 0);
    assert Slots(st)[u].name == "";
    RemovesFirst(st);
    SavedSame(RemoveAt(st, 0));
    RemovedNameless(st, u);
    assert NamelessLeft(RemoveAt(st, 0), |st.table| - 1) ==> NamelessLeft(Save(RemoveAt(st, 0)), |st.table| - 1) by { hide *; SavedLeft(RemoveAt(st, 0), |st.table| - 1); }
  }

  ghost predicate NamelessLeft(st: State, n: nat) {
    |st.table| == n && |Slots(st)| == LIST_SIZE && FirstNamed(st.table, "", 0) < n && NoNewerPid(st)
  }

  lemma SavedLeft(st: State, n: nat)
    requires NamelessLeft(st, n)
    ensures NamelessLeft(Save(st), n)
  {
    hide FileText, Contents;
  }

  lemma RemovedNameless(st: State, u: nat)
    requires |Slots(st)| == LIST_SIZE > |st.table| >= 2 && u < |st.table| && NoNewerPid(st)
    requires st.table[u].name == "" && forall i | 0 <= i < u :: st.table[i].name != ""
    ensures NamelessLeft(RemoveAt(st, 0), |st.table| - 1)
  {
    hide StopAt, LastNamed, FirstNamed, Scan;
    var stopped := StopAt(st, 0);
    var slots := Slots(stopped);
    var now := RemoveAt(st, 0);
    StoppedEntries(st, 0);
    ScanStops(slots, u);
    assert Slots(now) == Deleted(slots, st.table[0].name);
    hide RemoveAt;
    ClosedNameless(slots, st.table[0].name, u, |st.table|, st.forks);
    assert forall i | 0 <= i < |now.table| :: now.table[i] == Slots(now)[i];
  }

  lemma StoppedEntries(st: State, i: nat)
    requires i < |st.table| && NoNewerPid(st)
    ensures StopAt(st, i).forks == st.forks
    ensures forall j | 0 <= j < |st.table| ::
      StopAt(st, i).table[j].name == st.table[j].name && StopAt(st, i).table[j].pid <= st.forks
  {
  }

  lemma ClosedNameless(slots: seq<App>, name: string, u: nat, n: nat, forks: nat)
    requires u < n < |slots| && n >= 2 && slots[u].name == "" && slots[0].name == name && Scan(slots, 0) == u
    requires forall i | 0 <= i < n :: slots[i].pid <= forks
    ensures var left := Deleted(slots, name);
      && left[if u == 0 then 0 else u - 1].name == ""
      && forall i | 0 <= i < n - 1 :: left[i].pid <= forks
  {
    hide Scan, LastNamed;
    var k := LastNamed(slots, name, u);
    if u > 0 {
      ShiftedPids(slots, k, u, n, forks);
      assert Deleted(slots, name) == Shifted(slots, k, u);
      hide Deleted;
    } else {
      assert Deleted(slots, name) == slots;
      hide Deleted;
    }
  }

  lemma ShiftedPids(slots: seq<App>, k: nat, u: nat, n: nat, forks: nat)
    requires k < u < n < |slots| && slots[u].name == "" && forall i | 0 <= i < n :: slots[i].pid <= forks
    ensures var left := Shifted(slots, k, u); left[u - 1].name == "" && forall i | 0 <= i < n - 1 :: left[i].pid <= forks
  {
    var left := Shifted(slots, k, u);
    assert left[u - 1] == Renumbered(slots[u]);
    forall i | 0 <= i < n - 1
      ensures left[i].pid <= forks
    {
      assert left[i] in {slots[i], Renumbered(slots[i]), Renumbered(slots[i + 1])};
    }
  }

  // ---------------------------------------------------------- the condition

  /** No run from here ever has two live instances of an app, or one that no running entry tracks. */
  ghost predicate AlwaysOneEach(st: State) {
    forall es: seq<Event> | Admissible(st, es) :: OneEach(Run(st, es))
  }

  /** Not every slot is taken by the file. */
  predicate LastSlotFree(text: string) {
    LoadedCount(text) < LIST_SIZE && LoadedSlots(text)[LIST_SIZE - 1].name == ""
  }

  /** That is so exactly for the files whose apps have distinct names and which leave no name behind
      the count from the third slot on. */
  lemma NeverTwoIffNoLeftovers(text: string, now: int)
    requires CString(text) && Loadable(text, LIST_SIZE) && LastSlotFree(text)
    ensures AlwaysOneEach(Startup(text, now)) <==> NoLeftovers(text)
  {
    hide Run, Admissible, Startup, NoLeftovers, Loadable, CString, OneEach, LastSlotFree;
    if NoLeftovers(text) {
      forall es: seq<Event> | Admissible(Startup(text, now), es)
        ensures OneEach(Run(Startup(text, now), es))
      {
        NeverTwoChildren(text, now, es);
      }
    } else {
      var es := FailingRun(text, now);
    }
  }

  /** For every other file there is a run that fails. */
  lemma FailingRun(text: string, now: int) returns (es: seq<Event>)
    requires CString(text) && Loadable(text, LIST_SIZE) && LastSlotFree(text) && !NoLeftovers(text)
    ensures Admissible(Startup(text, now), es) && !OneEach(Run(Startup(text, now), es))
  {
    hide Run, Admissible, Startup, LoadedSlots, LoadedCount, Loadable, CString, OneEach, Alive, FirstNamed, Step, Enabled;
    var st := Startup(text, now);
    StartupFacts(text, now);
    if FirstNamed(st.table, "", 0) < |st.table| {
      es := NamelessFails(st);
    } else if i, k :| 0 <= i < k < |st.table| && st.table[i].name == st.table[k].name {
      NamesakesTwice(st, i, k);
      es := [Request("startall", "")];
      RunOne(st, es[0]);
    } else {
      var j :| 2 <= j < LIST_SIZE && LoadedCount(text) <= j && LoadedSlots(text)[j].name != "";
      StaleFacts(text, j);
      es := StaleRun(LoadedSlots(text)[j].name, j);
      LeftoverTwice(text, now, LoadedSlots(text)[j].name, j);
      TwoNotOne(Run(st, es), j, j + 1);
    }
  }

  lemma NamelessFails(st: State) returns (es: seq<Event>)
    requires |Slots(st)| == LIST_SIZE > |st.table| && FirstNamed(st.table, "", 0) < |st.table| && NoNewerPid(st)
    ensures Admissible(st, es) && !OneEach(Run(st, es))
  {
    hide Run, Admissible, FirstNamed, Step, Enabled, OneEach;
    if |st.table| + 1 < LIST_SIZE {
      es := NamelessRun(st);
      NamelessLoses(st);
    } else {
      var e := Request("remove", "");
      NamelessStays(st);
      var left := Step(st, e);
      es := [e] + NamelessRun(left);
      NamelessLoses(left);
      RunOne(st, e);
      RunJoin(st, [e], NamelessRun(left));
    }
  }

  /** What the startup leaves alone, and the children it forks. */
  lemma StartupFacts(text: string, now: int)
    requires CString(text)
    ensures var st := Startup(text, now);
      && Alive(st, |st.table|) && NoNewerPid(st) && st.rest == LoadedSlots(text)[LoadedCount(text)..] && |st.table| == LoadedCount(text)
      && forall i | 0 <= i < |st.table| :: st.table[i].name == LoadedTable(text)[i].name
  {
    hide LoadedSlots, LoadedCount, CString, StartLoadedFrom;
    LoadedFresh(text);
    forall i | 0 <= i < |LoadedTable(text)|
      ensures Unstarted(LoadedTable(text)[i])
    {
      assert LoadedTable(text)[i] in LoadedSlots(text);
    }
    LoadedAlive(Load(text, now), 0);
    StartLoadedNames(Load(text, now), 0);
  }

  /** Names are left behind the count only when the count is 0. */
  lemma StaleFacts(text: string, j: nat)
    requires CString(text) && LastSlotFree(text)
    requires LoadedCount(text) <= j < LIST_SIZE && LoadedSlots(text)[j].name != ""
    ensures LoadedCount(text) == 0 && j < LIST_SIZE - 1 && CString(LoadedSlots(text)[j].name)
  {
    LoadedFresh(text);
    assert Savable(LoadedSlots(text)[j]) by { assert LoadedSlots(text)[j] in LoadedSlots(text); }
    CountedClean(text);
    hide LoadedSlots, LoadedCount;
  }

  lemma CountedClean(text: string)
    ensures LoadedCount(text) > 0 ==> forall i | LoadedCount(text) <= i < LIST_SIZE :: LoadedSlots(text)[i].name == ""
  {
    hide ParseText, FilledAll;
    var r := ParseText(text, false);
    if text != "" && r.Ok? && |Children(r.value)| <= LIST_SIZE {
      FilledSlots(Blanks(), Children(r.value), 0);
      assert Loaded(Blanks(), text) == FilledAll(Blanks(), Children(r.value), 0);
    }
  }

  /** A file that is not orderly and does no harm: the one name it leaves is in the first slot. */
  lemma HarmlessLeftover()
    ensures !Orderly(HalfText()) && NoLeftovers(HalfText())
  {
    hide HalfText, Orderly, Loadable, LoadedSlots, LoadedCount;
    HalfLoaded();
  }
}
