/**
 What holds of the supervisor over whole runs: one child per app, no child untracked,
 no stopped app coming back by itself, and a saved file that restores the service.
 */
module SupervisorRuns {
  import opened CText
  import opened Json
  import opened ProcessList
  import opened Supervisor
  import opened SupervisorProofs
  import opened Loading
  import ProcessTree

  // ----------------------------------------------------------------- startup

  /** No two apps have the same name, and a slot is free. */
  predicate Distinct(t: seq<App>) {
    |t| < LIST_SIZE && forall i, j | 0 <= i < j < |t| :: t[i].name != t[j].name
  }

  predicate WellNamed(t: seq<App>) {
    Distinct(t) && forall i | 0 <= i < |t| :: t[i].name != ""
  }

  /** The loaded apps are well named, and no name was left behind the count from the third slot on. */
  predicate NoLeftovers(text: string) {
    && WellNamed(LoadedTable(text))
    && forall i | 2 <= i < LIST_SIZE && LoadedCount(text) <= i :: LoadedSlots(text)[i].name == ""
  }

  /** As a slot stands before its app is started. */
  ghost predicate Unstarted(a: App) {
    a.pid == 0 && Savable(a)
  }

  lemma {:induction false} FilledFresh(slots: seq<App>, items: seq<Value>, i: nat)
    requires i <= |items| <= |slots|
    requires forall a | a in slots :: Unstarted(a)
    requires forall j | 0 <= j < |items| :: CStrings(items[j])
    ensures forall a | a in FilledAll(slots, items, i).0 :: Unstarted(a)
    decreases |items| - i
  {
    hide Unstarted, CStrings, Filled, Complete;
    if i < |items| {
      FilledUnstarted(slots[i], items[i]);
      var now := slots[i := Filled(slots[i], items[i])];
      forall a | a in now
        ensures Unstarted(a)
      {
        assert a in slots || a == now[i];
      }
      if Complete(items[i]) { FilledFresh(now, items, i + 1); }
    }
  }

  lemma FilledUnstarted(a: App, v: Value)
    requires Unstarted(a) && CStrings(v)
    ensures Unstarted(Filled(a, v))
  {
    FilledSavable(a, v);
    FilledPid(a, v);
    hide Filled, Savable, CStrings;
  }

  lemma FilledPid(a: App, v: Value)
    ensures Filled(a, v).pid == a.pid
  {
    hide GetObjectItem, ValueString, ValueInt;
  }

  lemma LoadedFresh(text: string)
    requires CString(text)
    ensures forall a | a in LoadedSlots(text) :: Unstarted(a)
  {
    hide ParseText, CStrings, Savable, FilledAll;
    var r := ParseText(text, false);
    BlankSavable();
    if r.Ok? && |Children(r.value)| <= LIST_SIZE {
      ParsedText(text);
      ChildrenCStrings(r.value);
      FilledFresh(Blanks(), Children(r.value), 0);
      assert Loaded(Blanks(), text) == FilledAll(Blanks(), Children(r.value), 0);
    } else {
      assert Loaded(Blanks(), text) == (Blanks(), -1);
    }
  }

  /** The startup loop from entry `i` on, the entries before it being in order. */
  lemma {:induction false} StartLoadedKeeps(st: State, i: nat)
    requires i <= |st.table| && WellNamed(st.table) && Core(st.(table := st.table[..i]))
    requires forall j | i <= j < |st.table| :: Unstarted(st.table[j])
    ensures var r := StartLoadedFrom(st, i);
      && Core(r) && SameApps(st.table, r.table, false) && r.file == st.file
      && r.zombies == st.zombies && r.pending == st.pending
      && forall j | 0 <= j < |r.table| ::
           r.table[j].isRunning == if j < i || st.table[j].isRunning == 0 then st.table[j].isRunning else 1
    decreases |st.table| - i
  {
    hide Core, Unstarted;
    if i == |st.table| {
      assert st.(table := st.table[..i]) == st;
    } else {
      StartLoadedStep(st, i);
      var next := StartLoadedAt(st, i);
      hide StartLoadedAt, WellNamed;
      StartLoadedKeeps(next, i + 1);
    }
  }

  /** One turn of the startup loop puts one more entry in order. */
  lemma StartLoadedStep(st: State, i: nat)
    requires i < |st.table| && WellNamed(st.table) && Core(st.(table := st.table[..i]))
    requires Unstarted(st.table[i])
    ensures var next := StartLoadedAt(st, i);
      && WellNamed(next.table) && Core(next.(table := next.table[..i + 1])) && next.file == st.file
      && next.zombies == st.zombies && next.pending == st.pending
      && SameApps(st.table, next.table, false)
      && next.table[i].isRunning == (if st.table[i].isRunning == 0 then 0 else 1)
      && forall j | 0 <= j < |st.table| && j != i :: next.table[j] == st.table[j]
  {
    hide Core, Savable;
    var a := st.table[i];
    var entry := a.(id := i, isRunning := 0, pid := 0);
    var before := st.(table := st.table[..i]);
    var more := before.(table := before.table + [entry]);
    var next := StartLoadedAt(st, i);
    SavableSame(a, entry);
    assert FirstNamed(before.table, a.name, 0) == i;
    AppendKeeps(before, more, entry);
    if a.isRunning == 0 {
      assert next.(table := next.table[..i + 1]) == more;
    } else {
      NotLive(more, i);
      RestartsAfter(more.log, Action(a.name, Started), a.name);
      StartKeeps(more, i, Started, 0);
      assert next.(table := next.table[..i + 1]) == StartAt(more, i, Started, 0);
    }
  }

  ghost predicate MarksStarted(loaded: seq<App>, t: seq<App>) {
    && |loaded| == |t|
    && forall i | 0 <= i < |t| :: t[i].isRunning == 1 <==> loaded[i].isRunning != 0
  }

  /** A service that has started from an orderly file is in order, with exactly the apps marked as running started. */
  lemma StartupKeeps(text: string, now: int)
    requires CString(text) && Loadable(text, LIST_SIZE) && Orderly(text) && Distinct(LoadedTable(text))
    ensures Inv(Startup(text, now))
    ensures MarksStarted(LoadedTable(text), Startup(text, now).table)
  {
    hide Orderly, Loadable, LoadedSlots, LoadedCount, Core, Unstarted, StartLoadedFrom, Distinct, CString;
    LoadedFresh(text);
    LoadTidyIffOrderly(text, now);
    TidyNamed(Load(text, now));
    StartedFrom(Load(text, now));
  }

  lemma LoadTidyIffOrderly(text: string, now: int)
    requires Loadable(text, LIST_SIZE)
    ensures TidySlots(Load(text, now)) <==> Orderly(text)
    ensures |Slots(Load(text, now))| == LIST_SIZE
  {
    hide Orderly, Loadable, LoadedSlots, LoadedCount, Tidy;
    CountFitsIffOrderly(text);
    assert Slots(Load(text, now)) == LoadedSlots(text);
  }

  lemma TidyNamed(st: State)
    requires TidySlots(st)
    ensures forall i | 0 <= i < |st.table| :: st.table[i].name != ""
  {
    forall i | 0 <= i < |st.table|
      ensures st.table[i].name != ""
    {
      assert Slots(st)[i] == st.table[i];
    }
  }

  lemma StartedFrom(st: State)
    requires WellNamed(st.table) && forall a | a in st.table :: Unstarted(a)
    requires st.live == map[] && st.zombies == {} && st.pending.None?
    ensures var r := StartLoadedFrom(st, 0);
      && Core(r) && (TidySlots(st) ==> TidySlots(r)) && (Clear(st) ==> Clear(r))
      && SameApps(st.table, r.table, false) && r.file == st.file && MarksStarted(st.table, r.table)
      && r.zombies == {} && r.pending.None?
  {
    EmptyCore(st);
    hide Core, TidySlots, Clear, Unstarted, StartLoadedFrom, WellNamed;
    StartLoadedKeeps(st, 0);
    SameNamesTidy(st, StartLoadedFrom(st, 0));
  }

  lemma EmptyCore(st: State)
    requires st.live == map[] && st.zombies == {} && st.pending.None?
    ensures Core(st.(table := st.table[..0]))
  {
  }

  /** The invariant holds in every state that a service reaches from an orderly file. */
  lemma Reached(text: string, now: int, es: seq<Event>)
    requires CString(text) && Loadable(text, LIST_SIZE) && Orderly(text) && Distinct(LoadedTable(text))
    requires Admissible(Startup(text, now), es)
    ensures Inv(Run(Startup(text, now), es))
  {
    hide Inv, Run, Admissible, Startup, Distinct, LoadedTable, Loadable, Orderly;
    StartupKeeps(text, now);
    RunKeeps(Startup(text, now), es);
  }

  lemma {:induction false} StartLoadedNames(st: State, i: nat)
    requires i <= |st.table|
    ensures forall j | 0 <= j < |st.table| :: StartLoadedFrom(st, i).table[j].name == st.table[j].name
    decreases |st.table| - i
  {
    if i < |st.table| { StartLoadedNames(StartLoadedAt(st, i), i + 1); }
  }

  /** The count and the slots agree in every state of every run from here. */
  ghost predicate AlwaysTidy(st: State) {
    forall es: seq<Event> | Admissible(st, es) :: TidySlots(Run(st, es))
  }

  lemma AlwaysTidyNow(st: State)
    requires AlwaysTidy(st)
    ensures TidySlots(st)
  {
    var none: seq<Event> := [];
    assert Admissible(st, none) && Run(st, none) == st;
  }

  /** They always do if and only if the file that the service was started from is orderly. */
  lemma TidyAlwaysIffOrderly(text: string, now: int)
    requires CString(text) && Loadable(text, LIST_SIZE) && Distinct(LoadedTable(text))
    ensures AlwaysTidy(Startup(text, now)) <==> Orderly(text)
  {
    hide Core, TidySlots, Distinct, LoadedTable, LoadedSlots, LoadedCount, Loadable, Orderly, CString, Enabled, Step;
    if Orderly(text) {
      forall es: seq<Event> | Admissible(Startup(text, now), es)
        ensures TidySlots(Run(Startup(text, now), es))
      {
        Reached(text, now, es);
      }
    }
    if AlwaysTidy(Startup(text, now)) {
      AlwaysTidyNow(Startup(text, now));
      LoadTidyIffOrderly(text, now);
      StartLoadedNames(Load(text, now), 0);
      UntidyStarted(Load(text, now), Startup(text, now));
    }
  }

  /** Numbering and starting changes no name, so it tidies nothing up. */
  lemma UntidyStarted(st: State, now: State)
    requires |Slots(st)| == LIST_SIZE && TidySlots(now) && now.rest == st.rest && |now.table| == |st.table|
    requires forall i | 0 <= i < |st.table| :: now.table[i].name == st.table[i].name
    ensures TidySlots(st)
  {
    SameNamesTidy(now, st);
  }

  /** Whatever was loaded, every slot can be printed. */
  lemma StartupSound(text: string, now: int)
    requires CString(text)
    ensures Sound(Startup(text, now))
  {
    hide LoadedSlots, LoadedCount, CString, StartLoadedFrom;
    LoadedFresh(text);
    assert Slots(Load(text, now)) == LoadedSlots(text);
    forall i | 0 <= i < LIST_SIZE
      ensures Savable(Slots(Load(text, now))[i])
    {
      assert LoadedSlots(text)[i] in LoadedSlots(text);
    }
    StartLoadedSound(Load(text, now), 0);
  }

  lemma {:induction false} StartLoadedSound(st: State, i: nat)
    requires Sound(st) && i <= |st.table|
    ensures Sound(StartLoadedFrom(st, i))
    decreases |st.table| - i
  {
    hide Sound;
    if i < |st.table| {
      SoundEntry(st, StartLoadedAt(st, i), i);
      hide StartLoadedAt;
      StartLoadedSound(StartLoadedAt(st, i), i + 1);
    }
  }

  lemma {:induction false} AdmissibleFeasible(st: State, es: seq<Event>)
    requires Admissible(st, es)
    ensures Feasible(st, es)
    decreases |es|
  {
    hide Step, Possible, Fitting;
    if es != [] { AdmissibleFeasible(Step(st, es[0]), es[1..]); }
  }

  // ------------------------------------------------------- one child per app

  /** No app ever has two live children, and each live child is the pid of exactly one running entry. */
  lemma OneChildPerApp(st: State)
    requires Core(st)
    ensures forall p, q | p in st.live && q in st.live && st.live[p] == st.live[q] :: p == q
    ensures forall p | p in st.live ::
      exists i :: Runs(st.table, i, p, st.live[p]) && forall j | 0 <= j < |st.table| && st.table[j].pid == p :: j == i
  {
    hide KernelOk, CountOk, Awaited, EntryOk;
    forall p, q | p in st.live && q in st.live && st.live[p] == st.live[q]
      ensures p == q
    {
      var i :| Runs(st.table, i, p, st.live[p]);
      var j :| Runs(st.table, j, q, st.live[q]);
      assert i == j;
    }
    forall p | p in st.live
      ensures exists i :: Runs(st.table, i, p, st.live[p]) && forall j | 0 <= j < |st.table| && st.table[j].pid == p :: j == i
    {
      var i :| Runs(st.table, i, p, st.live[p]);
      LivePositive(st, p);
      assert forall j | 0 <= j < |st.table| && st.table[j].pid == p :: j == i;
    }
  }

  /** No app has two live instances, and every live instance is that of a running entry. */
  ghost predicate OneEach(st: State) {
    && (forall p, q | p in st.live && q in st.live && st.live[p] == st.live[q] :: p == q)
    && forall p | p in st.live :: exists i :: Runs(st.table, i, p, st.live[p])
  }

  /** In every reachable state, whatever was requested, died, was reaped and was handled in whatever
      order. `Leftovers.NeverTwoIffNoLeftovers` shows that the condition is exact. */
  lemma NeverTwoChildren(text: string, now: int, es: seq<Event>)
    requires CString(text) && Loadable(text, LIST_SIZE) && NoLeftovers(text)
    requires Admissible(Startup(text, now), es)
    ensures OneEach(Run(Startup(text, now), es))
  {
    hide Core, Clear, Run, Admissible, Startup, NoLeftovers, Loadable, CString;
    ReachedClear(text, now, es);
    OneChildPerApp(Run(Startup(text, now), es));
  }

  /** What holds in every state reached from such a file, where the count need not fit the slots. */
  lemma ReachedClear(text: string, now: int, es: seq<Event>)
    requires CString(text) && NoLeftovers(text) && Admissible(Startup(text, now), es)
    ensures Core(Run(Startup(text, now), es)) && Clear(Run(Startup(text, now), es))
  {
    hide Core, Clear, Run, Admissible, Startup, NoLeftovers, CString;
    StartupClear(text, now);
    RunClear(Startup(text, now), es);
  }

  lemma StartupClear(text: string, now: int)
    requires CString(text) && NoLeftovers(text)
    ensures Core(Startup(text, now)) && Clear(Startup(text, now))
  {
    hide LoadedSlots, LoadedCount, Core, Unstarted, StartLoadedFrom, WellNamed, CString;
    LoadedFresh(text);
    assert Slots(Load(text, now)) == LoadedSlots(text);
    StartedFrom(Load(text, now));
  }

  /** Orderly files are among them. */
  lemma OrderlyNoLeftovers(text: string)
    requires Loadable(text, LIST_SIZE) && Orderly(text) && Distinct(LoadedTable(text))
    ensures NoLeftovers(text)
  {
    hide Orderly, Loadable, LoadedSlots, LoadedCount, Distinct;
    LoadTidyIffOrderly(text, 0);
    TidyNamed(Load(text, 0));
    assert Slots(Load(text, 0)) == LoadedSlots(text);
  }

  lemma LivePositive(st: State, p: Pid)
    requires Core(st) && p in st.live
    ensures p > 0
  {
  }

  /** `Kill` takes out of the server's children just what `kill_process_by_pid` does: over every process
      forest in which the live children are the server's, a live pid loses its own tree and no other
      child is touched, and a pid that is dead already changes nothing. */
  lemma KillMatchesTree(st: State, m: ProcessTree.Forest, server: Pid, pid: Pid)
    requires ProcessTree.IsForest(m) && server != ProcessTree.INIT && pid != ProcessTree.INIT
    requires ProcessTree.ChildrenOf(m, server) == st.live.Keys && (pid in m ==> pid in st.live)
    ensures var now := ProcessTree.Killed(m, ProcessTree.Tree(m, pid, true));
      && ProcessTree.ChildrenOf(now, server) == Kill(st, pid).live.Keys
      && (pid !in m ==> now == m)
  {
    if pid in st.live {
      ProcessTree.StopsOneChild(m, server, pid);
    } else {
      ProcessTree.NotLive(m, pid);
    }
  }

  // --------------------------------------------------------- no resurrection

  /** No running entry has the name. */
  ghost predicate Down(t: seq<App>, name: string) {
    forall i | 0 <= i < |t| && t[i].name == name :: t[i].isRunning == 0
  }

  /** The event is a start that addresses the app, or a start of everything while it is listed. */
  ghost predicate Reaches(t: seq<App>, e: Event, name: string) {
    e.Request? &&
    if e.command == "startall" then FirstNamed(t, name, 0) < |t|
    else e.command == "start" && StartsName(t, Resolve(t, e.argument), name)
  }

  /** A new process only counts under a name that is not taken: otherwise it is refused. */
  ghost predicate StartsName(t: seq<App>, target: Target, name: string) {
    match target
    case Entry(app) => app.name == name
    case Cmd(process) => process.name == name && FirstNamed(t, name, 0) == |t|
    case NoTarget => false
  }

  /** A stopped app is running after a step if and only if the step is a start that reaches it. */
  lemma DownUntilReached(st: State, e: Event, name: string)
    requires Core(st) && Clear(st) && Enabled(st, e) && Down(st.table, name)
    ensures Down(Step(st, e).table, name) <==> !Reaches(st.table, e, name)
  {
    hide Core, Clear, Defined, Fitting, FileText, Start, Stop, Restart, Remove, StartAllFrom, StopAllFrom, HandleFrom;
    if e.Request? {
      RequestDown(st, e.command, e.argument, name);
    } else if e.Handle? {
      HandleDown(st, name);
    } else {
      KernelKeeps(st, e);
    }
  }

  lemma RequestDown(st: State, command: string, argument: string, name: string)
    requires Core(st) && Clear(st) && Down(st.table, name)
    ensures Down(Dispatch(st, command, argument).table, name) <==> !Reaches(st.table, Request(command, argument), name)
  {
    hide Core, Clear, Down, Start, Stop, Restart, Remove, StartAllFrom, StopAllFrom, StartsName, Resolve;
    if command == "startall" { StartAllDown(st, name); }
    else if command == "stopall" { StopAllDown(st, name); }
    else if command == "start" { StartDown(st, argument, name); }
    else if command == "stop" || command == "restart" { StopDown(st, argument, name); }
    else if command == "remove" { RemoveDown(st, argument, name); }
  }

  lemma HandleDown(st: State, name: string)
    requires Core(st) && st.pending.Some? && Down(st.table, name)
    ensures Down(Step(st, Handle).table, name)
  {
    var pid := st.pending.value;
    if k :| 0 <= k < |st.table| && st.table[k].isRunning == 1 && st.table[k].pid == pid {
      HandleFinds(st, pid, 0, k);
    } else {
      NoneRunning(st, pid);
      HandleNone(st, pid, 0);
    }
    hide Core, HandleFrom;
  }

  lemma StopAllDown(st: State, name: string)
    requires Core(st)
    ensures Down(StopAllFrom(st, 0).table, name)
  {
    StopAllKeeps(st, 0);
    hide StopAllFrom, Core;
  }

  /** `startall` leaves every entry running. */
  lemma {:induction false} StartAllStarts(st: State, i: nat)
    requires i <= |st.table| && forall j | 0 <= j < |st.table| :: st.table[j].isRunning in {0, 1}
    ensures var r := StartAllFrom(st, i).table;
      |r| == |st.table| && forall j | 0 <= j < |r| ::
        r[j].name == st.table[j].name && r[j].isRunning == if j < i then st.table[j].isRunning else 1
    decreases |st.table| - i
  {
    if i < |st.table| {
      StartAllStarts(if st.table[i].isRunning != 0 then st else StartAt(st, i, Started, 0), i + 1);
    }
  }

  lemma StartAllDown(st: State, name: string)
    requires Core(st) && Down(st.table, name)
    ensures Down(StartAllFrom(st, 0).table, name) <==> FirstNamed(st.table, name, 0) == |st.table|
  {
    forall j | 0 <= j < |st.table|
      ensures st.table[j].isRunning in {0, 1}
    {
      EntryIn(st, j);
    }
    hide Core, StartAllFrom;
    StartAllStarts(st, 0);
    var k := FirstNamed(st.table, name, 0);
    var r := StartAllFrom(st, 0).table;
    if k < |st.table| { assert r[k].name == name && r[k].isRunning == 1; }
  }

  lemma StartDown(st: State, argument: string, name: string)
    requires Core(st) && Down(st.table, name)
    ensures Down(Start(st, argument).table, name) <==> !StartsName(st.table, Resolve(st.table, argument), name)
  {
    hide Core, Resolve, StartAt, StartWithCmd, Down;
    CoreTable(st);
    ResolvedHere(st.table, argument);
    var target := Resolve(st.table, argument);
    if target.Entry? {
      StartAtDown(st, FirstNamed(st.table, target.app.name, 0), name);
      if target.app.isRunning != 0 { EntryNotDown(st.table, target.app, name); }
    } else if target.Cmd? {
      StartCmdDown(st, target.process, name);
    }
  }

  lemma EntryNotDown(t: seq<App>, a: App, name: string)
    requires Down(t, name) && a in t && a.isRunning != 0
    ensures a.name != name
  {
  }

  lemma StartAtDown(st: State, i: nat, name: string)
    requires i < |st.table| && Down(st.table, name)
    ensures Down(StartAt(st, i, Started, 0).table, name) <==> st.table[i].name != name
  {
    var now := StartAt(st, i, Started, 0);
    assert now.table[i].name == st.table[i].name && now.table[i].isRunning == 1;
  }

  lemma StartCmdDown(st: State, process: App, name: string)
    requires Down(st.table, name)
    ensures Down(StartWithCmd(st, process).table, name) <==> process.name != name
  {
    var n := |st.table|;
    var now := StartWithCmd(st, process);
    assert now.table[n].name == process.name && now.table[n].isRunning == 1;
    assert forall i | 0 <= i < n :: now.table[i] == st.table[i];
  }

  lemma StopDown(st: State, argument: string, name: string)
    requires Core(st) && Down(st.table, name)
    ensures Down(Stop(st, argument).table, name) && Down(Restart(st, argument).table, name)
  {
    ResolvedHere(st.table, argument);
    hide Core, Resolve;
  }

  lemma RemoveDown(st: State, argument: string, name: string)
    requires Core(st) && Clear(st) && Down(st.table, name)
    ensures Down(Remove(st, argument).table, name)
  {
    CoreTable(st);
    ResolvedHere(st.table, argument);
    hide Core, Resolve, RemoveAt, StopAt, Down, Clear;
    var target := Resolve(st.table, argument);
    if target.Entry? {
      var pos := FirstNamed(st.table, target.app.name, 0);
      RemoveClear(st, pos);
      StopAtDown(st, pos, name);
      RemovedDown(StopAt(st, pos).table, pos, name);
    }
  }

  lemma StopAtDown(st: State, i: nat, name: string)
    requires i < |st.table| && Down(st.table, name)
    ensures Down(StopAt(st, i).table, name)
  {
  }

  lemma RemovedDown(t: seq<App>, i: nat, name: string)
    requires i < |t| && Down(t, name)
    ensures Down(Removed(t, i), name)
  {
  }

  /** No event of the run is a start that reaches the app. */
  ghost predicate NotReached(st: State, es: seq<Event>, name: string)
    decreases |es|
  {
    es == [] || (!Reaches(st.table, es[0], name) && NotReached(Step(st, es[0]), es[1..], name))
  }

  /** A stopped app stays stopped, without a live child, through every run in which no start
      reaches it, whatever dies, is reaped or is handled meanwhile. */
  lemma {:induction false} NoResurrection(st: State, es: seq<Event>, name: string)
    requires Core(st) && Clear(st) && Admissible(st, es) && Down(st.table, name) && NotReached(st, es, name)
    ensures Down(Run(st, es).table, name) && name !in Run(st, es).live.Values
    decreases |es|
  {
    hide Core, Clear, Enabled, Step, Reaches, Down;
    if es == [] {
      DownNotLive(st, name);
    } else {
      StepClear(st, es[0]);
      DownUntilReached(st, es[0], name);
      NoResurrection(Step(st, es[0]), es[1..], name);
    }
  }

  /** So it is in every run of a service whose file left no harmful names, from any state on. */
  lemma StaysDown(text: string, now: int, es: seq<Event>, more: seq<Event>, name: string)
    requires CString(text) && Loadable(text, LIST_SIZE) && NoLeftovers(text) && Admissible(Startup(text, now), es)
    requires var st := Run(Startup(text, now), es);
      Down(st.table, name) && Admissible(st, more) && NotReached(st, more, name)
    ensures var last := Run(Run(Startup(text, now), es), more);
      Down(last.table, name) && name !in last.live.Values
  {
    hide Core, Clear, Run, Admissible, Startup, NoLeftovers, Loadable, CString, Down, NotReached;
    ReachedClear(text, now, es);
    NoResurrection(Run(Startup(text, now), es), more, name);
  }

  lemma DownNotLive(st: State, name: string)
    requires Core(st) && Down(st.table, name)
    ensures name !in st.live.Values
  {
    hide LoadedTable, TableOk, KernelOk, CountOk, Awaited;
    forall p | p in st.live
      ensures st.live[p] != name
    {
      var i :| Runs(st.table, i, p, st.live[p]);
    }
  }

  // ------------------------------------------------------- stopping for good

  /** The entry that an argument addresses: its number if it is one of the table, else its name. */
  ghost predicate Addresses(t: seq<App>, argument: string, i: nat) {
    && i < |t|
    && var id := GetProcessId(argument, |t|);
       if id != -1 then i == id else t[i].name == argument
  }

  lemma AddressesResolved(t: seq<App>, argument: string, i: nat)
    requires TableOk(t) && Addresses(t, argument, i)
    ensures Resolve(t, argument) == Entry(t[i]) && FirstNamed(t, t[i].name, 0) == i
  {
    hide EntryOk, GetProcessId, ParsedProcess;
    FirstIsOnly(t, i);
  }

  /** `stop` of an app, and `stopall` of any, leaves it stopped. */
  lemma StopsAreDown(st: State, argument: string, i: nat)
    requires Core(st) && Addresses(st.table, argument, i)
    ensures Down(Step(st, Request("stop", argument)).table, st.table[i].name)
    ensures Down(Step(st, Request("stopall", argument)).table, st.table[i].name)
  {
    hide Core, GetProcessId, Dispatch, StopAllFrom, Stop, FileText, Down;
    StopAllDown(st, st.table[i].name);
    StopDownAt(st, argument, i);
    assert Dispatch(st, "stop", argument) == Stop(st, argument) by { Branches(st, argument); }
    assert Dispatch(st, "stopall", argument) == StopAllFrom(st, 0) by { Branches(st, argument); }
  }

  lemma Branches(st: State, argument: string)
    ensures Dispatch(st, "stop", argument) == Stop(st, argument)
    ensures Dispatch(st, "stopall", argument) == StopAllFrom(st, 0)
    ensures Dispatch(st, "remove", argument) == Remove(st, argument)
  {
    hide Start, Stop, Restart, Remove, StartAllFrom, StopAllFrom;
  }

  lemma StopDownAt(st: State, argument: string, i: nat)
    requires Core(st) && Addresses(st.table, argument, i)
    ensures Down(Stop(st, argument).table, st.table[i].name)
  {
    CoreTable(st);
    AddressesResolved(st.table, argument, i);
    hide Core, Resolve, FirstNamed, EntryOk, Addresses;
  }

  /** The death of a running app's process revives it with a new child and a count one higher,
      if and only if it was not started this very second; no other entry changes. */
  lemma CrashHandled(st: State, k: nat)
    requires Core(st) && st.pending.Some? && k < |st.table|
    requires st.table[k].isRunning == 1 && st.table[k].pid == st.pending.value
    ensures var now := Step(st, Handle);
      && |now.table| == |st.table| && (forall j | 0 <= j < |st.table| && j != k :: now.table[j] == st.table[j])
      && (now.table[k].isRunning == 1 <==> st.table[k].startTime != st.now)
      && (now.table[k].isRunning == 1 ==>
            && now.table[k].restartTimes == st.table[k].restartTimes + 1
            && now.table[k].pid == st.forks + 1 && st.forks + 1 !in st.live
            && now.live == st.live[st.forks + 1 := st.table[k].name])
      && (now.table[k].isRunning == 0 ==> Down(now.table, st.table[k].name) && now.live == st.live)
  {
    hide Core, HandleFrom, Dispatch, FileText, EntryOk;
    var pid := st.pending.value;
    HandleFinds(st, pid, 0, k);
    CoreTable(st);
    FreshPid(st);
  }

  lemma InvCore(st: State)
    requires Inv(st)
    ensures Core(st) && TidySlots(st)
  {
  }

  lemma FreshPid(st: State)
    requires Core(st)
    ensures st.forks + 1 !in st.live
  {
  }

  /** A pid whose app was stopped, restarted or removed after the pid was reaped changes nothing when handled. */
  lemma StaleHandled(st: State)
    requires Core(st) && st.pending.Some?
    requires forall j | 0 <= j < |st.table| && st.table[j].isRunning == 1 :: st.table[j].pid != st.pending.value
    ensures Step(st, Handle) == st.(pending := None)
  {
    hide Core, HandleFrom, Dispatch, FileText;
    NoneRunning(st, st.pending.value);
    HandleNone(st, st.pending.value, 0);
  }

  // ----------------------------------------------------------------- removal

  /** `remove` takes out exactly the app that is addressed: the others keep their order and
      everything but an id one lower after the gap, and no child of the app is left. */
  lemma RemoveExact(st: State, argument: string, i: nat)
    requires Core(st) && Clear(st) && Addresses(st.table, argument, i)
    ensures var now := Step(st, Request("remove", argument));
      && |now.table| == |st.table| - 1
      && (forall j | 0 <= j < i :: now.table[j] == st.table[j])
      && (forall j | i <= j < |now.table| :: now.table[j] == st.table[j + 1].(id := j))
      && (forall j | 0 <= j < |now.table| :: now.table[j].name != st.table[i].name)
      && st.table[i].name !in now.live.Values
  {
    hide Core, Clear, Enabled, GetProcessId, Dispatch, FileText, Contents, Remove, Removed;
    var now := Step(st, Request("remove", argument));
    RemovedTable(st, argument, i);
    RemovedOthers(st, StopAt(st, i), i);
    RemoveRequestKeeps(st, argument);
    Branches(st, argument);
    FileKeeps(Remove(st, argument), now);
    DownNotLive(now, st.table[i].name);
  }

  lemma RemovedTable(st: State, argument: string, i: nat)
    requires Core(st) && Clear(st) && Addresses(st.table, argument, i)
    ensures Step(st, Request("remove", argument)).table == Removed(StopAt(st, i).table, i)
  {
    CoreTable(st);
    AddressesResolved(st.table, argument, i);
    hide Clear;
    RemoveClear(st, i);
    hide Core, Resolve, FileText, RemoveAt, StopAt, FirstNamed, Start, Stop, Restart, Addresses, Removed;
  }

  lemma RemovedOthers(st: State, stopped: State, i: nat)
    requires Core(st) && i < |st.table| && stopped == StopAt(st, i)
    ensures var t := Removed(stopped.table, i);
      && (forall j | 0 <= j < i :: t[j] == st.table[j])
      && (forall j | i <= j < |t| :: t[j] == st.table[j + 1].(id := j))
      && forall j | 0 <= j < |t| :: t[j].name != st.table[i].name
  {
    forall j | 0 <= j < |st.table|
      ensures st.table[j].id == j && (j != i ==> stopped.table[j] == st.table[j] && st.table[j].name != st.table[i].name)
    {
      EntryIn(st, j);
    }
    hide Core;
  }

  // ------------------------------------------------------------- persistence

  /** After a request the file is read back as the table: names, commands, directories and running
      marks, in order, whatever stands after the file in the reader's buffer. */
  lemma RequestPersists(st: State, command: string, argument: string, junk: string)
    requires Inv(st) && Enabled(st, Request(command, argument))
    ensures var saved := Step(st, Request(command, argument));
      SameApps(LoadedTable(saved.file + junk), saved.table, true)
  {
    ClearTidy(st);
    hide Defined, Fitting, Dispatch, LoadedTable, Core, TidySlots, Clear, FileText, Contents;
    DispatchKeeps(st, command, argument);
    SavedReloads(Dispatch(st, command, argument), junk);
    FreshApps(Dispatch(st, command, argument));
  }

  /** The files the service writes can be loaded, are orderly and have distinct names: a service
      that starts from one is never in the state that a half-loaded file leaves. */
  lemma SavedIsOrderly(st: State, junk: string, now: int)
    requires Core(st) && TidySlots(st)
    ensures var text := Save(st).file + junk;
      && Loadable(text, LIST_SIZE) && Orderly(text)
      && WellNamed(LoadedTable(text)) && TidySlots(Load(text, now))
  {
    var text := Save(st).file + junk;
    SavedReloads(st, junk);
    AllSavable(st);
    hide FileText, Contents, Core, Savable, Loadable, LoadedSlots, LoadedCount, Orderly;
    TextReloads(st.table, junk);
    FreshApps(st);
    RestoredTidy(st.table);
    hide TidySlots, Tidy, RestoredAll;
    CountFitsIffOrderly(text);
    LoadTidyIffOrderly(text, now);
  }

  lemma RestoredTidy(table: seq<App>)
    requires |table| <= LIST_SIZE && forall i | 0 <= i < |table| :: table[i].name != ""
    ensures Tidy(RestoredAll(table, Blanks()), |table|)
  {
  }

  /** So a service started from it has the same apps in the same order, and exactly those marked
      as running run again, each with a live child. */
  lemma ServiceRestart(st: State, command: string, argument: string, junk: string, now: int)
    requires Inv(st) && Enabled(st, Request(command, argument))
    ensures var saved := Step(st, Request(command, argument));
      var again := Startup(saved.file + junk, now);
      && SameApps(saved.table, again.table, true)
      && Inv(again)
      && forall i | 0 <= i < |again.table| && again.table[i].isRunning == 1 :: again.table[i].pid in again.live
  {
    hide Defined, Fitting, Dispatch, LoadedTable, Inv, Core, TidySlots, Clear, Contents, FileText;
    InvCore(st);
    ClearTidy(st);
    DispatchKeeps(st, command, argument);
    RestartSaved(Dispatch(st, command, argument), junk, now);
  }

  lemma RestartSaved(st: State, junk: string, now: int)
    requires Core(st) && TidySlots(st)
    ensures var again := Startup(Save(st).file + junk, now);
      && SameApps(st.table, again.table, true)
      && Inv(again)
      && forall i | 0 <= i < |again.table| && again.table[i].isRunning == 1 :: again.table[i].pid in again.live
  {
    hide Contents, FileText, StartLoadedFrom, CString, Core, TidySlots, LoadedSlots, LoadedCount, Loadable, Orderly, WellNamed;
    hide Unstarted;
    SavedReloads(st, junk);
    SavedIsOrderly(st, junk, now);
    FreshApps(st);
    var text := Save(st).file + junk;
    assert Load(text, now).table == Fresh(st.table);
    hide Fresh;
    StartedFrom(Load(text, now));
    RunningAlive(Startup(text, now));
    MarksSame(st, Startup(text, now), Load(text, now).table);
  }

  lemma MarksSame(st: State, again: State, loaded: seq<App>)
    requires Core(st) && Core(again) && SameApps(loaded, st.table, true)
    requires SameApps(loaded, again.table, false) && MarksStarted(loaded, again.table)
    ensures SameApps(st.table, again.table, true)
  {
    forall i | 0 <= i < |st.table|
      ensures st.table[i].isRunning == again.table[i].isRunning
    {
      EntryIn(st, i);
      EntryIn(again, i);
    }
  }

  lemma FreshApps(st: State)
    requires Core(st)
    ensures WellNamed(Fresh(st.table)) && SameApps(Fresh(st.table), st.table, true)
    ensures forall a | a in Fresh(st.table) :: Unstarted(a)
  {
    forall i | 0 <= i < |st.table|
      ensures st.table[i].name != "" && Unstarted(Restored(st.table[i], BLANK))
    {
      EntryIn(st, i);
    }
    hide Unstarted, EntryOk;
  }

  lemma RunningAlive(st: State)
    requires Core(st) && st.zombies == {} && st.pending.None?
    ensures forall i | 0 <= i < |st.table| && st.table[i].isRunning == 1 :: st.table[i].pid in st.live
  {
    forall i | 0 <= i < |st.table| && st.table[i].isRunning == 1
      ensures st.table[i].pid in st.live
    {
      EntryIn(st, i);
    }
  }

  /** The pid the reaper holds is that of an app started this very second. */
  ghost predicate TooQuick(st: State) {
    exists k :: 0 <= k < |st.table| && st.table[k].isRunning == 1
      && st.pending == Some(st.table[k].pid) && st.table[k].startTime == st.now
  }

  /** The reaper saves nothing: the file's running marks stay those of the table, unless the
      reaper stops an app for good; then the next service would start it again. */
  lemma MarksKeptUnlessTooQuick(st: State)
    requires Core(st) && st.pending.Some?
    ensures Step(st, Handle).file == st.file
    ensures SameApps(st.table, Step(st, Handle).table, true) <==> !TooQuick(st)
  {
    hide Core, HandleFrom, Dispatch, FileText, EntryOk;
    HandleFile(st, st.pending.value, 0);
    if k :| 0 <= k < |st.table| && st.table[k].isRunning == 1 && st.table[k].pid == st.pending.value {
      HandleFinds(st, st.pending.value, 0, k);
      ReapedFacts(st, k);
    } else {
      StaleHandled(st);
    }
  }

  // ---------------------------------------------------------- restart counts

  /** The revivals of an app recorded from position `k` on. */
  ghost function Revivals(log: seq<Action>, name: string, k: nat): set<int> {
    set j | k <= j < |log| && log[j] == Action(name, Revived)
  }

  /** `Restarts` counts the automatic restarts after the last explicit start or restart, at `k - 1`
      (none for `k` 0), plus one if that was a restart. */
  lemma {:induction false} RestartsMeans(log: seq<Action>, name: string, k: nat)
    requires k <= |log| && (k > 0 ==> log[k - 1].name == name && log[k - 1].kind != Revived)
    requires forall j | k <= j < |log| && log[j].name == name :: log[j].kind == Revived
    ensures Restarts(log, name) == |Revivals(log, name, k)| + if k > 0 && log[k - 1].kind == Restarted then 1 else 0
    decreases |log|
  {
    hide Revivals;
    if k == |log| {
      NoRevivals(log, name);
    } else {
      var n := |log| - 1;
      RestartsMeans(log[..n], name, k);
      LastRevival(log, name, k);
    }
  }

  lemma NoRevivals(log: seq<Action>, name: string)
    ensures Revivals(log, name, |log|) == {}
  {
  }

  lemma LastRevival(log: seq<Action>, name: string, k: nat)
    requires k < |log|
    ensures var n := |log| - 1;
      |Revivals(log, name, k)| == |Revivals(log[..n], name, k)| + if log[n] == Action(name, Revived) then 1 else 0
  {
    var n := |log| - 1;
    var before := Revivals(log[..n], name, k);
    assert Revivals(log, name, k) == before + if log[n] == Action(name, Revived) then {n} else {};
  }

  /** In every reachable state a running app's count is the revivals since its last explicit start
      or restart, plus one if that was a restart. */
  lemma CountsRestarts(st: State, i: nat, k: nat)
    requires Core(st) && i < |st.table| && st.table[i].isRunning == 1 && k <= |st.log|
    requires var name := st.table[i].name;
      && (k > 0 ==> st.log[k - 1].name == name && st.log[k - 1].kind != Revived)
      && forall j | k <= j < |st.log| && st.log[j].name == name :: st.log[j].kind == Revived
    ensures st.table[i].restartTimes
         == |Revivals(st.log, st.table[i].name, k)| + if k > 0 && st.log[k - 1].kind == Restarted then 1 else 0
  {
    assert CountOk(st.table[i], st.log);
    RestartsMeans(st.log, st.table[i].name, k);
  }

  /** So it is in every state reached from a file that left no harmful names. */
  lemma AlwaysCounts(text: string, now: int, es: seq<Event>, i: nat, k: nat)
    requires CString(text) && Loadable(text, LIST_SIZE) && NoLeftovers(text) && Admissible(Startup(text, now), es)
    requires var st := Run(Startup(text, now), es);
      && i < |st.table| && st.table[i].isRunning == 1 && k <= |st.log|
      && (k > 0 ==> st.log[k - 1].name == st.table[i].name && st.log[k - 1].kind != Revived)
      && forall j | k <= j < |st.log| && st.log[j].name == st.table[i].name :: st.log[j].kind == Revived
    ensures var st := Run(Startup(text, now), es);
      st.table[i].restartTimes
      == |Revivals(st.log, st.table[i].name, k)| + if k > 0 && st.log[k - 1].kind == Restarted then 1 else 0
  {
    hide Core, Clear, Run, Admissible, Startup, NoLeftovers, Loadable, CString, Revivals;
    ReachedClear(text, now, es);
    CountsRestarts(Run(Startup(text, now), es), i, k);
  }
}
