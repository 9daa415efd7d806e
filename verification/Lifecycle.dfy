/**
 What the start of the service and the death of a child do, down to every field.
 */
module Lifecycle {
  import opened CText
  import opened Json
  import opened Loading
  import opened ProcessList
  import opened Supervisor
  import opened SupervisorProofs

  // ------------------------------------------------------------------ deaths

  /** Entry `k` after its process was found dead: revived under the next pid with its count one higher, or
      stopped if it was started this very second. */
  function Bereft(st: State, k: nat): App
    requires k < |st.table|
  {
    var a := st.table[k];
    if a.startTime == st.now then App(a.name, a.cmd, a.dir, 0, 0, a.id, a.restartTimes, a.startTime)
    else App(a.name, a.cmd, a.dir, st.forks + 1, 1, a.id, a.restartTimes + 1, st.now)
  }

  /** Handling the death of a running app's process changes that entry and nothing else. */
  lemma HandleExact(st: State, k: nat)
    requires Core(st) && k < |st.table| && st.table[k].isRunning == 1 && st.pending == Some(st.table[k].pid)
    ensures var a := st.table[k]; var now := Step(st, Handle);
      if a.startTime == st.now then now == st.(table := st.table[k := Bereft(st, k)], pending := None)
      else now == st.(
        table := st.table[k := Bereft(st, k)], live := st.live[st.forks + 1 := a.name], forks := st.forks + 1,
        log := st.log + [Action(a.name, Revived)], pending := None)
  {
    HandleFinds(st, st.table[k].pid, 0, k);
    hide Core, HandleFrom, Dispatch;
  }

  /** The state when the death of entry `k` has been handled at second `t`, `others` pids having gone elsewhere. */
  function Recovered(st: State, k: nat, t: int, others: nat): State
    requires k < |st.table|
  {
    var a := st.table[k];
    var pid := st.forks + others + 1;
    if a.startTime == t then
      st.(
        table := st.table[k := App(a.name, a.cmd, a.dir, 0, 0, a.id, a.restartTimes, t)],
        live := st.live - {a.pid}, now := t, forks := st.forks + others)
    else
      st.(
        table := st.table[k := App(a.name, a.cmd, a.dir, pid, 1, a.id, a.restartTimes + 1, t)],
        live := (st.live - {a.pid})[pid := a.name], now := t, forks := pid,
        log := st.log + [Action(a.name, Revived)])
  }

  /** From the death of a running app's process to its revival, whatever else is forked meanwhile: the reaper takes
      the pid, and at second `t` puts a new child in its place, or stops the app if that is when it was started. */
  lemma CrashRun(st: State, k: nat, t: int, others: nat)
    requires Core(st) && st.pending.None? && k < |st.table| && st.table[k].isRunning == 1 && st.table[k].pid in st.live
    ensures var pid := st.table[k].pid;
      var es := [Exit(pid), Wait(pid), Clock(t), OtherForks(others), Handle];
      Admissible(st, es) && Run(st, es) == Recovered(st, k, t, others)
  {
    var pid := st.table[k].pid;
    FoundKept(st, k, t, others);
    FoundRun(st, pid, t, others);
    hide Core, Run, Admissible, Step, Recovered, Found;
    FoundHandled(st, k, t, others);
  }

  lemma FoundHandled(st: State, k: nat, t: int, others: nat)
    requires st.pending.None? && k < |st.table| && st.table[k].isRunning == 1 && st.table[k].pid in st.live
    requires Core(Found(st, st.table[k].pid, t, others))
    ensures Step(Found(st, st.table[k].pid, t, others), Handle) == Recovered(st, k, t, others)
  {
    hide Core, Step, Recovered;
    HandleExact(Found(st, st.table[k].pid, t, others), k);
    FoundRecovered(st, k, t, others);
  }

  lemma FoundRecovered(st: State, k: nat, t: int, others: nat)
    requires st.pending.None? && k < |st.table| && st.table[k].pid in st.live
    ensures var found := Found(st, st.table[k].pid, t, others); var a := st.table[k];
      Recovered(st, k, t, others) ==
        if a.startTime == t then found.(table := st.table[k := Bereft(found, k)], pending := None)
        else found.(
          table := st.table[k := Bereft(found, k)], live := found.live[found.forks + 1 := a.name],
          forks := found.forks + 1, log := st.log + [Action(a.name, Revived)], pending := None)
  {
  }

  /** The state in which the reaper, at second `t`, holds a child's pid. */
  function Found(st: State, pid: Pid, t: int, others: nat): State {
    st.(live := st.live - {pid}, pending := Some(pid), now := t, forks := st.forks + others)
  }

  lemma FoundKept(st: State, k: nat, t: int, others: nat)
    requires Core(st) && st.pending.None? && k < |st.table| && st.table[k].pid in st.live
    ensures Core(Found(st, st.table[k].pid, t, others))
  {
    var pid := st.table[k].pid;
    var es := [Exit(pid), Wait(pid), Clock(t), OtherForks(others)];
    NotZombie(st, pid);
    FoundSteps(st, pid, t, others);
    hide Core, Step;
    KernelKeeps(st, es[0]);
    KernelKeeps(Step(st, es[0]), es[1]);
    KernelKeeps(Step(Step(st, es[0]), es[1]), es[2]);
    KernelKeeps(Step(Step(Step(st, es[0]), es[1]), es[2]), es[3]);
  }

  lemma NotZombie(st: State, pid: Pid)
    requires Core(st) && pid in st.live
    ensures pid !in st.zombies && st.zombies + {pid} - {pid} == st.zombies
  {
  }

  lemma FoundSteps(st: State, pid: Pid, t: int, others: nat)
    requires st.pending.None? && pid in st.live && pid !in st.zombies
    ensures var s1 := Step(st, Exit(pid)); var s2 := Step(s1, Wait(pid)); var s3 := Step(s2, Clock(t));
      && Enabled(st, Exit(pid)) && Enabled(s1, Wait(pid)) && Enabled(s2, Clock(t)) && Enabled(s3, OtherForks(others))
      && Step(s3, OtherForks(others)) == Found(st, pid, t, others)
  {
    hide HandleFrom, Dispatch, FileText, Defined, Fitting;
    assert st.zombies + {pid} - {pid} == st.zombies;
  }

  lemma FoundRun(st: State, pid: Pid, t: int, others: nat)
    requires Core(st) && st.pending.None? && pid in st.live
    ensures var es := [Exit(pid), Wait(pid), Clock(t), OtherForks(others), Handle];
      && Admissible(st, es)
      && Run(st, es) == Step(Found(st, pid, t, others), Handle)
  {
    NotZombie(st, pid);
    FoundSteps(st, pid, t, others);
    var s1 := Step(st, Exit(pid));
    var s2 := Step(s1, Wait(pid));
    var s3 := Step(s2, Clock(t));
    var s4 := Found(st, pid, t, others);
    hide Core, Run, Admissible, Step, Enabled, Found;
    EventThen(st, Exit(pid), [Wait(pid), Clock(t), OtherForks(others), Handle]);
    EventThen(s1, Wait(pid), [Clock(t), OtherForks(others), Handle]);
    EventThen(s2, Clock(t), [OtherForks(others), Handle]);
    EventThen(s3, OtherForks(others), [Handle]);
    EventThen(s4, Handle, []);
    NoMore(Step(s4, Handle));
    assert Enabled(s4, Handle) by { hide *; HandleEnabled(st, pid, t, others); }
  }

  lemma EventThen(st: State, e: Event, es: seq<Event>)
    ensures Run(st, [e] + es) == Run(Step(st, e), es)
    ensures Admissible(st, [e] + es) <==> Enabled(st, e) && Admissible(Step(st, e), es)
  {
    hide Step, Enabled;
    assert ([e] + es)[1..] == es;
  }

  lemma NoMore(st: State)
    ensures Run(st, []) == st && Admissible(st, [])
  {
  }

  lemma HandleEnabled(st: State, pid: Pid, t: int, others: nat)
    ensures Enabled(Found(st, pid, t, others), Handle)
  {
  }

  // ----------------------------------------------------------------- startup

  /** How many of the entries from `i` to before `j` are marked as running. */
  function MarkedIn(t: seq<App>, i: nat, j: nat): nat
    requires i <= j <= |t|
    decreases j - i
  {
    if i == j then 0 else (if t[i].isRunning == 0 then 0 else 1) + MarkedIn(t, i + 1, j)
  }

  lemma {:induction false} MarkedSame(t: seq<App>, u: seq<App>, i: nat, j: nat)
    requires i <= j <= |t| == |u| && forall k | i <= k < j :: t[k] == u[k]
    ensures MarkedIn(t, i, j) == MarkedIn(u, i, j)
    decreases j - i
  {
    if i < j { MarkedSame(t, u, i + 1, j); }
  }

  /** Entry `j` once everything from entry `i` on has been numbered and, where marked, started. */
  function LoadedEntry(st: State, i: nat, j: nat): App
    requires i <= j < |st.table|
  {
    var a := st.table[j];
    if a.isRunning == 0 then a.(id := j)
    else App(a.name, a.cmd, a.dir, st.forks + MarkedIn(st.table, i, j) + 1, 1, j, 0, st.now)
  }

  ghost predicate LoadedStarted(st: State, now: State, i: nat) {
    && i <= |st.table| == |now.table|
    && (forall j | 0 <= j < |st.table| :: now.table[j] == if j < i then st.table[j] else LoadedEntry(st, i, j))
    && now.forks == st.forks + MarkedIn(st.table, i, |st.table|)
    && (forall p :: p in now.live <==> p in st.live || st.forks < p <= now.forks)
    && (forall p | p in st.live :: now.live[p] == st.live[p])
    && (forall j | i <= j < |st.table| && st.table[j].isRunning != 0 ::
          now.table[j].pid in now.live && now.live[now.table[j].pid] == st.table[j].name)
    && now == st.(table := now.table, live := now.live, forks := now.forks, log := now.log)
  }

  lemma {:induction false} StartLoadedFromIs(st: State, i: nat)
    requires i <= |st.table| && forall p | p in st.live :: p <= st.forks
    ensures LoadedStarted(st, StartLoadedFrom(st, i), i)
    decreases |st.table| - i
  {
    hide LoadedStarted;
    if i == |st.table| {
      assert LoadedStarted(st, st, i) by { hide *; NoneLoaded(st); }
    } else {
      var next := StartLoadedAt(st, i);
      assert forall p | p in next.live :: p <= next.forks;
      hide StartLoadedAt;
      StartLoadedFromIs(next, i + 1);
      hide StartLoadedFrom;
      OneLoaded(st, StartLoadedFrom(next, i + 1), i);
    }
  }

  lemma NoneLoaded(st: State)
    ensures LoadedStarted(st, st, |st.table|)
  {
  }

  lemma OneLoaded(st: State, now: State, i: nat)
    requires i < |st.table| && LoadedStarted(StartLoadedAt(st, i), now, i + 1)
    requires forall p | p in st.live :: p <= st.forks
    ensures LoadedStarted(st, now, i)
  {
    OneLoadedTable(st, now, i);
    var next := StartLoadedAt(st, i);
    hide MarkedIn, LoadedEntry;
    MarkedStep(st.table, next.table, i);
    assert now.table[i] == next.table[i];
  }

  lemma OneLoadedTable(st: State, now: State, i: nat)
    requires i < |st.table| && LoadedStarted(StartLoadedAt(st, i), now, i + 1)
    ensures forall j | 0 <= j < |st.table| :: now.table[j] == if j < i then st.table[j] else LoadedEntry(st, i, j)
  {
    var next := StartLoadedAt(st, i);
    hide MarkedIn;
    MarkedStep(st.table, next.table, i);
    assert now.table[i] == next.table[i];
    assert forall j | i < j < |st.table| :: now.table[j] == LoadedEntry(next, i + 1, j);
  }

  lemma MarkedStep(t: seq<App>, u: seq<App>, i: nat)
    requires i < |t| == |u| && forall k | i < k < |t| :: t[k] == u[k]
    ensures forall j | i < j <= |t| :: MarkedIn(t, i, j) == MarkedIn(u, i + 1, j) + if t[i].isRunning == 0 then 0 else 1
    ensures MarkedIn(t, i, i) == 0
  {
    forall j | i < j <= |t|
      ensures MarkedIn(t, i, j) == MarkedIn(u, i + 1, j) + if t[i].isRunning == 0 then 0 else 1
    {
      MarkedSame(t, u, i + 1, j);
    }
  }

  /** The service starts exactly the apps that are marked as running, in order, under the first pids; each
      keeps its name, command and directory, and its id is its place. */
  lemma StartupExact(text: string, now: int)
    ensures var t := LoadedTable(text); var st := Startup(text, now);
      && |st.table| == |t|
      && (forall i | 0 <= i < |t| ::
            var a := t[i];
            st.table[i] ==
              if a.isRunning == 0 then a.(id := i)
              else App(a.name, a.cmd, a.dir, MarkedIn(t, 0, i) + 1, 1, i, 0, now))
      && st.forks == MarkedIn(t, 0, |t|)
      && (forall p :: p in st.live <==> 0 < p <= st.forks)
      && (forall i | 0 <= i < |t| && t[i].isRunning != 0 :: st.table[i].pid in st.live && st.live[st.table[i].pid] == t[i].name)
      && st == State(st.table, LoadedSlots(text)[|t|..], st.live, {}, st.forks, None, now, text, st.log)
  {
    hide LoadedSlots, LoadedCount, StartLoadedFrom, MarkedIn;
    StartLoadedFromIs(Load(text, now), 0);
  }

  /** The items of an array, or the values in an object; other values have none. */
  predicate HasItems(v: Value, items: seq<Value>) {
    if v.Array? then v.items == items
    else if v.Object? then |v.members| == |items| && forall i | 0 <= i < |items| :: v.members[i].value == items[i]
    else items == []
  }

  /** What is loaded of a text with at most 256 items: the slots hold what the items say, up to the first
      that lacks a key, and are blank after it; there are as many apps as items if none does, else none. */
  lemma LoadedExact(text: string, items: seq<Value>)
    requires text != "" && ParseText(text, false).Ok? && HasItems(ParseText(text, false).value, items) && |items| <= 256
    ensures var k := FirstBroken(items, 0);
      && |LoadedSlots(text)| == 256
      && (forall j | 0 <= j < 256 :: LoadedSlots(text)[j] ==
            var blank := App("", "", "", 0, 0, 0, 0, 0);
            if j < |items| && j <= k then Filled(blank, items[j]) else blank)
      && |LoadedTable(text)| == (if k == |items| then |items| else 0)
      && (k < |items| ==> !Complete(items[k])) && forall j | 0 <= j < k :: Complete(items[j])
  {
    hide ParseText, FilledAll, Filled, FirstBroken, Complete;
    assert Children(ParseText(text, false).value) == items;
    BrokenFirst(items, 0);
    FilledSlots(Blanks(), items, 0);
    assert Loaded(Blanks(), text) == FilledAll(Blanks(), items, 0);
  }

  /** Nothing is loaded of an empty file, or of one that does not parse. */
  lemma NothingLoaded(text: string)
    requires text == "" || !ParseText(text, false).Ok?
    ensures LoadedTable(text) == [] && LoadedSlots(text) == seq(256, _ => App("", "", "", 0, 0, 0, 0, 0))
  {
    hide ParseText, FilledAll;
  }
}
