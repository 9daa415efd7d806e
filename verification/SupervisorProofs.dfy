/**
 What every step of the supervisor keeps, and what follows for whole runs.
 */
module SupervisorProofs {
  import opened CText
  import opened Json
  import opened ProcessList
  import opened Supervisor

  // --------------------------------------------------------------- invariant

  ghost predicate EntryOk(a: App, i: int) {
    && a.name != "" && Savable(a) && a.id == i
    && (if a.isRunning == 1 then a.pid > 0 else a.isRunning == 0 && a.pid == 0)
  }

  /** Names are distinct, entry `i` has id `i`, running entries have distinct positive pids, stopped ones pid 0. */
  ghost predicate TableOk(t: seq<App>) {
    && |t| < LIST_SIZE
    && (forall i | 0 <= i < |t| :: EntryOk(t[i], i))
    && (forall i, j | 0 <= i < j < |t| :: t[i].name != t[j].name)
    && forall i, j | 0 <= i < j < |t| && t[i].pid != 0 :: t[i].pid != t[j].pid
  }

  /** A child is alive, dead and unreaped, or taken by the reaper; all were forked. */
  ghost predicate KernelOk(st: State) {
    && (forall p | p in st.live :: 0 < p <= st.forks && p !in st.zombies && st.pending != Some(p))
    && (forall p | p in st.zombies :: 0 < p <= st.forks && st.pending != Some(p))
    && (st.pending.Some? ==> st.pending.value == -1 || 0 < st.pending.value <= st.forks)
  }

  ghost predicate Runs(t: seq<App>, i: int, p: Pid, name: string) {
    0 <= i < |t| && t[i].isRunning == 1 && t[i].pid == p && t[i].name == name
  }

  /** Every live child is the pid of a running entry of the app it was started for. */
  ghost predicate Tracked(st: State) {
    forall p | p in st.live :: exists i :: Runs(st.table, i, p, st.live[p])
  }

  /** The process of a running entry is alive, or its death is still to be handled. */
  ghost predicate Awaited(st: State, i: int)
    requires 0 <= i < |st.table|
  {
    var a := st.table[i];
    a.isRunning == 1 ==> a.pid in st.live || a.pid in st.zombies || st.pending == Some(a.pid)
  }

  /** The automatic restarts of an app since its last explicit start or restart,
      plus one if that was a restart. */
  ghost function Restarts(log: seq<Action>, name: string): int
    decreases |log|
  {
    if log == [] then 0
    else
      var last := log[|log| - 1];
      var before := log[..|log| - 1];
      if last.name != name then Restarts(before, name)
      else if last.kind == Started then 0
      else if last.kind == Restarted then 1
      else Restarts(before, name) + 1
  }

  ghost predicate CountOk(a: App, log: seq<Action>) {
    a.isRunning == 1 ==> a.restartTimes == Restarts(log, a.name)
  }

  ghost predicate Core(st: State) {
    && TableOk(st.table)
    && KernelOk(st)
    && Tracked(st)
    && (forall i | 0 <= i < |st.table| :: Awaited(st, i))
    && forall i | 0 <= i < |st.table| :: CountOk(st.table[i], st.log)
  }

  /** The same apps in the same order, and with `marks` the same ones marked as running. */
  ghost predicate SameApps(t: seq<App>, u: seq<App>, marks: bool) {
    && |t| == |u|
    && forall i | 0 <= i < |t| ::
         && t[i].name == u[i].name && t[i].cmd == u[i].cmd && t[i].dir == u[i].dir
         && (marks ==> t[i].isRunning == u[i].isRunning)
  }

  /** The first `n` slots have names and the others none. */
  ghost predicate Tidy(slots: seq<App>, n: nat) {
    && n <= |slots|
    && (forall i | 0 <= i < n :: slots[i].name != "")
    && forall i | n <= i < |slots| :: slots[i].name == ""
  }

  /** The count is where a scan of the slots stops, and nothing is left behind it. */
  ghost predicate TidySlots(st: State) {
    |Slots(st)| == LIST_SIZE && Tidy(Slots(st), |st.table|)
  }

  /** From the third slot on, the slots behind the count have no names. */
  ghost predicate Clear(st: State) {
    |Slots(st)| == LIST_SIZE && forall i | 2 <= i < LIST_SIZE && |st.table| <= i :: Slots(st)[i].name == ""
  }

  ghost predicate Inv(st: State) {
    Core(st) && TidySlots(st) && SameApps(LoadedTable(st.file), st.table, false)
  }

  // ------------------------------------------------- single changes keep Core

  lemma RestartsAfter(log: seq<Action>, x: Action, name: string)
    ensures Restarts(log + [x], name) ==
      if x.name != name then Restarts(log, name)
      else if x.kind == Started then 0 else if x.kind == Restarted then 1 else Restarts(log, name) + 1
  {
    assert (log + [x])[..|log|] == log;
  }

  /** A start is right when no child of the entry is alive and the count is the one due. */
  lemma StartKeeps(st: State, i: nat, kind: Kind, times: int)
    requires Core(st) && i < |st.table| && st.table[i].pid !in st.live
    requires times == Restarts(st.log + [Action(st.table[i].name, kind)], st.table[i].name)
    ensures Core(StartAt(st, i, kind, times))
  {
    var now := StartAt(st, i, kind, times);
    StartTable(st, i, kind, times);
    StartCounts(st, i, kind, times);
    hide TableOk, CountOk, EntryOk, Restarts;
    var was := st.table[i];
    forall p | p in now.live
      ensures exists j :: Runs(now.table, j, p, now.live[p])
    {
      if p == now.forks {
        assert Runs(now.table, i, p, was.name);
      } else {
        var j :| Runs(st.table, j, p, st.live[p]);
        assert Runs(now.table, j, p, now.live[p]);
      }
    }
    forall j | 0 <= j < |now.table|
      ensures Awaited(now, j)
    {
      assert Awaited(st, j);
    }
  }

  lemma StartTable(st: State, i: nat, kind: Kind, times: int)
    requires Core(st) && i < |st.table|
    ensures TableOk(StartAt(st, i, kind, times).table)
  {
    hide Restarts, CString, Tracked;
    forall j | 0 <= j < |st.table|
      ensures st.table[j].pid <= st.forks && EntryOk(st.table[j], j)
    {
      assert Awaited(st, j) && EntryOk(st.table[j], j);
    }
  }

  lemma StartCounts(st: State, i: nat, kind: Kind, times: int)
    requires Core(st) && i < |st.table|
    requires times == Restarts(st.log + [Action(st.table[i].name, kind)], st.table[i].name)
    ensures var now := StartAt(st, i, kind, times);
      forall j | 0 <= j < |now.table| :: CountOk(now.table[j], now.log)
  {
    var now := StartAt(st, i, kind, times);
    forall j | 0 <= j < |now.table|
      ensures CountOk(now.table[j], now.log)
    {
      assert CountOk(st.table[j], st.log);
      RestartsAfter(st.log, Action(st.table[i].name, kind), st.table[j].name);
    }
  }

  /** `now` is `st` with entry `i` stopped, its child killed if it was alive. */
  ghost predicate Stopped(st: State, now: State, i: nat)
    requires i < |st.table|
  {
    var a := st.table[i];
    && (exists start, times :: now.table == st.table[i := a.(isRunning := 0, pid := 0, startTime := start, restartTimes := times)])
    && now == Kill(st, a.pid).(table := now.table)
  }

  lemma StoppedKeeps(st: State, now: State, i: nat)
    requires Core(st) && i < |st.table| && st.table[i].isRunning == 1 && Stopped(st, now, i)
    ensures Core(now)
  {
    hide Restarts, CString;
    var a := st.table[i];
    forall j | 0 <= j < |st.table|
      ensures EntryOk(now.table[j], j) && CountOk(now.table[j], now.log) && Awaited(now, j)
    {
      assert EntryOk(st.table[j], j) && CountOk(st.table[j], st.log) && Awaited(st, j);
    }
    forall p | p in now.live
      ensures exists j :: Runs(now.table, j, p, now.live[p])
    {
      var j :| Runs(st.table, j, p, st.live[p]);
      assert Runs(now.table, j, p, now.live[p]);
    }
  }

  lemma StopKeeps(st: State, i: nat)
    requires Core(st) && i < |st.table|
    ensures Core(StopAt(st, i)) && StopAt(st, i).table[i].isRunning == 0
  {
    hide TableOk, KernelOk, Tracked, Awaited, CountOk, EntryOk;
    assert EntryOk(st.table[i], i) by { hide *; EntryIn(st, i); }
    if st.table[i].isRunning != 0 {
      EntryIn(st, i);
      var now := StopAt(st, i);
      var a := st.table[i];
      assert now.table == st.table[i := a.(isRunning := 0, pid := 0, startTime := 0, restartTimes := 0)];
      StoppedKeeps(st, now, i);
    }
  }

  lemma EntryIn(st: State, i: nat)
    requires Core(st) && i < |st.table|
    ensures EntryOk(st.table[i], i) && Awaited(st, i) && st.table[i].isRunning in {0, 1}
  {
  }

  lemma QuickStopKeeps(st: State, i: nat)
    requires Core(st) && i < |st.table| && st.table[i].isRunning == 1 && st.table[i].pid !in st.live
    ensures Core(QuickStopAt(st, i))
  {
    hide Core;
    var a := st.table[i];
    var now := QuickStopAt(st, i);
    assert now.table == st.table[i := a.(isRunning := 0, pid := 0, startTime := a.startTime, restartTimes := a.restartTimes)];
    StoppedKeeps(st, now, i);
  }

  lemma RestartKeeps(st: State, i: nat)
    requires Core(st) && i < |st.table|
    ensures Core(RestartAt(st, i))
  {
    hide Core;
    StopKeeps(st, i);
    var stopped := StopAt(st, i);
    NotLive(stopped, i);
    RestartsAfter(stopped.log, Action(stopped.table[i].name, Restarted), stopped.table[i].name);
    StartKeeps(stopped, i, Restarted, 1);
  }

  /** A stopped entry has no live child. */
  lemma NotLive(st: State, i: nat)
    requires Core(st) && i < |st.table| && st.table[i].isRunning == 0
    ensures st.table[i].pid !in st.live
  {
    assert EntryOk(st.table[i], i);
    hide TableOk, Tracked, Awaited, CountOk;
  }

  /** Among tidy slots the name of an entry finds that entry, and closing the gap takes out just it. */
  lemma DeletedHere(st: State, i: nat)
    requires TableOk(st.table) && TidySlots(st) && i < |st.table|
    ensures var slots := Deleted(Slots(st), st.table[i].name); var n := |st.table| - 1;
      slots[..n] == Removed(st.table, i) && Tidy(slots, n)
  {
    var slots, n := Slots(st), |st.table|;
    assert forall j | 0 <= j < n :: slots[j] == st.table[j];
    ScanStops(slots, n);
    OnlyNamed(slots, i, n) by {
      hide EntryOk, Scan;
      assert forall j | 0 <= j < n && j != i :: st.table[j].name != st.table[i].name;
    }
    ShiftedTidy(slots, i, n);
    assert slots[..n] == st.table;
    hide TableOk, Scan, LastNamed, Shifted, Removed;
    assert Deleted(slots, st.table[i].name) == Shifted(slots, i, n);
  }

  lemma OnlyNamed(slots: seq<App>, i: nat, n: nat)
    requires i < n <= |slots| && forall j | 0 <= j < n && j != i :: slots[j].name != slots[i].name
    ensures LastNamed(slots, slots[i].name, n) == i
  {
    var k := LastNamed(slots, slots[i].name, n);
    hide LastNamed;
    assert k >= i;
  }

  lemma ShiftedTidy(slots: seq<App>, k: nat, n: nat)
    requires k < n < |slots| && Tidy(slots, n)
    ensures Shifted(slots, k, n)[..n - 1] == Removed(slots[..n], k) && Tidy(Shifted(slots, k, n), n - 1)
  {
    ShiftedSlots(slots, k, n);
    forall i | n <= i < |slots|
      ensures Shifted(slots, k, n)[i].name == ""
    {
      assert slots[i].name == "";
    }
    hide Shifted, Removed;
  }

  /** Removing an entry: the others close up, and the slots stay tidy. */
  lemma RemoveKeeps(st: State, i: nat)
    requires Core(st) && TidySlots(st) && i < |st.table|
    ensures Core(RemoveAt(st, i)) && TidySlots(RemoveAt(st, i))
    ensures RemoveAt(st, i).table == Removed(StopAt(st, i).table, i)
    ensures RemoveAt(st, i) == StopAt(st, i).(table := RemoveAt(st, i).table, rest := RemoveAt(st, i).rest)
  {
    var stopped := StopAt(st, i);
    var now := RemoveAt(st, i);
    StopKeeps(st, i);
    StopTidy(st, i);
    CoreTable(stopped);
    hide Core, TableOk, StopAt;
    DeletedHere(stopped, i);
    DropKeeps(stopped, now, i);
    hide Deleted, Tidy;
    assert Slots(now) == Deleted(Slots(stopped), stopped.table[i].name);
  }

  lemma CoreTable(st: State)
    requires Core(st)
    ensures TableOk(st.table)
  {
  }

  lemma StopTidy(st: State, i: nat)
    requires i < |st.table|
    ensures TidySlots(st) ==> TidySlots(StopAt(st, i))
    ensures Clear(st) ==> Clear(StopAt(st, i))
  {
    SameNamesTidy(st, StopAt(st, i));
  }

  /** Only names matter. */
  lemma SameNamesTidy(st: State, now: State)
    requires now.rest == st.rest && |now.table| == |st.table|
    requires forall i | 0 <= i < |st.table| :: now.table[i].name == st.table[i].name
    ensures TidySlots(st) ==> TidySlots(now)
    ensures Clear(st) ==> Clear(now)
  {
    forall i | 0 <= i < |Slots(st)|
      ensures Slots(now)[i].name == Slots(st)[i].name
    {
    }
  }

  /** A table of two or more leaves no difference between the two. */
  lemma ClearTidy(st: State)
    requires Core(st)
    ensures TidySlots(st) ==> Clear(st)
    ensures Clear(st) && |st.table| >= 2 ==> TidySlots(st)
  {
    forall i | 0 <= i < |st.table|
      ensures st.table[i].name != ""
    {
      EntryIn(st, i);
    }
    hide Core;
  }

  /** The removal of the only entry, whatever the first two slots hold. */
  lemma RemoveOnly(st: State)
    requires Core(st) && Clear(st) && |st.table| == 1
    ensures Core(RemoveAt(st, 0)) && Clear(RemoveAt(st, 0))
    ensures RemoveAt(st, 0).table == Removed(StopAt(st, 0).table, 0)
  {
    var stopped := StopAt(st, 0);
    var now := RemoveAt(st, 0);
    StopKeeps(st, 0);
    SameNamesTidy(st, stopped);
    var slots := Slots(stopped);
    assert Scan(slots, 0) <= 2 by { assert slots[2].name == ""; }
    hide Core, StopAt, Scan, LastNamed;
    assert Removed(stopped.table, 0) == [];
    DropKeeps(stopped, now, 0);
    assert Slots(now) == Deleted(slots, stopped.table[0].name);
    forall i | 2 <= i < LIST_SIZE
      ensures Slots(now)[i].name == ""
    {
      assert slots[i].name == "";
    }
  }

  lemma RemoveClear(st: State, i: nat)
    requires Core(st) && Clear(st) && i < |st.table|
    ensures Core(RemoveAt(st, i)) && Clear(RemoveAt(st, i))
    ensures TidySlots(st) ==> TidySlots(RemoveAt(st, i))
    ensures RemoveAt(st, i).table == Removed(StopAt(st, i).table, i)
  {
    ClearTidy(st);
    hide Core, TidySlots, Clear, RemoveAt, StopAt, Removed;
    if TidySlots(st) {
      RemoveKeeps(st, i);
      ClearTidy(RemoveAt(st, i));
    } else {
      RemoveOnly(st);
    }
  }

  lemma DropKeeps(st: State, now: State, i: nat)
    requires Core(st) && i < |st.table| && st.table[i].isRunning == 0
    requires now == st.(table := Removed(st.table, i), rest := now.rest)
    ensures Core(now)
  {
    DropTable(st.table, i);
    hide Restarts, TableOk, EntryOk;
    forall j | 0 <= j < |now.table|
      ensures CountOk(now.table[j], now.log) && Awaited(now, j)
    {
      var k := if j < i then j else j + 1;
      assert CountOk(st.table[k], st.log) && Awaited(st, k);
    }
    forall p | p in now.live
      ensures exists j :: Runs(now.table, j, p, now.live[p])
    {
      var j :| Runs(st.table, j, p, st.live[p]);
      assert Runs(now.table, if j < i then j else j - 1, p, now.live[p]);
    }
  }

  lemma DropTable(t: seq<App>, i: nat)
    requires TableOk(t) && i < |t|
    ensures TableOk(Removed(t, i))
  {
    hide EntryOk;
    forall j | 0 <= j < |t| - 1
      ensures EntryOk(Removed(t, i)[j], j)
      ensures var k := if j < i then j else j + 1; Removed(t, i)[j].name == t[k].name && Removed(t, i)[j].pid == t[k].pid
    {
      if j >= i { EntryMoved(t[j + 1], j); } else { assert EntryOk(t[j], j); }
    }
  }

  lemma EntryMoved(a: App, i: nat)
    requires EntryOk(a, i + 1)
    ensures EntryOk(Renumbered(a), i)
  {
    hide CString;
  }

  lemma StartWithCmdKeeps(st: State, process: App)
    requires Core(st) && |st.table| + 1 < LIST_SIZE && process.name != "" && Savable(process)
    requires FirstNamed(st.table, process.name, 0) == |st.table|
    ensures Core(StartWithCmd(st, process))
  {
    var n := |st.table|;
    var entry := process.(id := n, isRunning := 0, pid := 0);
    var more := st.(table := st.table + [entry], rest := StartWithCmd(st, process).rest);
    AppendKeeps(st, more, entry);
    hide Core, Restarts;
    NotLive(more, n);
    RestartsAfter(more.log, Action(process.name, Started), process.name);
    StartKeeps(more, n, Started, 0);
    assert StartWithCmd(st, process).table == StartAt(more, n, Started, 0).table;
  }

  lemma StartWithCmdTidy(st: State, process: App)
    requires |Slots(st)| == LIST_SIZE && |st.table| < LIST_SIZE && process.name != ""
    ensures TidySlots(st) ==> TidySlots(StartWithCmd(st, process))
    ensures Clear(st) ==> Clear(StartWithCmd(st, process))
  {
    var now, n := StartWithCmd(st, process), |st.table|;
    assert now.table == st.table + [now.table[n]] && now.table[n].name == process.name;
    forall i | 0 <= i < LIST_SIZE && i != n
      ensures Slots(now)[i] == Slots(st)[i]
    {
      if i > n { assert now.rest[i - n - 1] == st.rest[i - n]; }
    }
    assert Slots(now)[n] == now.table[n];
  }

  lemma AppendKeeps(st: State, now: State, entry: App)
    requires Core(st) && |st.table| + 1 < LIST_SIZE && EntryOk(entry, |st.table|) && entry.isRunning == 0
    requires FirstNamed(st.table, entry.name, 0) == |st.table|
    requires now == st.(table := st.table + [entry], rest := now.rest)
    ensures Core(now)
  {
    hide Restarts, CString;
    forall j | 0 <= j < |now.table|
      ensures EntryOk(now.table[j], j) && CountOk(now.table[j], now.log) && Awaited(now, j)
    {
      if j < |st.table| { assert EntryOk(st.table[j], j) && CountOk(st.table[j], st.log) && Awaited(st, j); }
    }
    forall p | p in now.live
      ensures exists j :: Runs(now.table, j, p, now.live[p])
    {
      var j :| Runs(st.table, j, p, st.live[p]);
      assert Runs(now.table, j, p, now.live[p]);
    }
  }

  // --------------------------------------------------------- the reaper's loop

  lemma {:induction false} HandleNone(st: State, pid: Pid, i: nat)
    requires i <= |st.table| && forall j | i <= j < |st.table| :: st.table[j].pid != pid
    ensures HandleFrom(st, pid, i) == st
    decreases |st.table| - i
  {
    if i < |st.table| { HandleNone(st, pid, i + 1); }
  }

  /** What the loop does for a pid of the table: one entry is revived, or stopped for good
      if it was started this very second; the loop going on finds no other. */
  lemma {:induction false} HandleFinds(st: State, pid: Pid, i: nat, k: nat)
    requires Core(st) && i <= k < |st.table| && st.table[k].isRunning == 1 && st.table[k].pid == pid
    ensures HandleFrom(st, pid, i) ==
      if st.table[k].startTime == st.now then QuickStopAt(st, k)
      else StartAt(st, k, Revived, st.table[k].restartTimes + 1)
    decreases k - i
  {
    assert pid != 0 && pid <= st.forks && forall j | 0 <= j < |st.table| && j != k :: st.table[j].pid != pid by {
      EntryIn(st, k);
      hide CountOk, Tracked, EntryOk;
    }
    hide Core;
    if i < k {
      HandleFinds(st, pid, i + 1, k);
    } else {
      var now := StartAt(st, k, Revived, st.table[k].restartTimes + 1);
      HandleNone(now, pid, k + 1);
    }
  }

  /** Handling a reaped pid keeps the invariant. */
  lemma HandleKeeps(st: State)
    requires Core(st) && st.pending.Some?
    ensures Core(Step(st, Handle)) && SameApps(st.table, Step(st, Handle).table, false)
  {
    hide Core, HandleFrom, Dispatch, FileText;
    var pid := st.pending.value;
    if k :| 0 <= k < |st.table| && st.table[k].isRunning == 1 && st.table[k].pid == pid {
      HandleFinds(st, pid, 0, k);
      FoundKeeps(st, k);
    } else {
      NoneRunning(st, pid);
      HandleNone(st, pid, 0);
      HandledKeeps(st);
    }
  }

  lemma FoundKeeps(st: State, k: nat)
    requires Core(st) && k < |st.table| && st.table[k].isRunning == 1 && st.pending == Some(st.table[k].pid)
    ensures var now :=
        if st.table[k].startTime == st.now then QuickStopAt(st, k)
        else StartAt(st, k, Revived, st.table[k].restartTimes + 1);
      Core(now.(pending := None))
  {
    var a := st.table[k];
    ReapedFacts(st, k);
    hide Core, Restarts, EntryOk;
    if a.startTime == st.now {
      QuickStopKeeps(st, k);
      HandledKeeps(QuickStopAt(st, k));
    } else {
      RestartsAfter(st.log, Action(a.name, Revived), a.name);
      StartKeeps(st, k, Revived, a.restartTimes + 1);
      HandledKeeps(StartAt(st, k, Revived, a.restartTimes + 1));
    }
  }

  /** The pid the reaper holds is not alive, is an old one, and is one entry's only. */
  lemma ReapedFacts(st: State, k: nat)
    requires Core(st) && k < |st.table| && st.table[k].isRunning == 1 && st.pending == Some(st.table[k].pid)
    ensures var pid := st.table[k].pid;
      && pid !in st.live && 0 < pid <= st.forks
      && st.table[k].restartTimes == Restarts(st.log, st.table[k].name)
      && forall j | 0 <= j < |st.table| && j != k :: st.table[j].pid != pid
  {
    hide Restarts, CString, Tracked;
    EntryIn(st, k);
    assert CountOk(st.table[k], st.log);
  }

  /** No entry has the pid, if no running one has. */
  lemma NoneRunning(st: State, pid: Pid)
    requires Core(st) && st.pending == Some(pid)
    requires forall j | 0 <= j < |st.table| && st.table[j].isRunning == 1 :: st.table[j].pid != pid
    ensures forall j | 0 <= j < |st.table| :: st.table[j].pid != pid
  {
    forall j | 0 <= j < |st.table|
      ensures st.table[j].pid != pid
    {
      EntryIn(st, j);
    }
  }

  /** The pid is done with. */
  lemma HandledKeeps(st: State)
    requires Core(st) && st.pending.Some?
    requires forall j | 0 <= j < |st.table| && st.table[j].isRunning == 1 :: st.table[j].pid != st.pending.value
    ensures Core(st.(pending := None))
  {
    hide TableOk, CountOk, EntryOk;
    var now := st.(pending := None);
    forall j | 0 <= j < |now.table|
      ensures Awaited(now, j)
    {
      assert Awaited(st, j);
    }
    forall p | p in now.live
      ensures exists j :: Runs(now.table, j, p, now.live[p])
    {
      var j :| Runs(st.table, j, p, st.live[p]);
      assert Runs(now.table, j, p, now.live[p]);
    }
  }

  // ------------------------------------------------------ the kernel's events

  lemma KernelKeeps(st: State, e: Event)
    requires Core(st) && Enabled(st, e) && (e.Exit? || e.Wait? || e.Clock? || e.OtherForks?)
    ensures Core(Step(st, e)) && Step(st, e).table == st.table && Step(st, e).file == st.file
  {
    hide TableOk, CountOk, EntryOk;
    var now := Step(st, e);
    forall j | 0 <= j < |now.table|
      ensures Awaited(now, j)
    {
      assert Awaited(st, j);
    }
    forall p | p in now.live
      ensures exists j :: Runs(now.table, j, p, now.live[p])
    {
      var j :| Runs(st.table, j, p, st.live[p]);
      assert Runs(now.table, j, p, now.live[p]);
    }
  }

  // ---------------------------------------------------------------- requests

  lemma {:induction false} StartAllKeeps(st: State, i: nat)
    requires Core(st) && i <= |st.table|
    ensures Core(StartAllFrom(st, i)) && SameApps(st.table, StartAllFrom(st, i).table, false)
    decreases |st.table| - i
  {
    hide Core;
    if i < |st.table| {
      EntryIn(st, i);
      if st.table[i].isRunning == 0 {
        NotLive(st, i);
        RestartsAfter(st.log, Action(st.table[i].name, Started), st.table[i].name);
        StartKeeps(st, i, Started, 0);
        StartAllKeeps(StartAt(st, i, Started, 0), i + 1);
      } else {
        StartAllKeeps(st, i + 1);
      }
    }
  }

  lemma {:induction false} StopAllKeeps(st: State, i: nat)
    requires Core(st) && i <= |st.table|
    ensures Core(StopAllFrom(st, i)) && SameApps(st.table, StopAllFrom(st, i).table, false)
    ensures forall j | i <= j < |st.table| :: StopAllFrom(st, i).table[j].isRunning == 0
    decreases |st.table| - i
  {
    hide Core;
    if i < |st.table| {
      StopKeeps(st, i);
      StopAllKeeps(StopAt(st, i), i + 1);
      StopAllLater(StopAt(st, i), i + 1, i);
    }
  }

  lemma {:induction false} StopAllLater(st: State, i: nat, k: nat)
    requires k < i <= |st.table|
    ensures |StopAllFrom(st, i).table| == |st.table| && StopAllFrom(st, i).table[k] == st.table[k]
    decreases |st.table| - i
  {
    if i < |st.table| { StopAllLater(StopAt(st, i), i + 1, k); }
  }

  /** Whatever entry an argument resolves to, its name leads to that same entry. */
  lemma ResolvedHere(table: seq<App>, buffer: string)
    requires TableOk(table)
    ensures var target := Resolve(table, buffer);
      target.Entry? ==>
        var pos := FirstNamed(table, target.app.name, 0); pos < |table| && table[pos] == target.app
  {
    hide EntryOk, GetProcessId, ParsedProcess;
    var id := GetProcessId(buffer, |table|);
    if id != -1 { FirstIsOnly(table, id); } else {
      var k := FirstNamed(table, buffer, 0);
      if k < |table| { FirstIsOnly(table, k); }
    }
  }

  /** Names being distinct, the search for an entry's name stops at the entry. */
  lemma FirstIsOnly(table: seq<App>, i: nat)
    requires TableOk(table) && i < |table|
    ensures FirstNamed(table, table[i].name, 0) == i
  {
    hide EntryOk;
    var k := FirstNamed(table, table[i].name, 0);
    assert k <= i;
  }

  lemma StartRequestKeeps(st: State, argument: string)
    requires Core(st) && Clear(st) && Defined(st, "start", argument) && Fitting(st.table, "start", argument)
    ensures Core(Start(st, argument)) && Clear(Start(st, argument))
    ensures TidySlots(st) ==> TidySlots(Start(st, argument))
  {
    assert |Slots(st)| == LIST_SIZE;
    hide Core, TidySlots, Clear, Resolve, FirstNamed, StartAt, StartWithCmd, Parsable, Savable;
    CoreTable(st);
    ResolvedHere(st.table, argument);
    var target := Resolve(st.table, argument);
    if target.Entry? {
      if target.app.isRunning == 0 { StartEntryKeeps(st, FirstNamed(st.table, target.app.name, 0)); }
    } else if target.Cmd? && FirstNamed(st.table, target.process.name, 0) == |st.table| {
      CmdSavable(st.table, argument);
      StartWithCmdKeeps(st, target.process);
      StartWithCmdTidy(st, target.process);
    }
  }

  lemma StartEntryKeeps(st: State, i: nat)
    requires Core(st) && Clear(st) && i < |st.table| && st.table[i].isRunning == 0
    ensures Core(StartAt(st, i, Started, 0)) && Clear(StartAt(st, i, Started, 0))
    ensures TidySlots(st) ==> TidySlots(StartAt(st, i, Started, 0))
  {
    hide Core, TidySlots, Clear, Restarts;
    NotLive(st, i);
    RestartsAfter(st.log, Action(st.table[i].name, Started), st.table[i].name);
    StartKeeps(st, i, Started, 0);
    SameNamesTidy(st, StartAt(st, i, Started, 0));
  }

  lemma CmdSavable(table: seq<App>, argument: string)
    requires CString(argument) && Resolve(table, argument).Cmd?
    ensures Savable(Resolve(table, argument).process)
  {
    hide ParsedProcess, Savable, CString, GetProcessId, FirstNamed;
    ParsedSavable(argument);
  }

  lemma ParsedSavable(text: string)
    requires CString(text) && ParsedProcess(text).Cmd?
    ensures Savable(ParsedProcess(text).process)
  {
    hide ParseText, Filled, Complete, CString, CStrings, Savable;
    ParsedText(text);
    BlankSavable();
    FilledSavable(BLANK, ParseText(text, false).value);
  }

  lemma BlankSavable()
    ensures Savable(BLANK)
  {
  }

  lemma FilledSavable(a: App, v: Value)
    requires Savable(a) && CStrings(v)
    ensures Savable(Filled(a, v))
  {
    hide CString, CStrings, GetObjectItem, Copied, Savable;
    var name, cmd := GetObjectItem(v, "app_name"), GetObjectItem(v, "cmd");
    var dir, running := GetObjectItem(v, "dir"), GetObjectItem(v, "is_running");
    ItemCStrings(v, "app_name");
    ItemCStrings(v, "cmd");
    ItemCStrings(v, "dir");
    CopiedSavable(a, name, cmd, dir, running);
  }

  lemma CopiedSavable(a: App, name: Option<Value>, cmd: Option<Value>, dir: Option<Value>, running: Option<Value>)
    requires Savable(a)
    requires (name.Some? ==> CStrings(name.value)) && (cmd.Some? ==> CStrings(cmd.value))
    requires dir.Some? ==> CStrings(dir.value)
    ensures Savable(Copied(a, name, cmd, dir, running))
  {
    hide CString, CStrings, ValueString, ToInt;
    if name.Some? { TextCString(name.value); }
    if cmd.Some? { TextCString(cmd.value); }
    if dir.Some? { TextCString(dir.value); }
    if running.Some? { ValueIntRange(running.value); }
  }

  lemma TextCString(v: Value)
    requires CStrings(v)
    ensures CString(ValueString(v))
  {
  }

  lemma ValueIntRange(v: Value)
    ensures INT_MIN <= ValueInt(v) <= INT_MAX
  {
    hide Pow10;
  }

  lemma ItemCStrings(v: Value, key: string)
    requires CStrings(v)
    ensures var item := GetObjectItem(v, key); item.Some? ==> CStrings(item.value)
  {
    hide CString, Lower;
  }

  lemma RemoveRequestKeeps(st: State, argument: string)
    requires Core(st) && Clear(st)
    ensures Core(Remove(st, argument)) && Clear(Remove(st, argument))
    ensures TidySlots(st) ==> TidySlots(Remove(st, argument))
  {
    CoreTable(st);
    ResolvedHere(st.table, argument);
    hide Core, RemoveAt, Resolve, TidySlots, Clear;
    var target := Resolve(st.table, argument);
    if target.Entry? { RemoveClear(st, FirstNamed(st.table, target.app.name, 0)); }
  }

  lemma StopRequestKeeps(st: State, argument: string)
    requires Core(st) && Clear(st)
    ensures Core(Stop(st, argument)) && Clear(Stop(st, argument))
    ensures Core(Restart(st, argument)) && Clear(Restart(st, argument))
    ensures TidySlots(st) ==> TidySlots(Stop(st, argument)) && TidySlots(Restart(st, argument))
  {
    CoreTable(st);
    ResolvedHere(st.table, argument);
    hide Core, StopAt, Resolve, TidySlots, Clear;
    var target := Resolve(st.table, argument);
    if target.Entry? {
      var pos := FirstNamed(st.table, target.app.name, 0);
      StopKeeps(st, pos);
      StopTidy(st, pos);
      RestartKeeps(st, pos);
      SameNamesTidy(StopAt(st, pos), RestartAt(st, pos));
    }
  }

  lemma DispatchKeeps(st: State, command: string, argument: string)
    requires Core(st) && Clear(st) && Defined(st, command, argument) && Fitting(st.table, command, argument)
    ensures Core(Dispatch(st, command, argument)) && Clear(Dispatch(st, command, argument))
    ensures TidySlots(st) ==> TidySlots(Dispatch(st, command, argument))
  {
    hide Core, TidySlots, Clear, Defined, Fitting, StartAllFrom, StopAllFrom, Start, Stop, Restart, Remove;
    if command == "startall" {
      StartAllKeeps(st, 0);
      SameNamesTidy(st, StartAllFrom(st, 0));
    } else if command == "stopall" {
      StopAllKeeps(st, 0);
      SameNamesTidy(st, StopAllFrom(st, 0));
    } else if command == "start" {
      StartRequestKeeps(st, argument);
    } else if command == "stop" || command == "restart" {
      StopRequestKeeps(st, argument);
    } else if command == "remove" {
      RemoveRequestKeeps(st, argument);
    }
  }

  // ------------------------------------------------------------- persistence

  /** The saved text is read back as the same apps, in order, with the same ones marked as running,
      whatever stands after it in the reader's buffer. */
  lemma SavedReloads(st: State, junk: string)
    requires Core(st) && TidySlots(st)
    ensures Save(st).file == FileText(st.table)
    ensures LoadedTable(Save(st).file + junk) == Fresh(st.table)
    ensures Loadable(Save(st).file + junk, LIST_SIZE)
  {
    AllSavable(st);
    TidyContents(st);
    hide Contents, FileText, CString, Loadable, Loaded, Core, RestoredAll, Fresh, Savable, TidySlots, Scan;
    TextReloads(st.table, junk);
  }

  lemma TidyContents(st: State)
    requires TidySlots(st)
    ensures Contents(Slots(st)) == st.table
  {
    ScanStops(Slots(st), |st.table|);
  }

  /** The text of a table is loaded as the table. */
  lemma TextReloads(table: seq<App>, junk: string)
    requires |table| <= LIST_SIZE && forall i | 0 <= i < |table| :: Savable(table[i])
    ensures LoadedTable(FileText(table) + junk) == Fresh(table)
    ensures LoadedSlots(FileText(table) + junk) == RestoredAll(table, Blanks())
    ensures Loadable(FileText(table) + junk, LIST_SIZE)
  {
    BlanksRestored(table);
    TableRoundTrip(table, Blanks(), junk);
    FileNotEmpty(table);
    hide Loaded, FileText, CString, Loadable, RestoredAll, Fresh, Savable;
  }

  lemma AllSavable(st: State)
    requires Core(st)
    ensures forall i | 0 <= i < |st.table| :: Savable(st.table[i])
  {
    forall i | 0 <= i < |st.table|
      ensures Savable(st.table[i])
    {
      EntryIn(st, i);
    }
  }

  /** A table as a new service reads it: the four saved fields and nothing else. */
  function Fresh(table: seq<App>): (r: seq<App>)
    ensures |r| == |table|
  {
    seq(|table|, i requires 0 <= i < |table| => Restored(table[i], BLANK))
  }

  lemma BlanksRestored(table: seq<App>)
    requires |table| <= LIST_SIZE
    ensures RestoredAll(table, Blanks())[..|table|] == Fresh(table)
  {
  }

  lemma FileNotEmpty(table: seq<App>)
    ensures FileText(table) != ""
  {
    TableText(table, "");
    assert FileText(table) + "" == FileText(table);
    hide FileText;
  }

  // -------------------------------------------------------------------- runs

  lemma RequestKeeps(st: State, command: string, argument: string)
    requires Inv(st) && Enabled(st, Request(command, argument))
    ensures Inv(Step(st, Request(command, argument)))
  {
    ClearTidy(st);
    hide Core, TidySlots, Clear, LoadedTable, Dispatch, Defined, Fitting;
    DispatchKeeps(st, command, argument);
    SaveKeeps(Dispatch(st, command, argument));
  }

  lemma HandlingKeeps(st: State)
    requires Inv(st) && st.pending.Some?
    ensures Inv(Step(st, Handle))
  {
    hide Core, TidySlots, LoadedTable, HandleFrom;
    HandleKeeps(st);
    HandleFile(st, st.pending.value, 0);
    SameNamesTidy(st, Step(st, Handle));
  }

  lemma StepKeeps(st: State, e: Event)
    requires Inv(st) && Enabled(st, e)
    ensures Inv(Step(st, e))
  {
    hide Core, TidySlots, LoadedTable, HandleFrom, Dispatch, Defined, Fitting;
    if e.Request? {
      RequestKeeps(st, e.command, e.argument);
    } else if e.Handle? {
      HandlingKeeps(st);
    } else {
      KernelKeeps(st, e);
      SameNamesTidy(st, Step(st, e));
    }
  }

  /** Without the file, and with names in the first two slots, whatever the count is. */
  lemma StepClear(st: State, e: Event)
    requires Core(st) && Clear(st) && Enabled(st, e)
    ensures Core(Step(st, e)) && Clear(Step(st, e))
  {
    hide Core, TidySlots, Clear, FileText, Contents, HandleFrom, Dispatch, Defined, Fitting;
    if e.Request? {
      var now := Dispatch(st, e.command, e.argument);
      DispatchKeeps(st, e.command, e.argument);
      FileKeeps(now, Save(now));
      SameNamesTidy(now, Save(now));
    } else if e.Handle? {
      HandleKeeps(st);
      SameNamesTidy(st, Step(st, e));
    } else {
      KernelKeeps(st, e);
      SameNamesTidy(st, Step(st, e));
    }
  }

  lemma {:induction false} RunClear(st: State, es: seq<Event>)
    requires Core(st) && Clear(st) && Admissible(st, es)
    ensures Core(Run(st, es)) && Clear(Run(st, es))
    decreases |es|
  {
    hide Core, Clear, Enabled, Step;
    if es != [] {
      StepClear(st, es[0]);
      RunClear(Step(st, es[0]), es[1..]);
    }
  }

  lemma SaveKeeps(st: State)
    requires Core(st) && TidySlots(st)
    ensures Inv(Save(st)) && Save(st) == st.(file := FileText(st.table))
  {
    hide FileText, Contents, Core, LoadedTable, Tidy;
    var now := Save(st);
    FileKeeps(st, now);
    SavedReloads(st, "");
    assert now.file + "" == now.file;
    assert Slots(now) == Slots(st);
  }

  /** The file is no part of Core. */
  lemma FileKeeps(st: State, now: State)
    requires Core(st) && now == st.(file := now.file)
    ensures Core(now)
  {
    hide FileText, TableOk, CountOk, EntryOk;
    forall i | 0 <= i < |now.table|
      ensures Awaited(now, i)
    {
      assert Awaited(st, i);
    }
    forall p | p in st.live
      ensures exists j :: Runs(st.table, j, p, st.live[p])
    {
      var j :| Runs(st.table, j, p, st.live[p]);
    }
  }

  lemma {:induction false} HandleFile(st: State, pid: Pid, i: nat)
    requires i <= |st.table|
    ensures HandleFrom(st, pid, i).file == st.file
    decreases |st.table| - i
  {
    if i < |st.table| && st.table[i].pid != pid {
      HandleFile(st, pid, i + 1);
    } else if i < |st.table| && st.table[i].isRunning != 0 && st.table[i].startTime != st.now {
      HandleFile(StartAt(st, i, Revived, st.table[i].restartTimes + 1), pid, i + 1);
    }
  }

  /** The invariant holds after every run of requests, deaths, reaps and handlings in any order. */
  lemma {:induction false} RunKeeps(st: State, es: seq<Event>)
    requires Inv(st) && Admissible(st, es)
    ensures Inv(Run(st, es))
    decreases |es|
  {
    hide Inv, Enabled, Step;
    if es != [] {
      StepKeeps(st, es[0]);
      RunKeeps(Step(st, es[0]), es[1..]);
    }
  }

  // ------------------------------------------------ slots that can be saved

  lemma SavableSame(a: App, b: App)
    requires Savable(a) && a.name == b.name && a.cmd == b.cmd && a.dir == b.dir
    requires b.isRunning in {0, 1, a.isRunning}
    ensures Savable(b)
  {
  }

  /** Every slot can be printed, counted or not: all that the handlers need of the slots. */
  ghost predicate Sound(st: State) {
    |Slots(st)| == LIST_SIZE && forall i | 0 <= i < LIST_SIZE :: Savable(Slots(st)[i])
  }

  /** Entry `i` may have changed its running mark and what is not saved. */
  lemma SoundEntry(st: State, now: State, i: nat)
    requires Sound(st) && i < |st.table| == |now.table| && now.rest == st.rest && now.table == st.table[i := now.table[i]]
    requires var (a, b) := (st.table[i], now.table[i]);
      a.name == b.name && a.cmd == b.cmd && a.dir == b.dir && b.isRunning in {0, 1, a.isRunning}
    ensures Sound(now)
  {
    assert Slots(st)[i] == st.table[i];
    SavableSame(st.table[i], now.table[i]);
    hide Savable;
    forall j | 0 <= j < LIST_SIZE
      ensures Savable(Slots(now)[j])
    {
      if j != i { assert Slots(now)[j] == Slots(st)[j]; }
    }
  }

  lemma StartSound(st: State, i: nat, kind: Kind, times: int)
    requires Sound(st) && i < |st.table|
    ensures Sound(StartAt(st, i, kind, times))
  {
    hide Sound;
    SoundEntry(st, StartAt(st, i, kind, times), i);
  }

  lemma StopSound(st: State, i: nat)
    requires Sound(st) && i < |st.table|
    ensures Sound(StopAt(st, i))
  {
    hide Sound;
    if st.table[i].isRunning != 0 { SoundEntry(st, StopAt(st, i), i); }
  }

  lemma {:induction false} StartAllSound(st: State, i: nat)
    requires Sound(st) && i <= |st.table|
    ensures Sound(StartAllFrom(st, i))
    decreases |st.table| - i
  {
    hide Sound, StartAt;
    if i < |st.table| {
      StartSound(st, i, Started, 0);
      StartAllSound(if st.table[i].isRunning != 0 then st else StartAt(st, i, Started, 0), i + 1);
    }
  }

  lemma {:induction false} StopAllSound(st: State, i: nat)
    requires Sound(st) && i <= |st.table|
    ensures Sound(StopAllFrom(st, i))
    decreases |st.table| - i
  {
    hide Sound, StopAt;
    if i < |st.table| {
      StopSound(st, i);
      StopAllSound(StopAt(st, i), i + 1);
    }
  }

  lemma {:induction false} HandleSound(st: State, pid: Pid, i: nat)
    requires Sound(st) && i <= |st.table|
    ensures Sound(HandleFrom(st, pid, i))
    decreases |st.table| - i
  {
    hide Sound, StartAt;
    if i < |st.table| && st.table[i].pid != pid {
      HandleSound(st, pid, i + 1);
    } else if i < |st.table| && st.table[i].isRunning != 0 {
      var times := st.table[i].restartTimes + 1;
      SoundEntry(st, QuickStopAt(st, i), i);
      StartSound(st, i, Revived, times);
      if st.table[i].startTime != st.now { HandleSound(StartAt(st, i, Revived, times), pid, i + 1); }
    }
  }

  lemma NewSound(st: State, process: App)
    requires Sound(st) && st.rest != [] && Savable(process)
    ensures Sound(StartWithCmd(st, process))
  {
    var now, n := StartWithCmd(st, process), |st.table|;
    SavableSame(process, now.table[n]);
    hide Savable;
    forall j | 0 <= j < LIST_SIZE
      ensures Savable(Slots(now)[j])
    {
      if j < n { assert Slots(now)[j] == Slots(st)[j]; }
      if j > n { assert Slots(now)[j] == now.rest[j - n - 1] == st.rest[j - n] == Slots(st)[j]; }
    }
  }

  lemma RemoveSound(st: State, i: nat)
    requires Sound(st) && i < |st.table|
    ensures Sound(RemoveAt(st, i))
  {
    hide StopAt, Deleted, Savable;
    StopSound(st, i);
    var stopped := StopAt(st, i);
    var slots := Deleted(Slots(stopped), stopped.table[i].name);
    DeletedSavable(Slots(stopped), stopped.table[i].name);
    assert Slots(RemoveAt(st, i)) == slots;
  }

  lemma DeletedSavable(slots: seq<App>, name: string)
    requires forall i | 0 <= i < |slots| :: Savable(slots[i])
    ensures forall i | 0 <= i < |slots| :: Savable(Deleted(slots, name)[i])
  {
    hide Scan, LastNamed, Savable;
    forall a: App | Savable(a)
      ensures Savable(Renumbered(a))
    {
      SavableSame(a, Renumbered(a));
    }
  }

  lemma DispatchSound(st: State, command: string, argument: string)
    requires Sound(st) && Defined(st, command, argument)
    ensures Sound(Dispatch(st, command, argument))
  {
    hide Sound, StartAt, StopAt, StartAllFrom, StopAllFrom, StartWithCmd, RemoveAt, ParsedProcess;
    if command == "startall" { StartAllSound(st, 0); }
    else if command == "stopall" { StopAllSound(st, 0); }
    else if command in {"start", "stop", "restart", "remove"} { EntrySound(st, command, argument); }
  }

  lemma EntrySound(st: State, command: string, argument: string)
    requires Sound(st) && Defined(st, command, argument) && command in {"start", "stop", "restart", "remove"}
    ensures Sound(Dispatch(st, command, argument))
  {
    hide Sound, Resolve, StartAt, StopAt, RestartAt, StartAllFrom, StopAllFrom, StartWithCmd, RemoveAt, FirstNamed, Parsable;
    var target := Resolve(st.table, argument);
    if target.Entry? {
      var pos := FirstNamed(st.table, target.app.name, 0);
      if pos < |st.table| { OperationsSound(st, pos); }
    } else if target.Cmd? && FirstNamed(st.table, target.process.name, 0) == |st.table| && command == "start" {
      CmdSavable(st.table, argument);
      NewSound(st, target.process);
    }
  }

  lemma OperationsSound(st: State, i: nat)
    requires Sound(st) && i < |st.table|
    ensures Sound(StartAt(st, i, Started, 0)) && Sound(StopAt(st, i)) && Sound(RestartAt(st, i)) && Sound(RemoveAt(st, i))
  {
    hide Sound, StartAt, StopAt, RemoveAt;
    StartSound(st, i, Started, 0);
    StopSound(st, i);
    StartSound(StopAt(st, i), i, Restarted, 1);
    RemoveSound(st, i);
  }

  lemma StepSound(st: State, e: Event)
    requires Sound(st) && Possible(st, e)
    ensures Sound(Step(st, e))
  {
    hide Savable, Dispatch, HandleFrom, Defined, FileText, Contents;
    if e.Request? {
      DispatchSound(st, e.command, e.argument);
    } else if e.Handle? {
      HandleSound(st, st.pending.value, 0);
    }
  }
}
