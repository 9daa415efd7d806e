/**
 What each request and each handled death does, down to every field: the entry that is
 addressed changes as stated, and all the others, and their children, are as before.
 */
module Requests {
  import opened AppFields
  import opened CText
  import opened Json
  import opened ProcessList
  import opened Supervisor
  import opened SupervisorProofs
  import opened SupervisorRuns
  import BufferedPrinter
  import RoundTrip
  import Safety
  import Syntax

  /** The saved file is all that differs. */
  ghost predicate OnlySaved(st: State, now: State) {
    now == st.(file := now.file)
  }

  /** An entry started now, under the next pid. */
  function Begun(st: State, a: App, times: int): App {
    App(a.name, a.cmd, a.dir, st.forks + 1, 1, a.id, times, st.now)
  }

  /** An entry that was stopped on request. */
  function Ended(a: App): App {
    App(a.name, a.cmd, a.dir, 0, 0, a.id, 0, 0)
  }

  /** The child with this pid dead, if it lived. */
  ghost predicate ChildKilled(st: State, now: State, pid: Pid) {
    && now.live == st.live - {pid}
    && now.zombies == if pid in st.live then st.zombies + {pid} else st.zombies
  }

  // ---------------------------------------------------------------- the file

  /** Every request leaves the file of the named slots before the first nameless one, to the byte, whatever
      the count is. */
  lemma FileExact(st: State, command: string, argument: string, n: nat)
    requires var slots := Slots(Step(st, Request(command, argument)));
      && n <= |slots| && (forall i | 0 <= i < n :: slots[i].name != "") && (n < |slots| ==> slots[n].name == "")
    ensures var now := Step(st, Request(command, argument)); now.file == "[" + EntryTexts(Slots(now)[..n]) + "]"
  {
    hide Dispatch, FileText, EntryTexts, Scan;
    var now := Step(st, Request(command, argument));
    ScanStops(Slots(now), n);
    SavedText(Slots(now)[..n]);
  }

  // --------------------------------------------------------------- one entry

  /** The operation that a request for a listed app comes down to. */
  lemma EntryOperation(st: State, argument: string, i: nat)
    requires Core(st) && Addresses(st.table, argument, i)
    ensures var running := st.table[i].isRunning != 0;
      && Start(st, argument) == (if running then st else StartAt(st, i, Started, 0))
      && Stop(st, argument) == (if running then StopAt(st, i) else st)
      && Restart(st, argument) == (if running then RestartAt(st, i) else st)
      && Remove(st, argument) == RemoveAt(st, i)
  {
    CoreTable(st);
    AddressesResolved(st.table, argument, i);
    hide Core, TableOk, Resolve, FirstNamed, Addresses, StartAt, StopAt, RestartAt, RemoveAt, StartWithCmd;
  }

  lemma InTable(t: seq<App>, argument: string, i: nat)
    requires Addresses(t, argument, i)
    ensures i < |t|
  {
    hide GetProcessId;
  }

  lemma StopAtIs(st: State, i: nat)
    requires i < |st.table|
    ensures var a := st.table[i]; var now := StopAt(st, i);
      if a.isRunning == 0 then now == st
      else ChildKilled(st, now, a.pid) && now == st.(table := st.table[i := Ended(a)], live := now.live, zombies := now.zombies)
  {
    NoneKilled(st.live, st.table[i].pid);
  }

  lemma RestartAtIs(st: State, i: nat)
    requires i < |st.table| && st.table[i].isRunning != 0
    ensures var a := st.table[i]; var now := RestartAt(st, i);
      && now.live == (st.live - {a.pid})[st.forks + 1 := a.name]
      && now.zombies == (if a.pid in st.live then st.zombies + {a.pid} else st.zombies)
      && now == st.(
        table := st.table[i := Begun(st, a, 1)], live := now.live, zombies := now.zombies, forks := st.forks + 1,
        log := st.log + [Action(a.name, Restarted)])
  {
    StopAtIs(st, i);
    hide StopAt;
    assert StopAt(st, i).table[i := Begun(st, st.table[i], 1)] == st.table[i := Begun(st, st.table[i], 1)];
  }

  lemma NoneKilled(live: map<Pid, string>, pid: Pid)
    ensures pid !in live ==> live - {pid} == live
  {
  }

  /** A request saves what its branch leaves. */
  lemma RequestIs(st: State, argument: string)
    ensures Step(st, Request("start", argument)) == Save(Start(st, argument))
    ensures Step(st, Request("stop", argument)) == Save(Stop(st, argument))
    ensures Step(st, Request("restart", argument)) == Save(Restart(st, argument))
    ensures Step(st, Request("remove", argument)) == Save(Remove(st, argument))
    ensures Step(st, Request("startall", argument)) == Save(StartAllFrom(st, 0))
    ensures Step(st, Request("stopall", argument)) == Save(StopAllFrom(st, 0))
  {
    hide Start, Stop, Restart, Remove, StartAllFrom, StopAllFrom, Save;
  }

  lemma SavedIs(st: State)
    ensures Save(st) == st.(file := Save(st).file)
  {
    hide FileText, Contents;
  }

  /** `start` of a listed app. */
  lemma StartExact(st: State, argument: string, i: nat)
    requires Core(st) && Addresses(st.table, argument, i)
    ensures var a := st.table[i]; var now := Step(st, Request("start", argument));
      if a.isRunning != 0 then OnlySaved(st, now)
      else now == st.(
        table := st.table[i := Begun(st, a, 0)], live := st.live[st.forks + 1 := a.name], forks := st.forks + 1,
        log := st.log + [Action(a.name, Started)], file := now.file)
  {
    hide Step, Start, Core, Save, Addresses;
    EntryOperation(st, argument, i);
    RequestIs(st, argument);
    SavedIs(Start(st, argument));
  }

  /** `stop` of an app stops it and nothing else. */
  lemma StopExact(st: State, argument: string, i: nat)
    requires Core(st) && Addresses(st.table, argument, i)
    ensures var a := st.table[i]; var now := Step(st, Request("stop", argument));
      if a.isRunning == 0 then OnlySaved(st, now)
      else
        && ChildKilled(st, now, a.pid)
        && now == st.(table := st.table[i := Ended(a)], live := now.live, zombies := now.zombies, file := now.file)
  {
    hide Step, Stop, Core, Save, Addresses, StopAt;
    EntryOperation(st, argument, i);
    RequestIs(st, argument);
    SavedIs(Stop(st, argument));
    StopAtIs(st, i) by { InTable(st.table, argument, i); }
  }

  /** `restart` of a running app: its child killed, a new one forked. */
  lemma RestartExact(st: State, argument: string, i: nat)
    requires Core(st) && Addresses(st.table, argument, i)
    ensures var a := st.table[i]; var now := Step(st, Request("restart", argument));
      if a.isRunning == 0 then OnlySaved(st, now)
      else
        && now.live == (st.live - {a.pid})[st.forks + 1 := a.name]
        && now.zombies == (if a.pid in st.live then st.zombies + {a.pid} else st.zombies)
        && now == st.(
          table := st.table[i := Begun(st, a, 1)], live := now.live, zombies := now.zombies, forks := st.forks + 1,
          log := st.log + [Action(a.name, Restarted)], file := now.file)
  {
    hide Step, Restart, Core, Save, Addresses, RestartAt;
    EntryOperation(st, argument, i);
    RequestIs(st, argument);
    SavedIs(Restart(st, argument));
    InTable(st.table, argument, i);
    if st.table[i].isRunning != 0 { RestartAtIs(st, i); }
  }

  /** `remove` of an app: it goes with its child, and the ids after it are one lower. */
  lemma RemoveExactly(st: State, argument: string, i: nat)
    requires Core(st) && Clear(st) && Addresses(st.table, argument, i)
    ensures var a := st.table[i]; var now := Step(st, Request("remove", argument));
      && |now.table| == |st.table| - 1
      && (forall j | 0 <= j < i :: now.table[j] == st.table[j])
      && (forall j | i <= j < |now.table| :: now.table[j] == st.table[j + 1].(id := j))
      && (if a.isRunning == 0 then now.live == st.live && now.zombies == st.zombies else ChildKilled(st, now, a.pid))
      && now == st.(table := now.table, rest := now.rest, live := now.live, zombies := now.zombies, file := now.file)
  {
    RemoveExact(st, argument, i);
    hide Step, Remove, Core, Clear, Save, Addresses, Slots, Deleted, StopAt;
    EntryOperation(st, argument, i);
    RequestIs(st, argument);
    SavedIs(Remove(st, argument));
    InTable(st.table, argument, i);
    StopAtIs(st, i);
  }

  // ------------------------------------------------- what addresses no entry

  /** The argument is neither the number nor the name of an entry. */
  ghost predicate Unaddressed(t: seq<App>, argument: string) {
    forall i: nat :: !Addresses(t, argument, i)
  }

  ghost predicate Taken(t: seq<App>, name: string) {
    exists i :: 0 <= i < |t| && t[i].name == name
  }

  lemma FirstTaken(t: seq<App>, name: string)
    ensures FirstNamed(t, name, 0) < |t| <==> Taken(t, name)
  {
    var k := FirstNamed(t, name, 0);
    assert k < |t| ==> t[k].name == name;
  }

  lemma UnaddressedParsed(t: seq<App>, argument: string)
    requires Unaddressed(t, argument)
    ensures Resolve(t, argument) == ParsedProcess(argument)
  {
    ParsedOrAddressed(t, argument);
    hide Resolve, ParsedProcess, Addresses;
  }

  lemma ParsedOrAddressed(t: seq<App>, argument: string)
    ensures Resolve(t, argument) == ParsedProcess(argument) || exists i: nat :: Addresses(t, argument, i)
  {
    var id := GetProcessId(argument, |t|);
    var k := FirstNamed(t, argument, 0);
    hide GetProcessId, ParsedProcess;
    if id != -1 { assert Addresses(t, argument, id); }
    if id == -1 && k < |t| { assert Addresses(t, argument, k); }
  }

  /** A text that describes an app is parsed into that app. */
  lemma Described(argument: string, name: string, cmd: string, dir: string, running: Value)
    requires ParseText(argument, false).Ok?
    requires Says(ParseText(argument, false).value, Some(Str(name)), Some(Str(cmd)), Some(Str(dir)), Some(running))
    ensures var target := ParsedProcess(argument);
      target.Cmd? && target.process.name == name && target.process.cmd == cmd && target.process.dir == dir
  {
    hide ParseText, Says, Filled, Complete;
    FilledSays(BLANK, ParseText(argument, false).value, Some(Str(name)), Some(Str(cmd)), Some(Str(dir)), Some(running));
  }

  /** `start` with a text that describes an app under a new name: the app comes last, started, with its own name,
      command and directory. */
  lemma NewExact(st: State, argument: string, name: string, cmd: string, dir: string, running: Value)
    requires Unaddressed(st.table, argument) && !Taken(st.table, name) && ParseText(argument, false).Ok?
    requires Says(ParseText(argument, false).value, Some(Str(name)), Some(Str(cmd)), Some(Str(dir)), Some(running))
    ensures IsNew(st, Step(st, Request("start", argument)), name, cmd, dir)
  {
    UnaddressedParsed(st.table, argument);
    FirstTaken(st.table, name);
    Described(argument, name, cmd, dir, running);
    hide Step, Save, StartWithCmd, FirstNamed, Says, Resolve, ParseText, ParsedProcess, Unaddressed, Taken, IsNew;
    RequestIs(st, argument);
    SavedIs(Start(st, argument));
    NewIs(st, ParsedProcess(argument).process);
  }

  /** In whatever spelling the app is described. */
  lemma SpelledNewExact(
    st: State, before: Syntax.Gap, x: Syntax.Syntax, after: Syntax.Gap, name: string, cmd: string, dir: string, running: Value)
    requires Syntax.WellFormed(x) && x.Record? && Syntax.Uncommented(x)
    requires Syntax.ValidGap(before) && Syntax.BlankGap(before) && Syntax.ValidGap(after) && Syntax.BlankGap(after)
    requires var argument := Syntax.GapThen(before, Syntax.Then(x, Syntax.GapThen(after, "")));
      Unaddressed(st.table, argument) && !Taken(st.table, name)
    requires Says(Syntax.Meaning(x), Some(Str(name)), Some(Str(cmd)), Some(Str(dir)), Some(running))
    ensures var argument := Syntax.GapThen(before, Syntax.Then(x, Syntax.GapThen(after, "")));
      IsNew(st, Step(st, Request("start", argument)), name, cmd, dir)
  {
    var argument := Syntax.GapThen(before, Syntax.Then(x, Syntax.GapThen(after, "")));
    Syntax.TextSpelled(x, before, after, "");
    hide Step, Says, IsNew, Unaddressed, Taken, ParseText, Syntax.Then, Syntax.GapThen, Syntax.Meaning, Syntax.WellFormed;
    NewExact(st, argument, name, cmd, dir, running);
  }

  /** `now` is `st` with one more app, started. */
  ghost predicate IsNew(st: State, now: State, name: string, cmd: string, dir: string) {
    now == st.(
      table := st.table + [App(name, cmd, dir, st.forks + 1, 1, |st.table|, 0, st.now)],
      rest := if st.rest == [] then [] else st.rest[1..],
      live := st.live[st.forks + 1 := name], forks := st.forks + 1,
      log := st.log + [Action(name, Started)], file := now.file)
  }

  lemma NewIs(st: State, process: App)
    ensures forall file :: IsNew(st, StartWithCmd(st, process).(file := file), process.name, process.cmd, process.dir)
  {
  }

  /** So it is with what is printed of any app, when that is not a listed name itself. */
  lemma PrintedNewExact(st: State, a: App)
    requires Savable(a) && !Taken(st.table, a.name)
    requires var text := Print(ProcessJson(a), 0, true); !Taken(st.table, text)
    ensures var text := Print(ProcessJson(a), 0, true); IsNew(st, Step(st, Request("start", text)), a.name, a.cmd, a.dir)
  {
    var text := Print(ProcessJson(a), 0, true);
    PrintedUnaddressed(st.table, a);
    ProcessPrintable(a);
    WrittenSays(a);
    hide Print, ProcessJson, Printable, Step, Says, IsNew, Unaddressed, Taken, ParseText;
    RoundTrip.TextRoundTrip(ProcessJson(a), true, false);
    NewExact(st, text, a.name, a.cmd, a.dir, Number(a.isRunning, 0));
  }

  lemma PrintedUnaddressed(t: seq<App>, a: App)
    requires !Taken(t, Print(ProcessJson(a), 0, true))
    ensures Unaddressed(t, Print(ProcessJson(a), 0, true))
  {
    hide PrintMembers;
    assert Print(ProcessJson(a), 0, true)[0] == '{';
    hide Print;
  }

  /** It can be sent when the app has a name and there is room. */
  lemma PrintedNewEnabled(st: State, a: App)
    requires Savable(a) && a.name != "" && |st.table| < 255 && st.rest != []
    ensures Enabled(st, Request("start", Print(ProcessJson(a), 0, true)))
  {
    var text := Print(ProcessJson(a), 0, true);
    hide Print, ProcessJson, CString, Parsable, ParsedProcess, GetProcessId, FirstNamed;
    PrintedParsed(st.table, a);
    assert Starts(st.table, text).Some? ==> Starts(st.table, text).value == Restored(a, BLANK);
  }

  lemma PrintedParsed(t: seq<App>, a: App)
    requires Savable(a)
    ensures var text := Print(ProcessJson(a), 0, true);
      CString(text) && Parsable(t, text) && ParsedProcess(text) == Cmd(Restored(a, BLANK))
  {
    ProcessPrintable(a);
    ProcessRoundTrip(a, BLANK);
    hide Print, ProcessJson, Printable, CString, Filled, Copyable, Complete, ParseText, GetProcessId, FirstNamed, Safety.Safe;
    RoundTrip.TextRoundTrip(ProcessJson(a), true, false);
    Safety.PrintedSafe(ProcessJson(a), true);
    BufferedPrinter.PrintCString(ProcessJson(a), 0, true);
  }

  /** What describes no app, or one under a name that is taken, starts nothing. */
  lemma NothingNew(st: State, argument: string)
    requires Unaddressed(st.table, argument)
    requires var r := ParseText(argument, false);
      r.Ok? && Complete(r.value) ==> Taken(st.table, Filled(BLANK, r.value).name)
    ensures OnlySaved(st, Step(st, Request("start", argument)))
  {
    UnaddressedParsed(st.table, argument);
    hide Step, Save, StartWithCmd, FirstNamed, Filled, Complete, Resolve, ParseText, Taken;
    if ParsedProcess(argument).Cmd? { FirstTaken(st.table, ParsedProcess(argument).process.name); }
    RequestIs(st, argument);
    SavedIs(Start(st, argument));
  }

  /** Nor do the other requests do anything with what they do not find. */
  lemma NothingElse(st: State, argument: string, command: string)
    requires Unaddressed(st.table, argument) && command in {"stop", "restart", "remove"}
    ensures OnlySaved(st, Step(st, Request(command, argument)))
  {
    UnaddressedParsed(st.table, argument);
    hide Resolve, ParsedProcess, Save, Step;
    RequestIs(st, argument);
    SavedIs(st);
  }

  /** Nor does any other command. */
  lemma OtherCommands(st: State, argument: string, command: string)
    requires command !in {"start", "stop", "restart", "remove", "startall", "stopall"}
    ensures OnlySaved(st, Step(st, Request(command, argument)))
  {
    hide Start, Stop, Restart, Remove, StartAllFrom, StopAllFrom, FileText, Contents;
  }

  /** Any request for a listed app, and any command that takes no argument, is possible. */
  lemma ListedEnabled(st: State, argument: string, i: nat, command: string)
    requires Core(st) && Clear(st) && CString(argument) && Addresses(st.table, argument, i)
    ensures Enabled(st, Request(command, argument))
  {
    RoomScanned(st);
    CoreTable(st);
    AddressesResolved(st.table, argument, i);
    hide Core, Clear, TableOk, CString, Scan, GetProcessId, ParseText;
  }

  lemma RoomScanned(st: State)
    requires Core(st) && Clear(st)
    ensures Scan(Slots(st), 0) < |Slots(st)|
  {
    CoreTable(st);
    hide Core, Scan;
    var i := if |st.table| < 2 then 2 else |st.table|;
    assert Slots(st)[i].name == "";
  }

  lemma BareEnabled(st: State, argument: string, command: string)
    requires command !in {"start", "stop", "restart", "remove"}
    ensures Enabled(st, Request(command, argument))
  {
  }

  // -------------------------------------------------------------- all entries

  /** How many of the entries from `i` to before `j` are stopped. */
  function StoppedIn(t: seq<App>, i: nat, j: nat): nat
    requires i <= j <= |t|
    decreases j - i
  {
    if i == j then 0 else (if t[i].isRunning == 0 then 1 else 0) + StoppedIn(t, i + 1, j)
  }

  lemma {:induction false} StoppedSame(t: seq<App>, u: seq<App>, i: nat, j: nat)
    requires i <= j <= |t| == |u| && forall k | i <= k < j :: t[k] == u[k]
    ensures StoppedIn(t, i, j) == StoppedIn(u, i, j)
    decreases j - i
  {
    if i < j { StoppedSame(t, u, i + 1, j); }
  }

  lemma StoppedSames(t: seq<App>, u: seq<App>, i: nat)
    requires i <= |t| == |u| && forall k | i <= k < |t| :: t[k] == u[k]
    ensures forall j | i <= j <= |t| :: StoppedIn(t, i, j) == StoppedIn(u, i, j)
  {
    forall j | i <= j <= |t|
      ensures StoppedIn(t, i, j) == StoppedIn(u, i, j)
    {
      StoppedSame(t, u, i, j);
    }
  }

  /** Entry `j` once everything from entry `i` on has been started, pids being dealt in order. */
  function StartedEntry(st: State, i: nat, j: nat): App
    requires i <= j < |st.table|
  {
    var a := st.table[j];
    if a.isRunning != 0 then a
    else App(a.name, a.cmd, a.dir, st.forks + StoppedIn(st.table, i, j) + 1, 1, a.id, 0, st.now)
  }

  /** The children alive afterwards: those that were, and the new ones. */
  ghost predicate AllStarted(st: State, now: State, i: nat) {
    && i <= |st.table| == |now.table|
    && (forall j | 0 <= j < |st.table| :: now.table[j] == if j < i then st.table[j] else StartedEntry(st, i, j))
    && now.forks == st.forks + StoppedIn(st.table, i, |st.table|)
    && (forall p :: p in now.live <==> p in st.live || st.forks < p <= now.forks)
    && (forall p | p in st.live :: now.live[p] == st.live[p])
    && (forall j | i <= j < |st.table| && st.table[j].isRunning == 0 ::
          now.table[j].pid in now.live && now.live[now.table[j].pid] == st.table[j].name)
    && now == st.(table := now.table, live := now.live, forks := now.forks, log := now.log)
  }

  lemma {:induction false} StartAllFromIs(st: State, i: nat)
    requires i <= |st.table| && forall p | p in st.live :: p <= st.forks
    ensures AllStarted(st, StartAllFrom(st, i), i)
    decreases |st.table| - i
  {
    hide AllStarted;
    if i == |st.table| {
      NoneStarted(st);
    } else if st.table[i].isRunning != 0 {
      StartAllFromIs(st, i + 1);
      RunningPassed(st, StartAllFrom(st, i + 1), i);
    } else {
      var next := StartAt(st, i, Started, 0);
      assert forall p | p in next.live :: p <= next.forks;
      StartAllFromIs(next, i + 1);
      hide StartAllFrom;
      OneStarted(st, next, StartAllFrom(next, i + 1), i);
    }
  }

  lemma NoneStarted(st: State)
    ensures AllStarted(st, st, |st.table|)
  {
  }

  lemma RunningPassed(st: State, now: State, i: nat)
    requires i < |st.table| && st.table[i].isRunning != 0 && AllStarted(st, now, i + 1)
    ensures AllStarted(st, now, i)
  {
  }

  lemma OneStarted(st: State, next: State, now: State, i: nat)
    requires i < |st.table| && st.table[i].isRunning == 0 && next == StartAt(st, i, Started, 0) && AllStarted(next, now, i + 1)
    requires forall p | p in st.live :: p <= st.forks
    ensures AllStarted(st, now, i)
  {
    OneStartedTable(st, next, now, i);
    hide StoppedIn, StartedEntry;
    StoppedSames(next.table, st.table, i + 1);
    StoppedStep(st.table, i);
    assert now.table[i] == next.table[i];
  }

  lemma OneStartedTable(st: State, next: State, now: State, i: nat)
    requires i < |st.table| && st.table[i].isRunning == 0 && next == StartAt(st, i, Started, 0) && AllStarted(next, now, i + 1)
    ensures forall j | 0 <= j < |st.table| :: now.table[j] == if j < i then st.table[j] else StartedEntry(st, i, j)
  {
    hide StoppedIn;
    StoppedSames(next.table, st.table, i + 1);
    StoppedStep(st.table, i);
    assert now.table[i] == next.table[i];
    assert forall j | i < j < |st.table| :: now.table[j] == StartedEntry(next, i + 1, j);
  }

  lemma StoppedStep(t: seq<App>, i: nat)
    requires i < |t| && t[i].isRunning == 0
    ensures forall j | i < j <= |t| :: StoppedIn(t, i, j) == 1 + StoppedIn(t, i + 1, j)
    ensures StoppedIn(t, i, i) == 0
  {
  }

  /** `startall` starts each entry that is stopped, in order, and leaves those that run alone. */
  lemma StartAllExact(st: State, argument: string)
    requires Core(st)
    ensures var now := Step(st, Request("startall", argument)); AllStarted(st, now.(file := st.file), 0)
  {
    LiveForked(st);
    hide Step, Core, Save, StartAllFrom, AllStarted;
    StartAllFromIs(st, 0);
    RequestIs(st, argument);
    SavedIs(StartAllFrom(st, 0));
    FileKept(st, StartAllFrom(st, 0));
  }

  lemma FileKept(st: State, now: State)
    requires AllStarted(st, now, 0)
    ensures now.file == st.file
  {
  }

  lemma LiveForked(st: State)
    requires Core(st)
    ensures forall p | p in st.live :: p <= st.forks
  {
  }

  /** `stopall` stops every entry, and no child is left alive. */
  lemma StopAllExact(st: State, argument: string)
    requires Core(st)
    ensures var now := Step(st, Request("stopall", argument));
      && |now.table| == |st.table|
      && (forall j | 0 <= j < |st.table| :: now.table[j] == if st.table[j].isRunning == 0 then st.table[j] else Ended(st.table[j]))
      && now.live == map[] && now.zombies == st.zombies + st.live.Keys
      && now == st.(table := now.table, live := now.live, zombies := now.zombies, file := now.file)
  {
    hide Step, Save, StopAllFrom;
    AllStopped(st);
    hide Core;
    StopAllFromIs(st, 0);
    RequestIs(st, argument);
    SavedIs(StopAllFrom(st, 0));
  }

  lemma AllStopped(st: State)
    requires Core(st)
    ensures StopAllFrom(st, 0).live == map[]
  {
    StopAllKeeps(st, 0);
    hide Core, StopAllFrom;
    NoneLive(StopAllFrom(st, 0));
  }

  lemma NoneLive(st: State)
    requires Core(st) && forall j | 0 <= j < |st.table| :: st.table[j].isRunning == 0
    ensures st.live == map[]
  {
    hide TableOk, KernelOk, CountOk, Awaited;
    assert forall p :: p !in st.live;
  }

  lemma {:induction false} StopAllFromIs(st: State, i: nat)
    requires i <= |st.table|
    ensures var now := StopAllFrom(st, i);
      && |now.table| == |st.table|
      && (forall j | 0 <= j < |st.table| ::
            now.table[j] == if j < i || st.table[j].isRunning == 0 then st.table[j] else Ended(st.table[j]))
      && (forall p | p in now.live :: p in st.live) && now.zombies == st.zombies + (st.live.Keys - now.live.Keys)
      && now == st.(table := now.table, live := now.live, zombies := now.zombies)
    decreases |st.table| - i
  {
    if i < |st.table| {
      StopAtIs(st, i);
      hide StopAt;
      StopAllFromIs(StopAt(st, i), i + 1);
    }
  }
}
