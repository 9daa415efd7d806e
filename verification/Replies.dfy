/**
 What a client is told of a request (src/server.c:404-553) is true of the state
 the request leaves.
 */
module Replies {
  import opened ProcessList
  import opened Supervisor
  import opened SupervisorProofs
  import opened SupervisorRuns

  /** An entry of the app runs with this pid, and the pid is a live child started for the app. */
  ghost predicate Up(st: State, name: string, pid: Pid) {
    && pid in st.live && st.live[pid] == name
    && exists i :: Runs(st.table, i, pid, name)
  }

  ghost predicate Listed(t: seq<App>, name: string) {
    FirstNamed(t, name, 0) < |t|
  }

  /** The app has no running entry and no live child. */
  ghost predicate Quiet(st: State, name: string) {
    Down(st.table, name) && name !in st.live.Values
  }

  /** The response, read as a statement about the states before and after the request. */
  ghost predicate Truthful(st: State, now: State, r: Response) {
    match r
    case StartedAll => |now.table| == |st.table| && forall i | 0 <= i < |now.table| :: now.table[i].isRunning == 1
    case StoppedAll => |now.table| == |st.table| && now.live == map[] && forall i | 0 <= i < |now.table| :: now.table[i].isRunning == 0
    case Status(table) => Unchanged(st, now) && table == now.table
    case NewlyStarted(name, pid) => !Listed(st.table, name) && |now.table| == |st.table| + 1 && pid !in st.live && Up(now, name, pid)
    case StartedApp(name, pid) => Listed(st.table, name) && Quiet(st, name) && pid !in st.live && Up(now, name, pid)
    case RestartedApp(name, pid) => !Down(st.table, name) && pid !in st.live && Up(now, name, pid)
    case AlreadyRunning(name) => Unchanged(st, now) && !Down(now.table, name)
    case DuplicatedName(name) => Unchanged(st, now) && Listed(now.table, name)
    case StoppedApp(name) => !Down(st.table, name) && Listed(now.table, name) && Quiet(now, name)
    case NotRunning(name) => Unchanged(st, now) && Listed(now.table, name) && Quiet(now, name)
    case RemovedApp(name, stopped) =>
      Listed(st.table, name) && !Listed(now.table, name) && Quiet(now, name) && (stopped <==> !Down(st.table, name))
    case NoSuchId(id) => Unchanged(st, now) && !Listed(now.table, id)
    case NoSuchName(name) => Unchanged(st, now) && !Listed(now.table, name)
    case Pong => Unchanged(st, now)
    case ErrorCommand => Unchanged(st, now)
  }

  /** Nothing but the file may differ. */
  ghost predicate Unchanged(st: State, now: State) {
    now == st.(file := now.file)
  }

  /** Every response is true. */
  lemma ReplyTruthful(st: State, command: string, argument: string)
    requires Core(st) && Clear(st) && Enabled(st, Request(command, argument))
    ensures Truthful(st, Step(st, Request(command, argument)), Reply(st, command, argument))
  {
    hide Core, Clear, Defined, Fitting, FileText, Truthful, Start, Stop, Restart, Remove, StartAllFrom, StopAllFrom;
    hide StartReply, StopReply, RestartReply, RemoveReply;
    if command == "startall" { StartAllTrue(st); }
    else if command == "stopall" { StopAllTrue(st); }
    else if command == "start" { StartTrue(st, argument); }
    else if command == "stop" { StopTrue(st, argument); }
    else if command == "restart" { RestartTrue(st, argument); }
    else if command == "remove" { RemoveTrue(st, argument); }
    else { OtherTrue(st, command, argument); }
  }

  lemma OtherTrue(st: State, command: string, argument: string)
    requires command !in {"startall", "stopall", "start", "stop", "restart", "remove"}
    ensures Truthful(st, Save(Dispatch(st, command, argument)), Reply(st, command, argument))
  {
    hide FileText, Contents, Start, Stop, Restart, Remove, StartAllFrom, StopAllFrom;
    hide StartReply, StopReply, RestartReply, RemoveReply;
  }

  lemma StartAllTrue(st: State)
    requires Core(st)
    ensures Truthful(st, Save(StartAllFrom(st, 0)), StartedAll)
  {
    forall j | 0 <= j < |st.table|
      ensures st.table[j].isRunning in {0, 1}
    {
      EntryIn(st, j);
    }
    hide Core, StartAllFrom, FileText;
    StartAllStarts(st, 0);
  }

  lemma StopAllTrue(st: State)
    requires Core(st)
    ensures Truthful(st, Save(StopAllFrom(st, 0)), StoppedAll)
  {
    hide Core, StopAllFrom, FileText;
    StopAllKeeps(st, 0);
    AllQuiet(StopAllFrom(st, 0));
  }

  lemma AllQuiet(st: State)
    requires Core(st) && forall i | 0 <= i < |st.table| :: st.table[i].isRunning == 0
    ensures st.live == map[]
  {
    hide TableOk, KernelOk, CountOk, Awaited;
    assert forall p :: p !in st.live;
  }

  /** Entry `i` is the only one of its name. */
  lemma OnlyEntry(st: State, i: nat)
    requires Core(st) && i < |st.table|
    ensures var name := st.table[i].name;
      && Listed(st.table, name)
      && (st.table[i].isRunning == 0 ==> Quiet(st, name))
      && (st.table[i].isRunning != 0 ==> !Down(st.table, name))
  {
    CoreTable(st);
    hide Core, EntryOk;
    FirstIsOnly(st.table, i);
    if st.table[i].isRunning == 0 { DownNotLive(st, st.table[i].name); }
  }

  lemma StartedUp(st: State, i: nat, kind: Kind, times: int)
    requires Core(st) && i < |st.table|
    ensures st.forks + 1 !in st.live && Up(StartAt(st, i, kind, times), st.table[i].name, st.forks + 1)
  {
    FreshPid(st);
    hide Core;
    assert Runs(StartAt(st, i, kind, times).table, i, st.forks + 1, st.table[i].name);
  }

  lemma UpSaved(st: State, name: string, pid: Pid)
    requires Up(st, name, pid)
    ensures Up(Save(st), name, pid)
  {
    hide FileText;
    var i :| Runs(st.table, i, pid, name);
    assert Runs(Save(st).table, i, pid, name);
  }

  lemma NotFoundTrue(st: State, argument: string)
    requires !Resolve(st.table, argument).Entry?
    ensures Truthful(st, Save(st), NotFound(argument))
  {
    hide FileText, Contents, GetProcessId, ParsedProcess, IsNumber;
  }

  lemma StartTrue(st: State, argument: string)
    requires Core(st)
    ensures Truthful(st, Save(Start(st, argument)), StartReply(st, argument))
  {
    hide Core, FileText, Contents, Resolve, StartAt, StartWithCmd, FirstNamed, Truthful;
    CoreTable(st);
    ResolvedHere(st.table, argument);
    var target := Resolve(st.table, argument);
    if target.Entry? {
      StartEntryTrue(st, FirstNamed(st.table, target.app.name, 0));
    } else if target.Cmd? {
      StartCmdTrue(st, target.process);
    } else {
      NotFoundTrue(st, argument);
    }
  }

  lemma StartEntryTrue(st: State, pos: nat)
    requires Core(st) && pos < |st.table|
    ensures var a := st.table[pos];
      if a.isRunning == 0 then Truthful(st, Save(StartAt(st, pos, Started, 0)), StartedApp(a.name, st.forks + 1))
      else Truthful(st, Save(st), AlreadyRunning(a.name))
  {
    hide Core, FileText, Contents, StartAt, FirstNamed;
    OnlyEntry(st, pos);
    StartedUp(st, pos, Started, 0);
    UpSaved(StartAt(st, pos, Started, 0), st.table[pos].name, st.forks + 1);
  }

  lemma StartCmdTrue(st: State, process: App)
    requires Core(st)
    ensures
      if Listed(st.table, process.name) then Truthful(st, Save(st), DuplicatedName(process.name))
      else Truthful(st, Save(StartWithCmd(st, process)), NewlyStarted(process.name, st.forks + 1))
  {
    hide Core, FileText, Contents, StartWithCmd, FirstNamed;
    NewUp(st, process);
    UpSaved(StartWithCmd(st, process), process.name, st.forks + 1);
  }

  lemma NewUp(st: State, process: App)
    requires Core(st)
    ensures st.forks + 1 !in st.live && Up(StartWithCmd(st, process), process.name, st.forks + 1)
    ensures |StartWithCmd(st, process).table| == |st.table| + 1
  {
    FreshPid(st);
    hide Core;
    assert Runs(StartWithCmd(st, process).table, |st.table|, st.forks + 1, process.name);
  }

  lemma StopTrue(st: State, argument: string)
    requires Core(st)
    ensures Truthful(st, Save(Stop(st, argument)), StopReply(st, argument))
  {
    CoreTable(st);
    ResolvedHere(st.table, argument);
    hide Core, FileText, Contents, Resolve, StopAt, FirstNamed;
    var target := Resolve(st.table, argument);
    if target.Entry? {
      var pos := FirstNamed(st.table, target.app.name, 0);
      OnlyEntry(st, pos);
      if target.app.isRunning != 0 {
        StopKeeps(st, pos);
        assert StopAt(st, pos).table[pos].name == st.table[pos].name by { StopName(st, pos); }
        OnlyEntry(StopAt(st, pos), pos);
      }
    } else {
      NotFoundTrue(st, argument);
    }
  }

  lemma StopName(st: State, i: nat)
    requires i < |st.table|
    ensures StopAt(st, i).table[i].name == st.table[i].name && StopAt(st, i).forks == st.forks
    ensures forall p | p in StopAt(st, i).live :: p in st.live
  {
  }

  lemma RestartTrue(st: State, argument: string)
    requires Core(st)
    ensures Truthful(st, Save(Restart(st, argument)), RestartReply(st, argument))
  {
    hide Core, FileText, Contents, Resolve, StopAt, StartAt, FirstNamed;
    CoreTable(st);
    ResolvedHere(st.table, argument);
    FreshPid(st);
    var target := Resolve(st.table, argument);
    if target.Entry? {
      var pos := FirstNamed(st.table, target.app.name, 0);
      OnlyEntry(st, pos);
      if target.app.isRunning != 0 {
        StopKeeps(st, pos);
        StopName(st, pos);
        StartedUp(StopAt(st, pos), pos, Restarted, 1);
        UpSaved(RestartAt(st, pos), target.app.name, st.forks + 1);
      }
    } else {
      NotFoundTrue(st, argument);
    }
  }

  lemma RemoveTrue(st: State, argument: string)
    requires Core(st) && Clear(st)
    ensures Truthful(st, Save(Remove(st, argument)), RemoveReply(st, argument))
  {
    hide Core, Clear, FileText, Contents, Resolve, RemoveAt, Removed, FirstNamed;
    CoreTable(st);
    ResolvedHere(st.table, argument);
    var target := Resolve(st.table, argument);
    if target.Entry? {
      var pos := FirstNamed(st.table, target.app.name, 0);
      OnlyEntry(st, pos);
      RemoveClear(st, pos);
      RemovedOthers(st, StopAt(st, pos), pos);
      NoneListed(RemoveAt(st, pos), target.app.name);
    } else {
      NotFoundTrue(st, argument);
    }
  }

  lemma NoneListed(st: State, name: string)
    requires Core(st) && forall i | 0 <= i < |st.table| :: st.table[i].name != name
    ensures !Listed(st.table, name) && Quiet(st, name)
  {
    DownNotLive(st, name);
    hide Core;
  }
}
