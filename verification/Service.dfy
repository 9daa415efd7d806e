/**
 The supervisor as src/server.c runs it: handlers that scan and change an array of
 slots. Each method is proved to take exactly the step of the state machine.
 */
module Service {
  import opened CText
  import opened Json
  import opened ProcessList
  import opened Supervisor
  import opened SupervisorProofs
  import opened Loading
  import SupervisorRuns
  import Parser

  /** No two slots have changed. */
  ghost predicate OneChanged(slots: seq<App>, now: seq<App>) {
    |slots| == |now| && forall i, j | 0 <= i < j < |slots| :: now[i] == slots[i] || now[j] == slots[j]
  }

  lemma NoneChanged(slots: seq<App>)
    ensures OneChanged(slots, slots)
  {
  }

  lemma SlotChanged(slots: seq<App>, now: seq<App>, k: nat)
    requires |slots| == |now| && forall j | 0 <= j < |slots| && j != k :: now[j] == slots[j]
    ensures OneChanged(slots, now)
  {
  }

  class Server {
    const list: array<App>
    var count: nat
    var live: map<Pid, string>
    var zombies: set<Pid>
    var forks: nat
    var pending: Option<Pid>
    var now: int
    var file: string
    ghost var log: seq<Action>

    /** The count lies in the array. What the slots hold is no part of this: a file that loads
        halfway leaves apps behind the count. */
    ghost predicate Valid()
      reads this
    {
      list.Length == LIST_SIZE && count <= LIST_SIZE
    }

    ghost function View(): State
      requires count <= list.Length
      reads this, list
    {
      State(list[..count], list[count..], live, zombies, forks, pending, now, file, log)
    }

    constructor (text: string, clock: int)
      ensures fresh(list) && list.Length == LIST_SIZE && list[..] == Blanks()
      ensures count == 0 && live == map[] && zombies == {} && forks == 0 && pending.None?
      ensures now == clock && file == text && log == []
    {
      list := new App[LIST_SIZE](_ => BLANK);
      count, live, zombies, forks := 0, map[], {}, 0;
      pending, now, file, log := None, clock, text, [];
    }

    // ------------------------------------------------------------ one process

    /** `server_start_process`: the caller writes the process back where its pointer came from. */
    method StartProcess(process: App, ghost kind: Kind) returns (started: App)
      modifies `live, `forks, `log
      ensures forks == old(forks) + 1 && live == old(live)[forks := process.name]
      ensures log == old(log) + [Action(process.name, kind)]
      ensures started == process.(pid := forks, isRunning := 1, restartTimes := 0, startTime := now)
    {
      forks := forks + 1;
      live := live[forks := process.name];
      log := log + [Action(process.name, kind)];
      started := process.(pid := forks, isRunning := 1, restartTimes := 0);
      started := started.(startTime := now);
    }

    /** `kill`, on the server's own child. */
    method KillProcess(pid: Pid)
      modifies `live, `zombies
      ensures live == old(live) - {pid} && zombies == old(zombies) + if pid in old(live) then {pid} else {}
    {
      if pid in live {
        live := live - {pid};
        zombies := zombies + {pid};
      }
    }

    method StartSlot(i: nat, ghost kind: Kind)
      requires Valid() && i < count
      modifies this, list
      ensures Valid() && View() == StartAt(old(View()), i, kind, 0)
      ensures count == old(count) && list[i].pid == old(forks) + 1
      ensures forall j | 0 <= j < LIST_SIZE && j != i :: list[j] == old(list[j])
    {
      var started := StartProcess(list[i], kind);
      list[i] := started;
    }

    /** `server_stop_process` */
    method StopSlot(i: nat)
      requires Valid() && i < count
      modifies this, list
      ensures Valid() && View() == StopAt(old(View()), i)
      ensures forall j | 0 <= j < LIST_SIZE && j != i :: list[j] == old(list[j])
    {
      if list[i].isRunning != 0 {
        var pid := list[i].pid;
        list[i] := list[i].(isRunning := 0);
        KillProcess(pid);
        list[i] := list[i].(pid := 0);
        list[i] := list[i].(startTime := 0);
        list[i] := list[i].(restartTimes := 0);
        assert View().live == StopAt(old(View()), i).live;
      }
    }

    method SetRestartTimes(i: nat, times: int)
      requires Valid() && i < count
      modifies list
      ensures Valid() && View() == old(View()).(table := old(View()).table[i := old(list[i]).(restartTimes := times)])
    {
      list[i] := list[i].(restartTimes := times);
    }

    /** `server_restart_process` */
    method RestartSlot(i: nat)
      requires Valid() && i < count
      modifies this, list
      ensures Valid() && View() == RestartAt(old(View()), i)
      ensures count == old(count) && list[i].pid == old(forks) + 1
      ensures forall j | 0 <= j < LIST_SIZE && j != i :: list[j] == old(list[j])
    {
      StopSlot(i);
      assert count == |View().table| && forks == View().forks == old(forks);
      StartSlot(i, Restarted);
      SetRestartTimes(i, list[i].restartTimes + 1);
    }

    /** `server_remove_process`: the count is lowered whatever the deletion by name finds. */
    method RemoveSlot(i: nat)
      requires Valid() && i < count && Scan(list[..], 0) < LIST_SIZE
      modifies this, list
      ensures Valid() && View() == RemoveAt(old(View()), i)
    {
      hide StopAt, Scan, LastNamed, Shifted;
      ghost var before := View();
      ViewSlots();
      StopScan(before, i);
      StopSlot(i);
      ViewSlots();
      ghost var slots := list[..];
      var res := DelProcessByAppName(list, list[i].name);
      assert list[..] == Deleted(slots, slots[i].name);
      count := count - 1;
      assert View().table == list[..][..count] && View().rest == list[..][count..];
    }

    lemma ViewSlots()
      requires Valid()
      ensures Slots(View()) == list[..]
    {
    }

    /** `server_start_process_with_cmd` */
    method StartWithCmdSlot(process0: App)
      requires Valid() && count < LIST_SIZE
      modifies this, list
      ensures Valid() && View() == StartWithCmd(old(View()), process0)
      ensures count == old(count) + 1 && forks == old(forks) + 1
      ensures list[count - 1] == App(process0.name, process0.cmd, process0.dir, forks, 1, count - 1, 0, now)
      ensures forall j | 0 <= j < LIST_SIZE && j != count - 1 :: list[j] == old(list[j])
    {
      var process := StartProcess(process0, Started);
      process := process.(id := count);
      list[count] := process;
      count := count + 1;
      assert View().table == StartWithCmd(old(View()), process0).table;
    }

    // ---------------------------------------------------------- all processes

    /** `server_start_all_process` */
    method StartAll()
      requires Valid()
      modifies this, list
      ensures Valid() && View() == StartAllFrom(old(View()), 0)
    {
      hide StartAt;
      var i := 0;
      while i < count
        invariant Valid() && i <= count && StartAllFrom(View(), i) == StartAllFrom(old(View()), 0)
        decreases count - i
      {
        if list[i].isRunning == 0 { StartSlot(i, Started); }
        i := i + 1;
      }
    }

    /** `server_stop_all_process` */
    method StopAll()
      requires Valid()
      modifies this, list
      ensures Valid() && View() == StopAllFrom(old(View()), 0)
    {
      hide StopAt;
      var i := 0;
      while i < count
        invariant Valid() && i <= count && StopAllFrom(View(), i) == StopAllFrom(old(View()), 0)
        decreases count - i
      {
        StopSlot(i);
        i := i + 1;
      }
    }

    // ------------------------------------------------------------- resolution

    /** `get_process_id` */
    method FindProcessId(buffer: string) returns (id: int)
      requires Valid()
      ensures id == GetProcessId(buffer, count)
    {
      var number := CheckNumber(buffer);
      if number {
        id := Atoi(buffer);
        if id >= 0 && id < count { return id; }
      }
      return -1;
    }

    /** The loop that looks for a name, in resolution, `get_pos_in_process_list` and the search for a duplicate. */
    method FindName(name: string) returns (k: nat)
      requires Valid()
      ensures k == FirstNamed(View().table, name, 0)
    {
      k := 0;
      while k < count
        invariant k <= count && FirstNamed(View().table, name, 0) == FirstNamed(View().table, name, k)
      {
        if list[k].name == name { return k; }
        k := k + 1;
      }
    }

    /** `parse_process_and_process_type` */
    method ParseProcessAndType(buffer: string) returns (target: Target)
      requires Valid() && CString(buffer) && Parsable(View().table, buffer)
      ensures target == Resolve(View().table, buffer)
    {
      hide ParseText, Complete, Copyable, Filled, CStrings, CString, GetProcessId;
      var id := FindProcessId(buffer);
      if id != -1 { return Entry(list[id]); }
      var k := FindName(buffer);
      if k < count { return Entry(list[k]); }
      var r := Parser.ParseTextAt(buffer, false);
      if r.Failed? { return NoTarget; }
      ParsedText(buffer);
      var process, ok := ParseProcessCJSON(BLANK, r.value);
      if !ok { return NoTarget; }
      return Cmd(process);
    }

    // --------------------------------------------------------------- requests

    /** `get_error_reponse` */
    method ErrorResponse(buffer: string) returns (response: Response)
      ensures response == NotFound(buffer)
    {
      var number := CheckNumber(buffer);
      if number { response := NoSuchId(buffer); } else { response := NoSuchName(buffer); }
    }

    /** `server_start_process_and_get_response` */
    method StartRequest(buffer: string) returns (response: Response)
      requires Valid() && Defined(View(), "start", buffer)
      modifies this, list
      ensures Valid() && View() == Start(old(View()), buffer) && response == StartReply(old(View()), buffer)
      ensures OneChanged(old(list[..]), list[..])
    {
      hide Resolve, StartWithCmd, StartAt, OneChanged;
      ghost var slots := list[..];
      NoneChanged(slots);
      EntryListed(View().table, buffer);
      var target := ParseProcessAndType(buffer);
      if target.Cmd? {
        var k := FindName(target.process.name);
        if k < count { return DuplicatedName(target.process.name); }
        StartWithCmdSlot(target.process);
        SlotChanged(slots, list[..], count - 1);
        response := NewlyStarted(target.process.name, list[count - 1].pid);
      } else if target.Entry? {
        if target.app.isRunning == 0 {
          var pos := FindName(target.app.name);
          StartSlot(pos, Started);
          SlotChanged(slots, list[..], pos);
          response := StartedApp(target.app.name, list[pos].pid);
        } else {
          response := AlreadyRunning(target.app.name);
        }
      } else {
        response := ErrorResponse(buffer);
      }
    }

    /** `server_stop_process_and_get_response` */
    method StopRequest(buffer: string) returns (response: Response)
      requires Valid() && Defined(View(), "stop", buffer)
      modifies this, list
      ensures Valid() && View() == Stop(old(View()), buffer) && response == StopReply(old(View()), buffer)
      ensures OneChanged(old(list[..]), list[..])
    {
      hide Resolve, StopAt;
      EntryListed(View().table, buffer);
      var target := ParseProcessAndType(buffer);
      if !target.Entry? {
        response := ErrorResponse(buffer);
      } else if target.app.isRunning != 0 {
        var pos := FindName(target.app.name);
        StopSlot(pos);
        response := StoppedApp(target.app.name);
      } else {
        response := NotRunning(target.app.name);
      }
    }

    /** `server_restart_process_and_get_response` */
    method RestartRequest(buffer: string) returns (response: Response)
      requires Valid() && Defined(View(), "restart", buffer)
      modifies this, list
      ensures Valid() && View() == Restart(old(View()), buffer) && response == RestartReply(old(View()), buffer)
      ensures OneChanged(old(list[..]), list[..])
    {
      hide Resolve, RestartAt;
      EntryListed(View().table, buffer);
      var target := ParseProcessAndType(buffer);
      if !target.Entry? {
        response := ErrorResponse(buffer);
      } else if target.app.isRunning != 0 {
        var pos := FindName(target.app.name);
        RestartSlot(pos);
        response := RestartedApp(target.app.name, list[pos].pid);
      } else {
        response := NotRunning(target.app.name);
      }
    }

    /** `server_remove_process_and_get_response`, which decides on its copy of the process. */
    method RemoveRequest(buffer: string) returns (response: Response)
      requires Valid() && Defined(View(), "remove", buffer)
      modifies this, list
      ensures Valid() && View() == Remove(old(View()), buffer) && response == RemoveReply(old(View()), buffer)
    {
      hide Resolve, RemoveAt;
      EntryListed(View().table, buffer);
      var target := ParseProcessAndType(buffer);
      if !target.Entry? {
        response := ErrorResponse(buffer);
      } else {
        var pos := FindName(target.app.name);
        var appName := list[pos].name;
        RemoveSlot(pos);
        response := RemovedApp(appName, target.app.isRunning != 0);
      }
    }

    /** The branches of the request loop. */
    method DispatchRequest(command: string, argument: string) returns (response: Response)
      requires Valid() && Defined(View(), command, argument)
      modifies this, list
      ensures Valid() && View() == Dispatch(old(View()), command, argument)
      ensures response == Reply(old(View()), command, argument)
    {
      hide Defined, StartAllFrom, StopAllFrom, Start, Stop, Restart, Remove;
      hide StartReply, StopReply, RestartReply, RemoveReply;
      if command == "startall" {
        StartAll();
        response := StartedAll;
      } else if command == "stopall" {
        StopAll();
        response := StoppedAll;
      } else if command == "status" {
        response := Status(list[..count]);
      } else if command == "start" {
        response := StartRequest(argument);
      } else if command == "stop" {
        response := StopRequest(argument);
      } else if command == "restart" {
        response := RestartRequest(argument);
      } else if command == "remove" {
        response := RemoveRequest(argument);
      } else if command == "ping" {
        response := Pong;
      } else {
        response := ErrorCommand;
      }
    }

    /** `save_process_list` */
    method SaveList()
      requires Valid() && Sound(View())
      modifies `file
      ensures Valid() && View() == Save(old(View()))
    {
      hide Savable, FileText, Scan;
      ViewSlots();
      var n := GetProcessListCount(list);
      file := CreateProcessListJson(list, n);
      assert list[..][..n] == list[..n];
    }

    /** One request, from lock to unlock. */
    method HandleRequest(command: string, argument: string) returns (response: Response)
      requires Valid() && Sound(View()) && Possible(View(), Request(command, argument))
      modifies this, list
      ensures Valid() && View() == Step(old(View()), Request(command, argument))
      ensures response == Reply(old(View()), command, argument)
    {
      DispatchSound(View(), command, argument);
      hide Sound, Defined, Dispatch, FileText, Contents, Reply;
      response := DispatchRequest(command, argument);
      SaveList();
    }

    // ----------------------------------------------------------------- reaper

    /** `wait(NULL)`, outside the lock. */
    method WaitChild(pid: Pid)
      requires Valid() && Possible(View(), Wait(pid))
      modifies `pending, `zombies
      ensures Valid() && View() == Step(old(View()), Wait(pid))
    {
      hide Dispatch, HandleFrom;
      pending := Some(pid);
      zombies := zombies - {pid};
    }

    /** What the reaper does under the lock with the pid it waited for. */
    method HandlePending()
      requires Valid() && pending.Some?
      modifies this, list
      ensures Valid() && View() == Step(old(View()), Handle)
    {
      hide Dispatch, StartAt, QuickStopAt;
      var pid := pending.value;
      var i := 0;
      ghost var done := HandleFrom(View(), pid, 0);
      while i < count
        invariant Valid() && i <= count && HandleFrom(View(), pid, i) == done
        decreases count - i
      {
        if list[i].pid == pid {
          if list[i].isRunning == 0 { break; }
          if list[i].startTime == now {
            QuickStopSlot(i);
            break;
          }
          ReviveSlot(i);
        }
        i := i + 1;
      }
      assert View() == done;
      pending := None;
    }

    method QuickStopSlot(i: nat)
      requires Valid() && i < count
      modifies list
      ensures Valid() && View() == QuickStopAt(old(View()), i)
    {
      list[i] := list[i].(isRunning := 0);
      list[i] := list[i].(pid := 0);
    }

    /** The restart of a dead app: the count is saved across `server_start_process`, which zeroes it. */
    method ReviveSlot(i: nat)
      requires Valid() && i < count
      modifies this, list
      ensures Valid() && View() == StartAt(old(View()), i, Revived, old(list[i]).restartTimes + 1)
    {
      var restartTimes := list[i].restartTimes;
      StartSlot(i, Revived);
      SetRestartTimes(i, restartTimes + 1);
    }

    // ------------------------------------------------------------ interleaving

    /** A child dies by itself. */
    method ChildExits(pid: Pid)
      requires Valid()
      modifies this
      ensures Valid() && View() == Step(old(View()), Exit(pid))
    {
      hide Dispatch, HandleFrom;
      KillProcess(pid);
      assert View().live == Kill(old(View()), pid).live && View().zombies == Kill(old(View()), pid).zombies;
    }

    /** The two threads and the kernel taking turns: the server's state is the machine's after
        every run that C defines. */
    method Interleave(es: seq<Event>)
      requires Valid() && Sound(View()) && Feasible(View(), es)
      modifies this, list
      ensures Valid() && Sound(View()) && View() == Run(old(View()), es)
    {
      hide Sound, Possible, Step;
      var i := 0;
      while i < |es|
        invariant i <= |es| && Valid() && Sound(View()) && Feasible(View(), es[i..])
        invariant Run(View(), es[i..]) == Run(old(View()), es)
      {
        Unrolled(View(), es[i..]);
        assert es[i..][1..] == es[i + 1..];
        Turn(es[i]);
        i := i + 1;
      }
    }

    method Turn(e: Event)
      requires Valid() && Sound(View()) && Possible(View(), e)
      modifies this, list
      ensures Valid() && Sound(View()) && View() == Step(old(View()), e)
    {
      hide Sound, Dispatch, HandleFrom, Defined, FileText, Contents;
      StepSound(View(), e);
      match e
      case Request(command, argument) => var _ := HandleRequest(command, argument);
      case Exit(pid) => ChildExits(pid);
      case Wait(pid) => WaitChild(pid);
      case Handle => HandlePending();
      case Clock(t) => now := t;
      case OtherForks(n) => forks := forks + n;
    }

    /** With tidy slots the count is what a scan of them finds. */
    lemma CountIsScan()
      requires Valid() && TidySlots(View())
      ensures Scan(list[..], 0) == count && Contents(list[..]) == View().table
    {
      ViewSlots();
      ScanStops(list[..], count);
    }

    // ---------------------------------------------------------------- startup

    /** `service_start` up to the reaper's loop, on what was read of the file. */
    method ServiceStart(text: string)
      requires list.Length == LIST_SIZE && list[..] == Blanks() && file == text
      requires count == 0 && live == map[] && zombies == {} && forks == 0 && pending.None? && log == []
      requires CString(text) && Loadable(text, LIST_SIZE)
      modifies this, list
      ensures Valid() && View() == Startup(text, old(now))
    {
      hide LoadedSlots, LoadedCount, StartLoadedAt, Loadable, CString;
      LoadList(text);
      assert View() == Load(text, old(now));
      var i := 0;
      while i < count
        invariant Valid() && i <= count && StartLoadedFrom(View(), i) == Startup(text, old(now))
        decreases count - i
      {
        StartLoadedSlot(i);
        i := i + 1;
      }
    }

    method StartLoadedSlot(i: nat)
      requires Valid() && i < count
      modifies this, list
      ensures Valid() && View() == StartLoadedAt(old(View()), i)
    {
      hide StartAt;
      list[i] := list[i].(id := i);
      assert View().table == old(View()).table[i := old(list[i]).(id := i)];
      if list[i].isRunning != 0 { StartSlot(i, Started); }
    }

    /** The loading of the table, where a failure counts as no apps. */
    method LoadList(text: string)
      requires list.Length == LIST_SIZE && list[..] == Blanks()
      requires CString(text) && Loadable(text, LIST_SIZE)
      modifies `count, list
      ensures Valid() && list[..] == LoadedSlots(text) && count == LoadedCount(text)
    {
      hide ParseText, Loadable, Loaded, CString;
      var res := -1;
      if |text| > 0 { res := ParseProcessList(list, text); }
      count := if res == -1 then 0 else res;
    }
  }

  /** A service from its start on, through every run that C defines, whatever the file holds. */
  method RunService(text: string, clock: int, es: seq<Event>) returns (server: Server)
    requires CString(text) && Loadable(text, LIST_SIZE) && Feasible(Startup(text, clock), es)
    ensures fresh(server) && server.Valid() && server.View() == Run(Startup(text, clock), es)
  {
    SupervisorRuns.StartupSound(text, clock);
    hide Sound, Loadable, Startup, CString, Feasible, Run;
    server := new Server(text, clock);
    server.ServiceStart(text);
    server.Interleave(es);
  }

  /** From an orderly file with distinct names, through events that add only named apps, every state keeps the invariant. */
  method RunOrderly(text: string, clock: int, es: seq<Event>) returns (server: Server)
    requires CString(text) && Loadable(text, LIST_SIZE) && Orderly(text) && SupervisorRuns.Distinct(LoadedTable(text))
    requires Admissible(Startup(text, clock), es)
    ensures fresh(server) && server.Valid() && Inv(server.View()) && server.View() == Run(Startup(text, clock), es)
  {
    SupervisorRuns.Reached(text, clock, es);
    SupervisorRuns.AdmissibleFeasible(Startup(text, clock), es);
    hide Loadable, Orderly, LoadedTable, SupervisorRuns.Distinct, Startup, CString, Feasible, Admissible, Run, Inv;
    server := RunService(text, clock, es);
  }

  lemma Unrolled(st: State, es: seq<Event>)
    requires es != [] && Feasible(st, es)
    ensures Possible(st, es[0]) && Feasible(Step(st, es[0]), es[1..]) && Run(st, es) == Run(Step(st, es[0]), es[1..])
  {
    hide Possible, Step;
  }

  /** An entry that an argument resolves to has a name that the search finds. */
  lemma EntryListed(table: seq<App>, buffer: string)
    ensures var target := Resolve(table, buffer);
      target.Entry? ==> target.app in table && FirstNamed(table, target.app.name, 0) < |table|
  {
    hide GetProcessId, ParsedProcess;
  }

  /** Stopping changes no name that a scan sees. */
  lemma StopScan(st: State, i: nat)
    requires i < |st.table|
    ensures Scan(Slots(StopAt(st, i)), 0) == Scan(Slots(st), 0)
  {
    SameScan(Slots(st), Slots(StopAt(st, i)), 0);
  }

  lemma {:induction false} SameScan(a: seq<App>, b: seq<App>, i: nat)
    requires i <= |a| == |b| && forall j | 0 <= j < |a| :: a[j].name == b[j].name
    ensures Scan(a, i) == Scan(b, i)
    decreases |a| - i
  {
    if i < |a| { SameScan(a, b, i + 1); }
  }

  /** `is_number` */
  method CheckNumber(buffer: string) returns (number: bool)
    ensures number <==> IsNumber(buffer)
  {
    for i := 0 to |buffer|
      invariant forall j | 0 <= j < i :: IsDigit(buffer[j])
    {
      if !(buffer[i] <= '9' && buffer[i] >= '0') { return false; }
    }
    return true;
  }
}
