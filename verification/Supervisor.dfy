/**
 The supervisor (src/server.c) as a state machine. A request, or the reaper's handling
 of one dead child, is one step under the mutex; a child's death and the reaper's
 `wait` are steps of their own, so requests can fall between them.
 */
module Supervisor {
  import opened CText
  import opened Json
  import opened ProcessList
  import opened Safety

  type Pid = int

  /** How a child came to be forked. */
  datatype Kind = Started | Restarted | Revived

  datatype Action = Action(name: string, kind: Kind)

  /** The process table, which is the slots before the count, the slots after it, the kernel's
      view of the server's direct children, the reaper's pending pid, the clock, what a reader of
      the saved file finds, and the history of forks. */
  datatype State = State(
    table: seq<App>,
    rest: seq<App>,
    live: map<Pid, string>,
    zombies: set<Pid>,
    forks: nat,
    pending: Option<Pid>,
    now: int,
    file: string,
    log: seq<Action>)

  /** The array of slots, which saving and deleting scan for the first one without a name. */
  function Slots(st: State): seq<App> {
    st.table + st.rest
  }

  // -------------------------------------------------------------- operations

  /** `server_start_process` on entry `i`, with the restart count its caller leaves. */
  function StartAt(st: State, i: nat, kind: Kind, times: int): (r: State)
    requires i < |st.table|
    ensures |r.table| == |st.table| && r.rest == st.rest
  {
    var pid := st.forks + 1;
    var a := st.table[i];
    st.(
      table := st.table[i := a.(pid := pid, isRunning := 1, restartTimes := times, startTime := st.now)],
      live := st.live[pid := a.name],
      forks := pid,
      log := st.log + [Action(a.name, kind)])
  }

  /** `kill_process`, as far as the server's own child is concerned. */
  function Kill(st: State, pid: Pid): State {
    if pid in st.live then st.(live := st.live - {pid}, zombies := st.zombies + {pid}) else st
  }

  /** `server_stop_process` on entry `i`. */
  function StopAt(st: State, i: nat): (r: State)
    requires i < |st.table|
    ensures |r.table| == |st.table| && r.rest == st.rest
  {
    var a := st.table[i];
    if a.isRunning == 0 then st
    else Kill(st.(table := st.table[i := a.(isRunning := 0, pid := 0, startTime := 0, restartTimes := 0)]), a.pid)
  }

  /** `server_restart_process` on entry `i`. */
  function RestartAt(st: State, i: nat): State
    requires i < |st.table|
  {
    StartAt(StopAt(st, i), i, Restarted, 1)
  }

  /** `del_process_by_app_name` on the slots, where it stays inside them. */
  function Deleted(slots: seq<App>, name: string): (r: seq<App>)
    ensures |r| == |slots|
  {
    var n := Scan(slots, 0);
    var k := LastNamed(slots, name, n);
    if k == -1 || n == |slots| then slots else Shifted(slots, k, n)
  }

  /** `server_remove_process` on entry `i`: the count is lowered whatever was found. */
  function RemoveAt(st: State, i: nat): State
    requires i < |st.table|
  {
    var stopped := StopAt(st, i);
    var slots := Deleted(Slots(stopped), stopped.table[i].name);
    var n := |st.table| - 1;
    stopped.(table := slots[..n], rest := slots[n..])
  }

  /** `server_start_process_with_cmd`, into the first slot after the table. */
  function StartWithCmd(st: State, process: App): State {
    var entry := process.(id := |st.table|);
    StartAt(st.(table := st.table + [entry], rest := if st.rest == [] then [] else st.rest[1..]), |st.table|, Started, 0)
  }

  /** `server_start_all_process` from entry `i` on. */
  function StartAllFrom(st: State, i: nat): (r: State)
    requires i <= |st.table|
    ensures |r.table| == |st.table| && r.rest == st.rest
    decreases |st.table| - i
  {
    if i == |st.table| then st
    else StartAllFrom(if st.table[i].isRunning != 0 then st else StartAt(st, i, Started, 0), i + 1)
  }

  /** `server_stop_all_process` from entry `i` on. */
  function StopAllFrom(st: State, i: nat): (r: State)
    requires i <= |st.table|
    ensures |r.table| == |st.table| && r.rest == st.rest
    decreases |st.table| - i
  {
    if i == |st.table| then st else StopAllFrom(StopAt(st, i), i + 1)
  }

  /** An app that stopped in the second it was started in is left stopped. */
  function QuickStopAt(st: State, i: nat): (r: State)
    requires i < |st.table|
    ensures |r.table| == |st.table| && r.rest == st.rest
  {
    st.(table := st.table[i := st.table[i].(isRunning := 0, pid := 0)])
  }

  /** The reaper's loop from entry `i` on. */
  function HandleFrom(st: State, pid: Pid, i: nat): (r: State)
    requires i <= |st.table|
    ensures |r.table| == |st.table| && r.rest == st.rest
    decreases |st.table| - i
  {
    if i == |st.table| then st
    else if st.table[i].pid != pid then HandleFrom(st, pid, i + 1)
    else if st.table[i].isRunning == 0 then st
    else if st.table[i].startTime == st.now then QuickStopAt(st, i)
    else HandleFrom(StartAt(st, i, Revived, st.table[i].restartTimes + 1), pid, i + 1)
  }

  // -------------------------------------------------------------- resolution

  predicate IsNumber(s: string) {
    forall i | 0 <= i < |s| :: IsDigit(s[i])
  }

  const LONG_MAX := 0x7FFF_FFFF_FFFF_FFFF

  /** `atoi` of digits: `strtol`, which saturates, cut to 32 bits. */
  function Atoi(s: string): int {
    var n := Digits(s, 0).0;
    var low := (if n > LONG_MAX then LONG_MAX else n) % 0x1_0000_0000;
    if low > INT_MAX then low - 0x1_0000_0000 else low
  }

  /** `get_process_id` */
  function GetProcessId(s: string, count: nat): (id: int)
    ensures -1 <= id < count
  {
    if IsNumber(s) && 0 <= Atoi(s) < count then Atoi(s) else -1
  }

  /** The first entry with this name, or the length of the table. */
  function FirstNamed(table: seq<App>, name: string, i: nat): (k: nat)
    requires i <= |table|
    ensures i <= k <= |table|
    ensures k < |table| ==> table[k].name == name
    ensures forall j | i <= j < k :: table[j].name != name
    decreases |table| - i
  {
    if i == |table| || table[i].name == name then i else FirstNamed(table, name, i + 1)
  }

  /** What `parse_process_and_process_type` copies out: an entry of the table or a new process. */
  datatype Target = Entry(app: App) | Cmd(process: App) | NoTarget

  function Resolve(table: seq<App>, buffer: string): Target {
    var id := GetProcessId(buffer, |table|);
    var k := FirstNamed(table, buffer, 0);
    if id != -1 then Entry(table[id])
    else if k < |table| then Entry(table[k])
    else ParsedProcess(buffer)
  }

  /** `parse_process` */
  function ParsedProcess(buffer: string): (target: Target)
    ensures !target.Entry?
  {
    var r := ParseText(buffer, false);
    if r.Ok? && Complete(r.value) then Cmd(Filled(BLANK, r.value)) else NoTarget
  }

  // ---------------------------------------------------------------- requests

  function Start(st: State, buffer: string): State {
    var target := Resolve(st.table, buffer);
    if target.NoTarget? then st
    else if target.Cmd? then
      if FirstNamed(st.table, target.process.name, 0) < |st.table| then st
      else StartWithCmd(st, target.process)
    else
      var pos := FirstNamed(st.table, target.app.name, 0);
      if target.app.isRunning == 0 && pos < |st.table| then StartAt(st, pos, Started, 0) else st
  }

  function Stop(st: State, buffer: string): State {
    var target := Resolve(st.table, buffer);
    if !target.Entry? then st
    else
      var pos := FirstNamed(st.table, target.app.name, 0);
      if target.app.isRunning != 0 && pos < |st.table| then StopAt(st, pos) else st
  }

  function Restart(st: State, buffer: string): State {
    var target := Resolve(st.table, buffer);
    if !target.Entry? then st
    else
      var pos := FirstNamed(st.table, target.app.name, 0);
      if target.app.isRunning != 0 && pos < |st.table| then RestartAt(st, pos) else st
  }

  function Remove(st: State, buffer: string): State {
    var target := Resolve(st.table, buffer);
    if !target.Entry? then st
    else
      var pos := FirstNamed(st.table, target.app.name, 0);
      if pos < |st.table| then RemoveAt(st, pos) else st
  }

  /** The branches of the request loop; the others answer without a change. */
  function Dispatch(st: State, command: string, argument: string): State {
    if command == "startall" then StartAllFrom(st, 0)
    else if command == "stopall" then StopAllFrom(st, 0)
    else if command == "start" then Start(st, argument)
    else if command == "stop" then Stop(st, argument)
    else if command == "restart" then Restart(st, argument)
    else if command == "remove" then Remove(st, argument)
    else st
  }

  // --------------------------------------------------------------- responses

  /** What a client is told. */
  datatype Response =
    | StartedAll
    | StoppedAll
    | Status(table: seq<App>)
    | NewlyStarted(name: string, pid: Pid)
    | StartedApp(name: string, pid: Pid)
    | AlreadyRunning(name: string)
    | DuplicatedName(name: string)
    | StoppedApp(name: string)
    | NotRunning(name: string)
    | RestartedApp(name: string, pid: Pid)
    | RemovedApp(name: string, stopped: bool)
    | NoSuchId(id: string)
    | NoSuchName(name: string)
    | Pong
    | ErrorCommand

  /** `get_error_reponse` */
  function NotFound(buffer: string): Response {
    if IsNumber(buffer) then NoSuchId(buffer) else NoSuchName(buffer)
  }

  function StartReply(st: State, buffer: string): Response {
    var target := Resolve(st.table, buffer);
    if target.NoTarget? then NotFound(buffer)
    else if target.Cmd? then
      if FirstNamed(st.table, target.process.name, 0) < |st.table| then DuplicatedName(target.process.name)
      else NewlyStarted(target.process.name, st.forks + 1)
    else if target.app.isRunning == 0 then StartedApp(target.app.name, st.forks + 1)
    else AlreadyRunning(target.app.name)
  }

  function StopReply(st: State, buffer: string): Response {
    var target := Resolve(st.table, buffer);
    if !target.Entry? then NotFound(buffer)
    else if target.app.isRunning != 0 then StoppedApp(target.app.name)
    else NotRunning(target.app.name)
  }

  function RestartReply(st: State, buffer: string): Response {
    var target := Resolve(st.table, buffer);
    if !target.Entry? then NotFound(buffer)
    else if target.app.isRunning != 0 then RestartedApp(target.app.name, st.forks + 1)
    else NotRunning(target.app.name)
  }

  function RemoveReply(st: State, buffer: string): Response {
    var target := Resolve(st.table, buffer);
    if !target.Entry? then NotFound(buffer) else RemovedApp(target.app.name, target.app.isRunning != 0)
  }

  /** The response to a request, from the state it finds. */
  function Reply(st: State, command: string, argument: string): Response {
    if command == "startall" then StartedAll
    else if command == "stopall" then StoppedAll
    else if command == "status" then Status(st.table)
    else if command == "start" then StartReply(st, argument)
    else if command == "stop" then StopReply(st, argument)
    else if command == "restart" then RestartReply(st, argument)
    else if command == "remove" then RemoveReply(st, argument)
    else if command == "ping" then Pong
    else ErrorCommand
  }

  /** `save_process_list` */
  function Save(st: State): State {
    st.(file := FileText(Contents(Slots(st))))
  }

  // ----------------------------------------------------------------- startup

  /** The array as C zeroes it. */
  function Blanks(): seq<App> {
    seq(LIST_SIZE, _ => BLANK)
  }

  /** The slots after `parse_process_list_from_path`, which leaves them alone for an empty file. */
  function LoadedSlots(text: string): (r: seq<App>)
    ensures |r| == LIST_SIZE
  {
    if text == "" then Blanks() else Loaded(Blanks(), text).0
  }

  /** The count it returns, where a failure counts as no apps. */
  function LoadedCount(text: string): (n: nat)
    ensures n <= LIST_SIZE
  {
    var size := Loaded(Blanks(), text).1;
    if text == "" || size == -1 then 0 else size
  }

  function LoadedTable(text: string): seq<App> {
    LoadedSlots(text)[..LoadedCount(text)]
  }

  /** One turn of the loop that numbers the loaded apps and starts those marked as running. */
  function StartLoadedAt(st: State, i: nat): (r: State)
    requires i < |st.table|
    ensures |r.table| == |st.table| && r.rest == st.rest
  {
    var numbered := st.(table := st.table[i := st.table[i].(id := i)]);
    if st.table[i].isRunning == 0 then numbered else StartAt(numbered, i, Started, 0)
  }

  function StartLoadedFrom(st: State, i: nat): (r: State)
    requires i <= |st.table|
    ensures |r.table| == |st.table| && r.rest == st.rest
    decreases |st.table| - i
  {
    if i == |st.table| then st else StartLoadedFrom(StartLoadedAt(st, i), i + 1)
  }

  /** The state when the table has been loaded. */
  function Load(text: string, now: int): State {
    State(LoadedTable(text), LoadedSlots(text)[LoadedCount(text)..], map[], {}, 0, None, now, text, [])
  }

  function Startup(text: string, now: int): State {
    StartLoadedFrom(Load(text, now), 0)
  }

  // ------------------------------------------------------------------- steps

  datatype Event =
    | Request(command: string, argument: string)
    | Exit(pid: Pid)
    | Wait(pid: Pid)
    | Handle
    | Clock(now: int)
    | OtherForks(n: nat)

  /** When the event can happen, and C defines what it does. */
  ghost predicate Possible(st: State, e: Event) {
    match e
    case Request(command, argument) => Defined(st, command, argument)
    case Exit(pid) => pid in st.live
    case Wait(pid) => st.pending.None? && (pid in st.zombies || (pid == -1 && st.live == map[] && st.zombies == {}))
    case Handle => st.pending.Some?
    case _ => true
  }

  /** A parsed argument stays inside its memory, a new app finds a slot, and the shift of a
      deletion ends inside the array. */
  ghost predicate Defined(st: State, command: string, argument: string) {
    command in {"start", "stop", "restart", "remove"} ==>
      && CString(argument)
      && Parsable(st.table, argument)
      && (command == "start" && Starts(st.table, argument).Some? ==> st.rest != [])
      && (command == "remove" && Resolve(st.table, argument).Entry? ==> Scan(Slots(st), 0) < |Slots(st)|)
  }

  /** The new process that a start with this argument adds. */
  function Starts(table: seq<App>, argument: string): Option<App> {
    var target := Resolve(table, argument);
    if target.Cmd? && FirstNamed(table, target.process.name, 0) == |table| then Some(target.process) else None
  }

  /** A possible event that adds no app without a name, and leaves a slot free. */
  ghost predicate Enabled(st: State, e: Event) {
    Possible(st, e) && (e.Request? ==> Fitting(st.table, e.command, e.argument))
  }

  ghost predicate Fitting(table: seq<App>, command: string, argument: string) {
    command == "start" && Starts(table, argument).Some? ==>
      Starts(table, argument).value.name != "" && |table| + 1 < LIST_SIZE
  }

  /** An argument that is neither the number nor the name of an entry has complete escapes, and the
      strings that are copied from it are there. */
  ghost predicate Parsable(table: seq<App>, argument: string) {
    FirstNamed(table, argument, 0) == |table| && GetProcessId(argument, |table|) == -1 ==>
      var r := ParseText(argument, false);
      Safe(argument) && (r.Ok? ==> Copyable(r.value))
  }

  function Step(st: State, e: Event): State {
    match e
    case Request(command, argument) => Save(Dispatch(st, command, argument))
    case Exit(pid) => Kill(st, pid)
    case Wait(pid) => st.(pending := Some(pid), zombies := st.zombies - {pid})
    case Handle => if st.pending.None? then st else HandleFrom(st, st.pending.value, 0).(pending := None)
    case Clock(now) => st.(now := now)
    case OtherForks(n) => st.(forks := st.forks + n)
  }

  function Run(st: State, es: seq<Event>): State
    decreases |es|
  {
    if es == [] then st else Run(Step(st, es[0]), es[1..])
  }

  /** Every event of the run is possible when its turn comes. */
  ghost predicate Feasible(st: State, es: seq<Event>)
    decreases |es|
  {
    es == [] || (Possible(st, es[0]) && Feasible(Step(st, es[0]), es[1..]))
  }

  /** The same of the events that add only named apps and leave a slot free. */
  ghost predicate Admissible(st: State, es: seq<Event>)
    decreases |es|
  {
    es == [] || (Enabled(st, es[0]) && Admissible(Step(st, es[0]), es[1..]))
  }
}
