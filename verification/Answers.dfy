/**
 Which number an argument is, and exactly what a client is told of each request
 (src/server.c:349-362, 404-553).
 */
module Answers {
  import opened AppFields
  import opened CText
  import opened Json
  import opened ProcessList
  import opened Requests
  import opened Supervisor
  import opened SupervisorProofs
  import opened SupervisorRuns
  import RoundTrip

  // ----------------------------------------------------------------- numbers

  /** Digits are a number, read in decimal, stopped at 64 bits and cut to 32; it addresses an entry if there
      are more than that many. Nothing else is a number. */
  lemma NumberIs(s: string, count: nat)
    ensures IsNumber(s) <==> forall i | 0 <= i < |s| :: '0' <= s[i] <= '9'
    ensures !IsNumber(s) ==> GetProcessId(s, count) == -1
    ensures IsNumber(s) ==>
      var n := RoundTrip.Denotes(s, 0) % 4294967296;
      GetProcessId(s, count) == if RoundTrip.Denotes(s, 0) <= 9223372036854775807 && n <= 2147483647 && n < count then n else -1
  {
    hide Atoi, RoundTrip.Denotes;
    if IsNumber(s) { AtoiIs(s); }
  }

  lemma AtoiIs(s: string)
    requires IsNumber(s)
    ensures var n := RoundTrip.Denotes(s, 0); var low := n % 4294967296;
      Atoi(s) == if n > 9223372036854775807 then -1 else if low > 2147483647 then low - 4294967296 else low
  {
    hide RoundTrip.Denotes, Digits;
    assert s + "" == s;
    RoundTrip.DigitsTaken(s, 0, "");
  }

  /** So the decimal of an index addresses the entry there. */
  lemma IndexAddresses(t: seq<App>, i: nat)
    requires i < |t| <= 256
    ensures Addresses(t, Decimal(i), i)
  {
    RoundTrip.DecimalDenotes(i);
    NumberIs(Decimal(i), |t|);
    hide GetProcessId, RoundTrip.Denotes, Decimal;
  }

  // ----------------------------------------------------------------- replies

  lemma RequestReply(st: State, argument: string)
    ensures Reply(st, "start", argument) == StartReply(st, argument) && Reply(st, "stop", argument) == StopReply(st, argument)
    ensures Reply(st, "restart", argument) == RestartReply(st, argument) && Reply(st, "remove", argument) == RemoveReply(st, argument)
  {
    hide StartReply, StopReply, RestartReply, RemoveReply;
  }

  /** The reply to a request for a listed app. */
  lemma EntryReply(st: State, argument: string, i: nat)
    requires Core(st) && Addresses(st.table, argument, i)
    ensures var a := st.table[i]; var running := a.isRunning != 0;
      && Reply(st, "start", argument) == (if running then AlreadyRunning(a.name) else StartedApp(a.name, st.forks + 1))
      && Reply(st, "stop", argument) == (if running then StoppedApp(a.name) else NotRunning(a.name))
      && Reply(st, "restart", argument) == (if running then RestartedApp(a.name, st.forks + 1) else NotRunning(a.name))
      && Reply(st, "remove", argument) == RemovedApp(a.name, running)
  {
    CoreTable(st);
    AddressesResolved(st.table, argument, i);
    RequestReply(st, argument);
    hide Core, TableOk, Resolve, FirstNamed, Addresses, Reply;
  }

  /** Digits that address nothing are called an id, anything else a name. */
  lemma MissingReply(st: State, argument: string)
    requires Unaddressed(st.table, argument)
    ensures var reply := if forall i | 0 <= i < |argument| :: '0' <= argument[i] <= '9' then NoSuchId(argument) else NoSuchName(argument);
      && Reply(st, "stop", argument) == reply && Reply(st, "restart", argument) == reply && Reply(st, "remove", argument) == reply
      && (var r := ParseText(argument, false); !r.Ok? || !Complete(r.value) ==> Reply(st, "start", argument) == reply)
  {
    UnaddressedParsed(st.table, argument);
    NumberIs(argument, 0);
    RequestReply(st, argument);
    hide Resolve, ParseText, Complete, Filled, FirstNamed, IsNumber, GetProcessId, Reply, Unaddressed;
  }

  /** A description of an app is answered with its pid, or with its name if that is taken. */
  lemma NewReply(st: State, argument: string, name: string, cmd: string, dir: string, running: Value)
    requires Unaddressed(st.table, argument) && ParseText(argument, false).Ok?
    requires Says(ParseText(argument, false).value, Some(Str(name)), Some(Str(cmd)), Some(Str(dir)), Some(running))
    ensures Reply(st, "start", argument) ==
      if Taken(st.table, name) then DuplicatedName(name) else NewlyStarted(name, st.forks + 1)
  {
    hide FirstNamed, Says, Resolve, ParseText, ParsedProcess, Unaddressed, Taken, Reply, StartReply;
    UnaddressedParsed(st.table, argument);
    FirstTaken(st.table, name);
    Described(argument, name, cmd, dir, running);
    RequestReply(st, argument);
    CmdReply(st, argument);
  }

  lemma CmdReply(st: State, argument: string)
    requires Resolve(st.table, argument).Cmd?
    ensures var name := Resolve(st.table, argument).process.name;
      StartReply(st, argument) == if FirstNamed(st.table, name, 0) < |st.table| then DuplicatedName(name) else NewlyStarted(name, st.forks + 1)
  {
    hide FirstNamed, Resolve, NotFound;
  }

  lemma OtherReplies(st: State, argument: string, command: string)
    ensures Reply(st, "startall", argument) == StartedAll && Reply(st, "stopall", argument) == StoppedAll
    ensures Reply(st, "status", argument) == Status(st.table) && Reply(st, "ping", argument) == Pong
    ensures command !in {"startall", "stopall", "status", "start", "stop", "restart", "remove", "ping"} ==>
      Reply(st, command, argument) == ErrorCommand
  {
    hide StartReply, StopReply, RestartReply, RemoveReply;
  }
}
