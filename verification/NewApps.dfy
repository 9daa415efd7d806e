/**
 Requests that start new apps one after the other: how a client brings the table to any
 length, with names and texts that address nothing listed.
 */
module NewApps {
  import opened CText
  import opened Json
  import opened ProcessList
  import opened Supervisor
  import BufferedPrinter
  import Literal
  import RoundTrip
  import Safety
  import SupervisorProofs

  function Named(name: string): App {
    BLANK.(name := name)
  }

  /** What the client sends to start a new app. */
  function NewAppText(name: string): string {
    Print(ProcessJson(Named(name)), 0, true)
  }

  function StartNew(name: string): Event {
    Request("start", NewAppText(name))
  }

  /** The name is longer than every listed one, and so is its request. */
  predicate Longest(t: seq<App>, name: string) {
    name != "" && forall i | 0 <= i < |t| :: |t[i].name| < |name|
  }

  // ---------------------------------------------------------------- the text

  lemma NamedPrintable(name: string)
    requires CString(name)
    ensures Printable(ProcessJson(Named(name))) && CString(NewAppText(name))
  {
    SupervisorProofs.BlankSavable();
    hide CString, Print, Printable;
    ProcessPrintable(Named(name));
    BufferedPrinter.PrintCString(ProcessJson(Named(name)), 0, true);
  }

  /** It is no number, and longer than the name in it. */
  lemma TextOfApp(name: string)
    ensures !IsNumber(NewAppText(name)) && |NewAppText(name)| > |name|
  {
    var ms := ProcessJson(Named(name)).members;
    EscapeLonger(name);
    hide Literal.Escape;
    assert Print(ms[0].value, 1, true) == Literal.Quote(name);
    assert |PrintMembers(ms, 0, true)| > |name|;
    hide PrintMembers;
    assert NewAppText(name)[0] == '{';
  }

  lemma {:induction false} EscapeLonger(s: string)
    ensures |Literal.Escape(s)| >= |s|
  {
    if s != "" { EscapeLonger(s[1..]); }
  }

  /** The service takes it as a new app of that name. */
  lemma NewAppResolves(t: seq<App>, name: string)
    requires CString(name) && Longest(t, name)
    ensures Resolve(t, NewAppText(name)) == Cmd(Named(name)) && Parsable(t, NewAppText(name))
    ensures FirstNamed(t, name, 0) == |t|
  {
    hide ParseText, Complete, Filled, Print, ProcessJson, Printable, Copyable, CString;
    NamedPrintable(name);
    TextOfApp(name);
    ProcessRoundTrip(Named(name), BLANK);
    RoundTrip.TextRoundTrip(ProcessJson(Named(name)), true, false);
    Safety.PrintedSafe(ProcessJson(Named(name)), true);
    assert FirstNamed(t, NewAppText(name), 0) == |t|;
    assert FirstNamed(t, name, 0) == |t|;
  }

  /** So its start adds it to the table. */
  lemma StartsNew(st: State, name: string)
    requires CString(name) && Longest(st.table, name) && |st.table| + 1 < LIST_SIZE && st.rest != []
    ensures Enabled(st, StartNew(name)) && Step(st, StartNew(name)) == Save(StartWithCmd(st, Named(name)))
    ensures Added(st, Step(st, StartNew(name)), name)
  {
    hide Resolve, Parsable, CString, NewAppText, FileText, Contents, StartWithCmd;
    NewAppResolves(st.table, name);
    assert CString(NewAppText(name)) by { NamedPrintable(name); }
    AddedNew(st, name);
  }

  /** `now` is `st` with one more app, its child alive. */
  ghost predicate Added(st: State, now: State, name: string) {
    && |now.table| == |st.table| + 1 && now.table[..|st.table|] == st.table
    && now.table[|st.table|].name == name && now.table[|st.table|].isRunning == 1
    && now.table[|st.table|].pid == now.forks == st.forks + 1
    && now.live == st.live[now.forks := name]
    && now.rest == (if st.rest == [] then [] else st.rest[1..])
  }

  lemma AddedNew(st: State, name: string)
    ensures Added(st, Save(StartWithCmd(st, Named(name))), name)
  {
    hide FileText, Contents;
  }

  // -------------------------------------------------------------------- runs

  lemma {:induction false} RunJoin(st: State, es: seq<Event>, more: seq<Event>)
    ensures Run(st, es + more) == Run(Run(st, es), more)
    ensures Admissible(st, es + more) <==> Admissible(st, es) && Admissible(Run(st, es), more)
    decreases |es|
  {
    hide Step, Enabled;
    if es == [] {
      assert es + more == more;
    } else {
      assert (es + more)[1..] == es[1..] + more;
      RunJoin(Step(st, es[0]), es[1..], more);
    }
  }

  lemma RunOne(st: State, e: Event)
    ensures Run(st, [e]) == Step(st, e) && (Admissible(st, [e]) <==> Enabled(st, e))
  {
    hide Step, Enabled;
    assert [e][1..] == [];
  }

  /** One event after a run. */
  lemma RunThen(st: State, es: seq<Event>, e: Event)
    ensures Run(st, es + [e]) == Step(Run(st, es), e)
    ensures Admissible(st, es + [e]) <==> Admissible(st, es) && Enabled(Run(st, es), e)
  {
    hide Step, Enabled;
    RunJoin(st, es, [e]);
    RunOne(Run(st, es), e);
  }

  function Pad(n: nat): (r: string)
    ensures |r| == n && CString(r)
  {
    seq(n, _ => 'a')
  }

  /** Names of growing length, of which `x` is the first. */
  function NameAt(x: string, i: nat): (r: string)
    ensures |r| == |x| + i
  {
    if i == 0 then x else Pad(|x| + i)
  }

  function Adds(x: string, n: nat): (r: seq<Event>)
    ensures |r| == n
  {
    seq(n, i requires 0 <= i < n => StartNew(NameAt(x, i)))
  }

  /** Entry `i` is the app that was added as number `i`, its child alive. */
  ghost predicate AddedAt(now: State, x: string, forks: nat, i: int)
    requires 0 <= i < |now.table|
  {
    var a := now.table[i];
    a.name == NameAt(x, i) && a.isRunning == 1 && a.pid == forks + i + 1 && a.pid in now.live && now.live[a.pid] == a.name
  }

  /** `n` new apps fill the first `n` slots and leave the later ones as they were. */
  lemma {:induction false} AddsFill(st: State, x: string, n: nat)
    requires st.table == [] && |st.rest| == LIST_SIZE && n < LIST_SIZE && CString(x) && x != ""
    ensures Admissible(st, Adds(x, n))
    ensures var now := Run(st, Adds(x, n));
      && |now.table| == n && now.rest == st.rest[n..] && now.forks == st.forks + n
      && forall i | 0 <= i < n :: AddedAt(now, x, st.forks, i)
    decreases n
  {
    hide Run, Admissible, Step, Enabled, StartNew, CString;
    if n == 0 {
      assert Run(st, []) == st && Admissible(st, []) by { hide *; NoEvents(st); }
    } else {
      AddsFill(st, x, n - 1);
      var mid := Run(st, Adds(x, n - 1));
      var name := NameAt(x, n - 1);
      assert CString(name) by { PadCString(x, n - 1); }
      assert Longest(mid.table, name) by { hide *; AddedLongest(mid, x, st.forks); }
      hide Longest;
      StartsNew(mid, name);
      RunThen(st, Adds(x, n - 1), StartNew(name));
      assert Adds(x, n) == Adds(x, n - 1) + [StartNew(name)];
      AddedNext(mid, Step(mid, StartNew(name)), x, st.forks);
    }
  }

  lemma AddedLongest(st: State, x: string, forks: nat)
    requires x != "" && forall i | 0 <= i < |st.table| :: AddedAt(st, x, forks, i)
    ensures Longest(st.table, NameAt(x, |st.table|))
  {
    forall i | 0 <= i < |st.table|
      ensures |st.table[i].name| < |NameAt(x, |st.table|)|
    {
      assert AddedAt(st, x, forks, i);
    }
  }

  lemma AddedNext(st: State, now: State, x: string, forks: nat)
    requires Added(st, now, NameAt(x, |st.table|)) && st.forks == forks + |st.table|
    requires forall i | 0 <= i < |st.table| :: AddedAt(st, x, forks, i)
    ensures forall i | 0 <= i < |now.table| :: AddedAt(now, x, forks, i)
  {
    forall i | 0 <= i < |now.table|
      ensures AddedAt(now, x, forks, i)
    {
      if i < |st.table| { assert AddedAt(st, x, forks, i) && now.table[i] == now.table[..|st.table|][i]; }
    }
  }

  lemma NoEvents(st: State)
    ensures Run(st, []) == st && Admissible(st, [])
  {
  }

  lemma PadCString(x: string, i: nat)
    requires CString(x)
    ensures CString(NameAt(x, i))
  {
  }
}
