/**
 `kill_process_by_pid` (src/process.c:63-77) over the kernel's table of live
 processes: killing a process gives its children to init, so a tree has to be
 killed from a list of children taken beforehand.
 */
module ProcessTree {

  type Pid = int

  /** Each live process with its parent; init itself is not in it. */
  type Forest = map<Pid, Pid>

  const INIT: Pid := 1

  /** `get_child_pids` looks at no pid above this one (src/proc_status.c:42). */
  const PID_LIMIT: Pid := 32767

  predicate Visible(q: Pid) {
    0 < q <= PID_LIMIT
  }

  // ------------------------------------------------------------- descendants

  /** `n` steps from child to parent lead from `q` to `p`; with `seen`, each child must be visible. */
  ghost predicate Climbs(m: Forest, q: Pid, p: Pid, n: nat, seen: bool)
    decreases n
  {
    if n == 0 then q == p
    else q in m && (seen ==> Visible(q)) && Climbs(m, m[q], p, n - 1, seen)
  }

  /** `p` and its descendants; with `seen`, those connected to it by visible children. */
  ghost function Tree(m: Forest, p: Pid, seen: bool): set<Pid> {
    set q | q in m && exists n: nat :: Climbs(m, q, p, n, seen)
  }

  /** A forest as a kernel has it: no process above itself, and every parent live or init. */
  ghost predicate IsForest(m: Forest) {
    && INIT !in m
    && (forall q | q in m :: m[q] in m || m[q] == INIT)
    && forall q, n: nat | q in m && n > 0 :: !Climbs(m, q, q, n, false)
  }

  /** The processes of `gone` dead and their surviving children given to init. */
  ghost function Killed(m: Forest, gone: set<Pid>): Forest {
    map q | q in m && q !in gone :: if m[q] in gone then INIT else m[q]
  }

  /** Two climbs of the same length from one process end at the same one; a longer climb goes on. */
  lemma {:induction false} ClimbsOn(m: Forest, q: Pid, a: Pid, i: nat, b: Pid, j: nat, seen: bool)
    requires Climbs(m, q, a, i, seen) && Climbs(m, q, b, j, seen) && i <= j
    ensures Climbs(m, a, b, j - i, seen)
    decreases i
  {
    if i > 0 { ClimbsOn(m, m[q], a, i - 1, b, j - 1, seen); }
  }

  lemma {:induction false} ClimbsAppend(m: Forest, q: Pid, a: Pid, i: nat, b: Pid, j: nat, seen: bool)
    requires Climbs(m, q, a, i, seen) && Climbs(m, a, b, j, seen)
    ensures Climbs(m, q, b, i + j, seen)
    decreases i
  {
    if i > 0 { ClimbsAppend(m, m[q], a, i - 1, b, j, seen); }
  }

  lemma {:induction false} ClimbsUnseen(m: Forest, q: Pid, p: Pid, n: nat)
    requires Climbs(m, q, p, n, true)
    ensures Climbs(m, q, p, n, false)
    decreases n
  {
    if n > 0 { ClimbsUnseen(m, m[q], p, n - 1); }
  }

  /** A climb through survivors is a climb in the forest before. */
  lemma {:induction false} ClimbsBefore(m: Forest, gone: set<Pid>, q: Pid, p: Pid, n: nat, seen: bool)
    requires INIT !in m && p != INIT && Climbs(Killed(m, gone), q, p, n, seen)
    ensures Climbs(m, q, p, n, seen)
    decreases n
  {
    if n > 0 {
      // A climb that reached init through a killed parent would end there.
      if m[q] !in gone { ClimbsBefore(m, gone, m[q], p, n - 1, seen); }
    }
  }

  /** A climb to `p` is untouched when nothing of the tree below `p` is killed. */
  lemma {:induction false} ClimbsAfter(m: Forest, gone: set<Pid>, q: Pid, p: Pid, n: nat)
    requires p in m && gone !! Tree(m, p, true) && Climbs(m, q, p, n, true)
    ensures Climbs(Killed(m, gone), q, p, n, true)
    decreases n
  {
    if n > 0 {
      assert q in Tree(m, p, true);
      assert Climbs(m, p, p, 0, true) && p in Tree(m, p, true);
      if n > 1 { assert m[q] in Tree(m, p, true); }
      ClimbsAfter(m, gone, m[q], p, n - 1);
    }
  }

  /** Killing others leaves the tree below a process as it was. */
  lemma TreeSurvives(m: Forest, gone: set<Pid>, p: Pid)
    requires INIT !in m && p in m && gone !! Tree(m, p, true)
    ensures p in Killed(m, gone) && Tree(Killed(m, gone), p, true) == Tree(m, p, true)
  {
    assert Climbs(m, p, p, 0, true);
    forall q, n: nat
      ensures Climbs(Killed(m, gone), q, p, n, true) <==> Climbs(m, q, p, n, true)
    {
      if Climbs(Killed(m, gone), q, p, n, true) { ClimbsBefore(m, gone, q, p, n, true); }
      if Climbs(m, q, p, n, true) { ClimbsAfter(m, gone, q, p, n); }
    }
    forall q | q in Tree(m, p, true)
      ensures q in Tree(Killed(m, gone), p, true)
    {
      var n: nat :| Climbs(m, q, p, n, true);
      assert Climbs(Killed(m, gone), q, p, n, true);
    }
  }

  lemma KilledForest(m: Forest, gone: set<Pid>)
    requires IsForest(m)
    ensures IsForest(Killed(m, gone))
  {
    forall q, n: nat | q in Killed(m, gone) && n > 0
      ensures !Climbs(Killed(m, gone), q, q, n, false)
    {
      if Climbs(Killed(m, gone), q, q, n, false) { ClimbsBefore(m, gone, q, q, n, false); }
    }
  }

  lemma KilledTwice(m: Forest, a: set<Pid>, b: set<Pid>)
    requires INIT !in b
    ensures Killed(Killed(m, a), b) == Killed(m, a + b)
  {
  }

  /** The children `get_child_pids` finds. */
  ghost function Children(m: Forest, p: Pid): set<Pid> {
    set q | q in m && m[q] == p && Visible(q)
  }

  /** Trees of different children share nothing, nor do they hold the parent. */
  lemma ChildrenApart(m: Forest, p: Pid, c: Pid, d: Pid)
    requires IsForest(m) && c in m && d in m && m[c] == p == m[d] && c != d
    ensures Tree(m, c, true) !! Tree(m, d, true)
  {
    forall q | q in Tree(m, c, true) && q in Tree(m, d, true)
      ensures false
    {
      var i: nat :| Climbs(m, q, c, i, true);
      var j: nat :| Climbs(m, q, d, j, true);
      var (low, high, n) := if i <= j then (c, d, j - i) else (d, c, i - j);
      if i <= j { ClimbsOn(m, q, c, i, d, j, true); } else { ClimbsOn(m, q, d, j, c, i, true); }
      ClimbsUnseen(m, low, high, n);
      // `low` climbs through the parent to `high`, whose parent is the same: a cycle.
      assert Climbs(m, p, high, n - 1, false);
      ClimbsAppend(m, high, p, 1, high, n - 1, false);
    }
  }

  lemma ParentAbove(m: Forest, p: Pid, c: Pid)
    requires IsForest(m) && c in m && m[c] == p
    ensures p !in Tree(m, c, true)
  {
    forall n: nat
      ensures !Climbs(m, p, c, n, true)
    {
      if Climbs(m, p, c, n, true) {
        ClimbsUnseen(m, p, c, n);
        assert Climbs(m, c, p, 1, false);
        ClimbsAppend(m, c, p, 1, c, n, false);
      }
    }
  }

  /** The last step of a climb is from a child found. */
  lemma {:induction false} LastStep(m: Forest, q: Pid, p: Pid, n: nat) returns (c: Pid)
    requires n > 0 && Climbs(m, q, p, n, true)
    ensures c in Children(m, p) && Climbs(m, q, c, n - 1, true)
    decreases n
  {
    if n == 1 {
      assert Climbs(m, m[q], p, 0, true);
      c := q;
    } else {
      c := LastStep(m, m[q], p, n - 1);
    }
  }

  /** The trees of the processes listed. */
  ghost function Trees(m: Forest, cs: seq<Pid>): set<Pid> {
    set q | q in m && exists i :: 0 <= i < |cs| && q in Tree(m, cs[i], true)
  }

  lemma TreeParts(m: Forest, p: Pid, cs: seq<Pid>)
    requires IsForest(m) && p != INIT && forall c :: c in cs <==> c in Children(m, p)
    ensures Tree(m, p, true) == {p} * m.Keys + Trees(m, cs)
  {
    if p !in m { NotLive(m, p); }
    assert Climbs(m, p, p, 0, true);
    forall q | q in Tree(m, p, true) && q != p
      ensures q in Trees(m, cs)
    {
      var n: nat :| Climbs(m, q, p, n, true);
      var c := LastStep(m, q, p, n);
      var i :| 0 <= i < |cs| && cs[i] == c;
      assert q in Tree(m, cs[i], true);
    }
    forall q | q in Trees(m, cs)
      ensures q in Tree(m, p, true)
    {
      var i :| 0 <= i < |cs| && q in Tree(m, cs[i], true);
      var n: nat :| Climbs(m, q, cs[i], n, true);
      assert cs[i] in cs;
      assert Climbs(m, m[cs[i]], p, 0, true) && Climbs(m, cs[i], p, 1, true);
      ClimbsAppend(m, q, cs[i], n, p, 1, true);
    }
  }

  class Kernel {
    var parent: Forest

    /** `get_child_pids`: the directory is read in some order of the kernel's choosing. */
    method GetChildPids(pid: Pid) returns (pids: seq<Pid>)
      ensures forall c :: c in pids <==> c in Children(parent, pid)
      ensures forall c :: c in pids <==> c in parent && parent[c] == pid && 1 <= c <= 32767
      ensures forall i, j | 0 <= i < j < |pids| :: pids[i] != pids[j]
    {
      pids := [];
      var unread: set<Pid> := parent.Keys;
      while exists q :: q in unread
        invariant unread <= parent.Keys
        invariant forall c :: c in pids <==> c in Children(parent, pid) && c !in unread
        invariant forall i, j | 0 <= i < j < |pids| :: pids[i] != pids[j]
        decreases unread
      {
        var q: Pid :| q in unread;
        if q > 0 && q <= PID_LIMIT && parent[q] == pid {
          pids := pids + [q];
        }
        unread := unread - {q};
      }
    }

    /** `kill(pid, SIGKILL)`, taking effect at once; nothing happens to a pid that is not live. */
    method Kill(pid: Pid)
      modifies this
      ensures parent == Killed(old(parent), {pid} * old(parent).Keys)
    {
      if pid in parent {
        parent := map q | q in parent && q != pid :: if parent[q] == pid then INIT else parent[q];
      }
    }

    /** `kill_process_by_pid`: exactly the process and the descendants its listing connects to it
        die, and a child left alive by that goes to init. */
    method KillProcessByPid(pid: Pid)
      requires IsForest(parent) && pid != INIT
      modifies this
      ensures parent == Killed(old(parent), Tree(old(parent), pid, true))
      ensures forall c | pid in old(parent) && c in old(parent) && old(parent)[c] == pid :: c in parent <==> c > 32767 || c <= 0
      decreases parent.Keys
    {
      ghost var m := parent;
      var childPids := GetChildPids(pid);
      Kill(pid);
      KillChildren(childPids, m, pid);
      forall c | pid in m && c in m && m[c] == pid
        ensures c in parent <==> c > 32767 || c <= 0
      {
        ChildSurvivesIff(m, pid, c);
      }
    }

    /** The loop over the children listed before the kill. */
    method KillChildren(childPids: seq<Pid>, ghost m: Forest, ghost pid: Pid)
      requires IsForest(m) && parent == Killed(m, {pid} * m.Keys) && pid != INIT
      requires forall c :: c in childPids <==> c in Children(m, pid)
      requires forall i, j | 0 <= i < j < |childPids| :: childPids[i] != childPids[j]
      modifies this
      ensures parent == Killed(m, Tree(m, pid, true))
      decreases m.Keys, 0
    {
      var i := 0;
      assert {pid} * m.Keys + Trees(m, childPids[..0]) == {pid} * m.Keys;
      while i < |childPids|
        invariant 0 <= i <= |childPids|
        invariant parent == Killed(m, {pid} * m.Keys + Trees(m, childPids[..i]))
      {
        ghost var gone := {pid} * m.Keys + Trees(m, childPids[..i]);
        assert childPids[i] in childPids;
        NextChild(m, pid, childPids, i);
        KillProcessByPid(childPids[i]);
        KilledTwice(m, gone, Tree(m, childPids[i], true));
        assert gone + Tree(m, childPids[i], true) == {pid} * m.Keys + Trees(m, childPids[..i + 1]);
        i := i + 1;
      }
      assert childPids[..i] == childPids;
      TreeParts(m, pid, childPids);
    }
  }

  /** What the kills before it leave of the next child's tree. */
  lemma NextChild(m: Forest, pid: Pid, cs: seq<Pid>, i: nat)
    requires IsForest(m) && pid != INIT && i < |cs| && forall c :: c in cs <==> c in Children(m, pid)
    requires forall i, j | 0 <= i < j < |cs| :: cs[i] != cs[j]
    ensures var now := Killed(m, {pid} * m.Keys + Trees(m, cs[..i]));
      IsForest(now) && now.Keys < m.Keys && Tree(now, cs[i], true) == Tree(m, cs[i], true)
    ensures Trees(m, cs[..i + 1]) == Trees(m, cs[..i]) + Tree(m, cs[i], true)
    ensures INIT !in Tree(m, cs[i], true)
  {
    var gone := {pid} * m.Keys + Trees(m, cs[..i]);
    var now := Killed(m, gone);
    assert cs[i] in cs;
    ParentAbove(m, pid, cs[i]);
    forall q | q in Trees(m, cs[..i])
      ensures q !in Tree(m, cs[i], true)
    {
      var j :| 0 <= j < |cs[..i]| && q in Tree(m, cs[..i][j], true);
      assert cs[j] in cs;
      ChildrenApart(m, pid, cs[j], cs[i]);
    }
    TreeSurvives(m, gone, cs[i]);
    KilledForest(m, gone);
    assert pid !in now;
    forall q | q in Trees(m, cs[..i + 1])
      ensures q in Trees(m, cs[..i]) + Tree(m, cs[i], true)
    {
      var j :| 0 <= j < |cs[..i + 1]| && q in Tree(m, cs[..i + 1][j], true);
      if j < i { assert cs[..i][j] == cs[j]; }
    }
    forall q | q in Trees(m, cs[..i]) + Tree(m, cs[i], true)
      ensures q in Trees(m, cs[..i + 1])
    {
      if q in Trees(m, cs[..i]) {
        var j :| 0 <= j < |cs[..i]| && q in Tree(m, cs[..i][j], true);
        assert cs[..i + 1][j] == cs[j];
      } else {
        assert cs[..i + 1][i] == cs[i];
      }
    }
  }

  /** The whole tree of a process is killed if and only if no descendant has a pid the listing passes over. */
  lemma KillsAllIffVisible(m: Forest, p: Pid)
    requires IsForest(m) && p in m
    ensures Tree(m, p, true) == Tree(m, p, false) <==> forall q | q in Tree(m, p, false) && q != p :: 1 <= q <= 32767
  {
    forall q | q in Tree(m, p, true)
      ensures q in Tree(m, p, false) && (q != p ==> Visible(q))
    {
      var n: nat :| Climbs(m, q, p, n, true);
      ClimbsUnseen(m, q, p, n);
    }
    if forall q | q in Tree(m, p, false) && q != p :: Visible(q) {
      forall q | q in Tree(m, p, false)
        ensures q in Tree(m, p, true)
      {
        var n: nat :| Climbs(m, q, p, n, false);
        ClimbsSeen(m, q, p, n);
      }
    }
  }

  /** The children that one process was started as the parent of, visible or not. */
  ghost function ChildrenOf(m: Forest, server: Pid): set<Pid> {
    set q | q in m && m[q] == server
  }

  /** Stopping one app of the server: of all the server's children just that one is gone, the
      others keep their whole trees, and no process that the listing connects to it is left. */
  lemma StopsOneChild(m: Forest, server: Pid, p: Pid)
    requires IsForest(m) && p in ChildrenOf(m, server) && server != INIT
    ensures var now := Killed(m, Tree(m, p, true));
      && ChildrenOf(now, server) == ChildrenOf(m, server) - {p}
      && (server in m ==> server in now)
      && (forall q | q in ChildrenOf(m, server) && q != p :: Tree(now, q, true) == Tree(m, q, true))
      && forall q | q in Tree(m, p, true) :: q !in now
  {
    var now := Killed(m, Tree(m, p, true));
    assert Climbs(m, p, p, 0, true);
    ParentAbove(m, server, p);
    forall q | q in ChildrenOf(m, server) && q != p
      ensures q in now && now[q] == server && Tree(now, q, true) == Tree(m, q, true)
    {
      ChildrenApart(m, server, p, q);
      assert Climbs(m, q, q, 0, true);
      TreeSurvives(m, Tree(m, p, true), q);
    }
  }

  /** A path of processes, each the parent of the one before. */
  ghost predicate IsPath(m: Forest, path: seq<Pid>) {
    && path != [] && (forall i | 0 <= i < |path| :: path[i] in m)
    && forall i | 0 <= i < |path| - 1 :: m[path[i]] == path[i + 1]
  }

  lemma {:induction false} PathClimbs(m: Forest, path: seq<Pid>)
    requires IsPath(m, path)
    ensures Climbs(m, path[0], path[|path| - 1], |path| - 1, false)
    ensures Climbs(m, path[0], path[|path| - 1], |path| - 1, true) <==> forall i | 0 <= i < |path| - 1 :: 1 <= path[i] <= 32767
  {
    if |path| > 1 {
      assert path[1..][0] == path[1];
      PathClimbs(m, path[1..]);
      assert forall i | 1 <= i < |path| - 1 :: path[i] == path[1..][i - 1];
    }
  }

  /** The last process of a path is killed. The first is killed with it if and only if every id on the path below
      the last is from 1 to 32767; if it is not, it lives on, and as a child of process 1 if its parent was killed. */
  lemma PathKilled(m: Forest, path: seq<Pid>)
    requires IsForest(m) && IsPath(m, path)
    ensures var now := Killed(m, Tree(m, path[|path| - 1], true));
      && (path[0] !in now <==> forall i | 0 <= i < |path| - 1 :: 1 <= path[i] <= 32767)
      && (path[0] in now && |path| > 1 ==> now[path[0]] == if path[1] in now then path[1] else 1)
  {
    var (q, p, n) := (path[0], path[|path| - 1], |path| - 1);
    PathClimbs(m, path);
    forall k: nat | Climbs(m, q, p, k, true)
      ensures k == n
    {
      ClimbsUnseen(m, q, p, k);
      if k < n {
        ClimbsOn(m, q, p, k, p, n, false);
      } else {
        ClimbsOn(m, q, p, n, p, k, false);
      }
    }
    assert q in Tree(m, p, true) <==> Climbs(m, q, p, n, true);
  }

  /** So a child of the process killed survives if and only if its id is above 32767, or none. */
  lemma ChildSurvivesIff(m: Forest, p: Pid, c: Pid)
    requires IsForest(m) && p in m && c in m && m[c] == p
    ensures c in Killed(m, Tree(m, p, true)) <==> c > 32767 || c <= 0
  {
    assert [c, p][0] == c && [c, p][1] == p;
    PathKilled(m, [c, p]);
  }

  /** A child with a large id, as kernels with a raised limit give, outlives its killed parent. */
  lemma HiddenChildSurvives(m: Forest, p: Pid)
    requires m == map[p := INIT, 40000 := p] && INIT < p < 40000
    ensures IsForest(m) && 40000 in Tree(m, p, false) && 40000 in Killed(m, Tree(m, p, true))
  {
    assert Climbs(m, p, p, 0, false) && Climbs(m, 40000, p, 1, false);
    forall q, n: nat | q in m && n > 0
      ensures !Climbs(m, q, q, n, false)
    {
      InitClimbsNowhere(m, q, n - 1);
      if n > 1 { InitClimbsNowhere(m, q, n - 2); }
    }
    assert forall n: nat :: !Climbs(m, 40000, p, n, true);
  }

  lemma InitClimbsNowhere(m: Forest, q: Pid, n: nat)
    requires INIT !in m && q != INIT
    ensures !Climbs(m, INIT, q, n, false)
  {
  }

  /** A climb along visible processes is one the listing follows; it stops at `p` at the latest. */
  lemma {:induction false} ClimbsSeen(m: Forest, q: Pid, p: Pid, n: nat)
    requires IsForest(m) && p in m && Climbs(m, q, p, n, false)
    requires forall x | x in Tree(m, p, false) && x != p :: Visible(x)
    ensures Climbs(m, q, p, n, true)
    decreases n
  {
    if n > 0 {
      assert q in Tree(m, p, false) && q != p;
      ClimbsSeen(m, m[q], p, n - 1);
    }
  }

  /** Parents of live processes are live, up to init. */
  lemma {:induction false} ClimbsToLive(m: Forest, q: Pid, p: Pid, n: nat, seen: bool)
    requires IsForest(m) && q in m && p != INIT && Climbs(m, q, p, n, seen)
    ensures p in m
    decreases n
  {
    if n > 0 {
      if m[q] != INIT { ClimbsToLive(m, m[q], p, n - 1, seen); }
    }
  }

  lemma NotLive(m: Forest, p: Pid)
    requires IsForest(m) && p !in m && p != INIT
    ensures Tree(m, p, true) == {} && Children(m, p) == {}
  {
    forall q | q in Tree(m, p, true)
      ensures false
    {
      var n: nat :| Climbs(m, q, p, n, true);
      ClimbsToLive(m, q, p, n, true);
    }
  }
}
