/**
 The linked nodes of lib/cJSON.c in a C heap, one map per field from the addresses
 that are allocated. An address outside the maps cannot be read, written or freed,
 so each method shows that the pointers it follows are live.
 */
module Nodes {
  type Ptr = nat
  const NULL: Ptr := 0

  type Links = map<Ptr, Ptr>

  /** What a `cJSON` struct holds besides its links; the flags of `type` are kept apart from its kind.
      Its two strings are pointers into memory of their own; its double is only ever copied. */
  datatype Data = Data(
    kind: nat, isReference: bool, stringIsConst: bool,
    valuestring: Ptr, valueint: int, valuedouble: real, key: Ptr)

  // ------------------------------------------------------------------ chains

  /** The `i`th address, or null outside the sequence. */
  function Nth(s: seq<Ptr>, i: int): Ptr {
    if 0 <= i < |s| then s[i] else NULL
  }

  ghost predicate NoRepeats(s: seq<Ptr>) {
    forall i, j | 0 <= i < j < |s| :: s[i] != s[j]
  }

  lemma Distinct(s: seq<Ptr>, i: int, j: int)
    requires NoRepeats(s) && 0 <= i < |s| && 0 <= j < |s|
    ensures s[i] == s[j] <==> i == j
  {
  }

  /** The `i`th node of `s` is live and linked to its neighbours, or to nothing at the ends. */
  ghost predicate LinkAt(next: Links, prev: Links, s: seq<Ptr>, i: nat)
    requires i < |s|
  {
    s[i] != NULL && s[i] in next && s[i] in prev && next[s[i]] == Nth(s, i + 1) && prev[s[i]] == Nth(s, i - 1)
  }

  /** `s` is a chain of siblings: no address twice, `next` and `prev` mutually inverse. */
  ghost predicate Chain(next: Links, prev: Links, s: seq<Ptr>) {
    NoRepeats(s) && forall i | 0 <= i < |s| :: LinkAt(next, prev, s, i)
  }

  /** A walk along a chain sees null exactly at its end. */
  lemma ChainEnds(next: Links, prev: Links, s: seq<Ptr>, i: nat)
    requires Chain(next, prev, s) && i <= |s|
    ensures Nth(s, i) == NULL <==> i == |s|
    ensures i < |s| ==> LinkAt(next, prev, s, i)
  {
    if i < |s| { LinkIn(next, prev, s, i); }
  }

  lemma LinkIn(next: Links, prev: Links, s: seq<Ptr>, i: nat)
    requires Chain(next, prev, s) && i < |s|
    ensures LinkAt(next, prev, s, i)
  {
  }

  /** The position a `which` argument denotes: a negative one is not advanced. */
  function Position(which: int): nat {
    if which > 0 then which else 0
  }

  ghost predicate SameAddresses<T>(m: Links, n: map<Ptr, T>) {
    forall p :: p in m <==> p in n
  }

  /** The field is the same away from the addresses of `s`. */
  ghost predicate SameOff(was: Links, now: Links, s: seq<Ptr>) {
    forall p | p in was :: p in now && (p in s || now[p] == was[p])
  }

  ghost function Without(s: seq<Ptr>, k: nat): seq<Ptr>
    requires k < |s|
  {
    s[..k] + s[k + 1..]
  }

  ghost function Inserted(s: seq<Ptr>, k: nat, p: Ptr): seq<Ptr>
    requires k <= |s|
  {
    s[..k] + [p] + s[k..]
  }

  lemma NoRepeatsAround(s: seq<Ptr>, k: nat, n: Ptr)
    requires NoRepeats(s) && n !in s
    ensures k <= |s| ==> NoRepeats(Inserted(s, k, n))
    ensures k < |s| ==> NoRepeats(Without(s, k)) && NoRepeats(s[k := n])
  {
  }

  /** What a write to one address leaves in a field. */
  ghost predicate Wrote(was: Links, now: Links, p: Ptr, q: Ptr, except: seq<Ptr>) {
    forall x | x in was && x !in except :: x in now && now[x] == if x == p && p != NULL then q else was[x]
  }

  /** `p->field=q` guarded by `p` not being null. */
  function Write(m: Links, p: Ptr, q: Ptr): Links {
    if p == NULL then m else m[p := q]
  }

  /** A field written at a neighbour `p` and at `c` keeps its addresses and changes no others. */
  lemma WritesStay(m: Links, p: Ptr, q: Ptr, c: Ptr, x: Ptr, s: seq<Ptr>)
    requires (p != NULL ==> p in m && p in s) && c in m && c in s && p != c
    ensures var now := Write(m, p, q)[c := x];
      Wrote(m, now, p, q, [c]) && SameOff(m, now, s) && SameAddresses(now, m) && now[c] == x
  {
  }

  /** The same, written in the other order. */
  lemma LaterWritesStay(m: Links, c: Ptr, x: Ptr, p: Ptr, q: Ptr, s: seq<Ptr>)
    requires (p != NULL ==> p in m && p in s) && c in m && c in s && p != c
    ensures var now := Write(m[c := x], p, q);
      Wrote(m, now, p, q, [c]) && SameOff(m, now, s) && SameAddresses(now, m) && now[c] == x
  {
  }

  /** The same with writes to two more addresses. */
  lemma TwoWritesStay(m: Links, p: Ptr, q: Ptr, c: Ptr, x: Ptr, d: Ptr, y: Ptr, s: seq<Ptr>)
    requires (p != NULL ==> p in m && p in s) && c in m && c in s && d in m && d in s && p != c && p != d && c != d
    ensures var now := Write(m[c := x], p, q)[d := y];
      Wrote(m, now, p, q, [c, d]) && SameOff(m, now, s) && SameAddresses(now, m) && now[c] == x && now[d] == y
  {
  }

  lemma ChildStays(m: Links, list: Ptr, q: Ptr)
    requires list in m
    ensures SameOff(m, m[list := q], [list]) && SameAddresses(m[list := q], m) && SameOff(m, m, [list]) && SameAddresses(m, m)
  {
  }

  lemma AddressesAgree<T>(now: Links, m: Links, data: map<Ptr, T>)
    requires SameAddresses(now, m) && SameAddresses(m, data)
    ensures SameAddresses(now, data)
  {
  }

  lemma DetachedChain(next: Links, prev: Links, s: seq<Ptr>, k: nat, next': Links, prev': Links)
    requires Chain(next, prev, s) && k < |s|
    requires Wrote(next, next', Nth(s, k - 1), Nth(s, k + 1), [s[k]])
    requires Wrote(prev, prev', Nth(s, k + 1), Nth(s, k - 1), [s[k]])
    ensures Chain(next', prev', Without(s, k))
  {
    var t := Without(s, k);
    NoRepeatsWithout(s, k);
    forall i | 0 <= i < |t|
      ensures LinkAt(next', prev', t, i)
    {
      var j := if i < k then i else i + 1;
      hide Chain, NoRepeats;
      LinkIn(next, prev, s, j);
      Distinct(s, j, k);
      if k > 0 { Distinct(s, j, k - 1); }
      if k + 1 < |s| { Distinct(s, j, k + 1); }
      assert t[i] == s[j];
    }
  }

  lemma NoRepeatsWithout(s: seq<Ptr>, k: nat)
    requires NoRepeats(s) && k < |s|
    ensures NoRepeats(Without(s, k))
  {
  }

  lemma InsertedChain(next: Links, prev: Links, s: seq<Ptr>, k: nat, n: Ptr, next': Links, prev': Links)
    requires Chain(next, prev, s) && k <= |s| && n != NULL && n !in s && n in next' && n in prev'
    requires next'[n] == Nth(s, k) && prev'[n] == Nth(s, k - 1)
    requires Wrote(next, next', Nth(s, k - 1), n, [n]) && Wrote(prev, prev', Nth(s, k), n, [n])
    ensures Chain(next', prev', Inserted(s, k, n))
  {
    var t := Inserted(s, k, n);
    NoRepeatsAround(s, k, n);
    forall i | 0 <= i < |t|
      ensures LinkAt(next', prev', t, i)
    {
      hide Chain, NoRepeats;
      if i != k {
        var j := if i < k then i else i - 1;
        LinkIn(next, prev, s, j);
        if k > 0 { Distinct(s, j, k - 1); }
        if k < |s| { Distinct(s, j, k); }
        assert t[i] == s[j] && s[j] in s;
      }
    }
  }

  lemma ReplacedChain(next: Links, prev: Links, s: seq<Ptr>, k: nat, n: Ptr, next': Links, prev': Links)
    requires Chain(next, prev, s) && k < |s| && n != NULL && n !in s && n in next' && n in prev'
    requires next'[n] == Nth(s, k + 1) && prev'[n] == Nth(s, k - 1)
    requires Wrote(next, next', Nth(s, k - 1), n, [n, s[k]]) && Wrote(prev, prev', Nth(s, k + 1), n, [n, s[k]])
    ensures Chain(next', prev', s[k := n])
  {
    var t := s[k := n];
    NoRepeatsAround(s, k, n);
    forall i | 0 <= i < |t|
      ensures LinkAt(next', prev', t, i)
    {
      hide Chain, NoRepeats;
      if i != k {
        LinkIn(next, prev, s, i);
        Distinct(s, i, k);
        if k > 0 { Distinct(s, i, k - 1); }
        if k + 1 < |s| { Distinct(s, i, k + 1); }
        assert t[i] == s[i] && s[i] in s;
      }
    }
  }

  // --------------------------------------------------- whole operations

  /** The four fields of every live node, and the strings that can be read. */
  datatype Fields = Fields(next: Links, prev: Links, child: Links, data: map<Ptr, Data>, texts: map<Ptr, string>)

  ghost predicate Valid(h: Fields) {
    NULL !in h.data && SameAddresses(h.next, h.data) && SameAddresses(h.prev, h.data) && SameAddresses(h.child, h.data)
  }

  /** `list` has the child chain `s`. */
  ghost predicate Children(h: Fields, list: Ptr, s: seq<Ptr>) {
    Valid(h) && list in h.child && h.child[list] == Nth(s, 0) && Chain(h.next, h.prev, s)
  }

  /** A node that is in no chain. */
  ghost predicate Detached(h: Fields, p: Ptr) {
    p in h.next && p in h.prev && h.next[p] == h.prev[p] == NULL
  }

  /** No more changed than the sibling links of `s` and the child pointer of `list`. */
  ghost predicate OnlyRelinked(was: Fields, now: Fields, list: Ptr, s: seq<Ptr>) {
    SameOff(was.next, now.next, s) && SameOff(was.prev, now.prev, s) && SameOff(was.child, now.child, [list])
    && now.data == was.data && now.texts == was.texts
  }

  lemma Neighbours(h: Fields, list: Ptr, s: seq<Ptr>, k: nat)
    requires Children(h, list, s) && k < |s|
    ensures Valid(h) && list in h.child && s[k] != NULL && s[k] in h.data && (h.child[list] == s[k] <==> k == 0)
    ensures h.next[s[k]] == Nth(s, k + 1) && h.prev[s[k]] == Nth(s, k - 1)
    ensures Nth(s, k - 1) == NULL <==> k == 0
    ensures Nth(s, k - 1) != NULL ==> Nth(s, k - 1) in h.data && Nth(s, k - 1) in s && Nth(s, k - 1) != s[k]
    ensures Nth(s, k + 1) != NULL ==> Nth(s, k + 1) in h.data && Nth(s, k + 1) in s && Nth(s, k + 1) != s[k]
    ensures Nth(s, k - 1) != NULL ==> Nth(s, k - 1) != Nth(s, k + 1)
  {
    LinkIn(h.next, h.prev, s, k);
    Distinct(s, 0, k);
    if k > 0 { LinkIn(h.next, h.prev, s, k - 1); Distinct(s, k, k - 1); }
    if k + 1 < |s| { LinkIn(h.next, h.prev, s, k + 1); Distinct(s, k, k + 1); }
    if 0 < k < |s| - 1 { Distinct(s, k - 1, k + 1); }
  }

  /** What makes an operation right: the chain it is to leave, at the child pointer it is to leave, and
      no address gained or lost. */
  lemma Relinked(h: Fields, now: Fields, list: Ptr, s: seq<Ptr>, s': seq<Ptr>)
    requires Valid(h) && now == h.(next := now.next, prev := now.prev, child := now.child)
    requires SameAddresses(now.next, h.next) && SameAddresses(now.prev, h.prev) && SameAddresses(now.child, h.child)
    requires SameOff(h.next, now.next, s) && SameOff(h.prev, now.prev, s) && SameOff(h.child, now.child, [list])
    requires Chain(now.next, now.prev, s') && list in now.child && now.child[list] == Nth(s', 0)
    ensures Children(now, list, s') && OnlyRelinked(h, now, list, s)
  {
    hide Chain, SameOff;
    AddressesAgree(now.next, h.next, h.data);
    AddressesAgree(now.prev, h.prev, h.data);
    AddressesAgree(now.child, h.child, h.data);
  }

  lemma ValidList(h: Fields, list: Ptr, s: seq<Ptr>)
    requires Children(h, list, s)
    ensures Valid(h) && list in h.child && h.child[list] == Nth(s, 0) && Chain(h.next, h.prev, s)
    ensures forall p :: p in h.data <==> p in h.next
    ensures forall p :: p in h.data <==> p in h.prev
    ensures NULL !in h.data
  {
  }

  /** The heap after an item has been detached. */
  ghost function Detaching(h: Fields, list: Ptr, s: seq<Ptr>, k: nat): Fields
    requires k < |s|
  {
    var (c, a, b) := (s[k], Nth(s, k - 1), Nth(s, k + 1));
    h.(next := Write(h.next, a, b)[c := NULL], prev := Write(h.prev, b, a)[c := NULL],
       child := if k == 0 then h.child[list := b] else h.child)
  }

  lemma DetachCorrect(h: Fields, list: Ptr, s: seq<Ptr>, k: nat)
    requires Children(h, list, s) && k < |s|
    ensures var now := Detaching(h, list, s, k);
      Children(now, list, Without(s, k)) && Detached(now, s[k]) && OnlyRelinked(h, now, list, s)
  {
    hide Chain, NoRepeats, LinkAt, Wrote, SameOff, Write, Children, Valid, SameAddresses, OnlyRelinked;
    ValidList(h, list, s);
    Neighbours(h, list, s, k);
    var (c, a, b) := (s[k], Nth(s, k - 1), Nth(s, k + 1));
    var now := Detaching(h, list, s, k);
    WritesStay(h.next, a, b, c, NULL, s);
    WritesStay(h.prev, b, a, c, NULL, s);
    ChildStays(h.child, list, b);
    DetachedChain(h.next, h.prev, s, k, now.next, now.prev);
    Relinked(h, now, list, s, Without(s, k));
  }

  /** The heap after an item has been inserted before position `k`, or appended when that is the length. */
  ghost function Inserting(h: Fields, list: Ptr, s: seq<Ptr>, k: nat, n: Ptr): Fields
    requires k <= |s|
  {
    var (a, c) := (Nth(s, k - 1), Nth(s, k));
    h.(next := Write(h.next[n := c], a, n), prev := Write(h.prev[n := a], c, n),
       child := if k == 0 then h.child[list := n] else h.child)
  }

  lemma InsertCorrect(h: Fields, list: Ptr, s: seq<Ptr>, k: nat, n: Ptr)
    requires Children(h, list, s) && k <= |s| && n in h.data && n !in s
    ensures var now := Inserting(h, list, s, k, n);
      Children(now, list, Inserted(s, k, n)) && OnlyRelinked(h, now, list, s + [n])
  {
    hide Chain, NoRepeats, LinkAt, Wrote, SameOff, Write, Children, Valid, SameAddresses, OnlyRelinked;
    ValidList(h, list, s);
    if k < |s| { Neighbours(h, list, s, k); } else if k > 0 { Neighbours(h, list, s, k - 1); }
    var (a, c) := (Nth(s, k - 1), Nth(s, k));
    var now := Inserting(h, list, s, k, n);
    LaterWritesStay(h.next, n, c, a, n, s + [n]);
    LaterWritesStay(h.prev, n, a, c, n, s + [n]);
    ChildStays(h.child, list, n);
    InsertedChain(h.next, h.prev, s, k, n, now.next, now.prev);
    Relinked(h, now, list, s + [n], Inserted(s, k, n));
  }

  lemma AppendReady(h: Fields, list: Ptr, s: seq<Ptr>, n: Ptr)
    requires Children(h, list, s) && n in h.data && Detached(h, n)
    ensures list in h.child && (h.child[list] == NULL <==> s == []) && Inserted(s, |s|, n) == s + [n]
    ensures s != [] ==> s[|s| - 1] in h.next && s[|s| - 1] != NULL
    ensures h.next[n := NULL] == h.next && h.prev[n := NULL] == h.prev
  {
    ChainEnds(h.next, h.prev, s, 0);
    if s != [] { LinkIn(h.next, h.prev, s, |s| - 1); }
  }

  /** The heap after the item at `k` has been replaced and left detached. */
  ghost function Replacing(h: Fields, list: Ptr, s: seq<Ptr>, k: nat, n: Ptr): Fields
    requires k < |s|
  {
    var (c, a, b) := (s[k], Nth(s, k - 1), Nth(s, k + 1));
    h.(next := Write(h.next[n := b], a, n)[c := NULL], prev := Write(h.prev[n := a], b, n)[c := NULL],
       child := if k == 0 then h.child[list := n] else h.child)
  }

  lemma ReplaceCorrect(h: Fields, list: Ptr, s: seq<Ptr>, k: nat, n: Ptr)
    requires Children(h, list, s) && k < |s| && n in h.data && n !in s
    ensures var now := Replacing(h, list, s, k, n);
      Children(now, list, s[k := n]) && Detached(now, s[k]) && OnlyRelinked(h, now, list, s + [n])
  {
    hide Chain, NoRepeats, LinkAt, Wrote, SameOff, Write, Children, Valid, SameAddresses, OnlyRelinked;
    ValidList(h, list, s);
    Neighbours(h, list, s, k);
    var (c, a, b) := (s[k], Nth(s, k - 1), Nth(s, k + 1));
    var now := Replacing(h, list, s, k, n);
    assert c in s;
    TwoWritesStay(h.next, a, n, n, b, c, NULL, s + [n]);
    TwoWritesStay(h.prev, b, n, n, a, c, NULL, s + [n]);
    ChildStays(h.child, list, n);
    ReplacedChain(h.next, h.prev, s, k, n, now.next, now.prev);
    Relinked(h, now, list, s + [n], s[k := n]);
  }

  class Heap {
    var next: Links
    var prev: Links
    var child: Links
    var data: map<Ptr, Data>
    var texts: map<Ptr, string>

    ghost function Now(): Fields
      reads this
    {
      Fields(next, prev, child, data, texts)
    }

    /** The walk every chain operation begins with. */
    method Walk(list: Ptr, which: int, ghost s: seq<Ptr>) returns (c: Ptr)
      requires Children(Now(), list, s)
      ensures c == Nth(s, Position(which)) && (c == NULL <==> Position(which) >= |s|)
    {
      c := child[list];
      var left := which;
      ghost var i: nat := 0;
      while c != NULL && left > 0
        invariant i <= |s| && c == Nth(s, i) && i + Position(left) == Position(which)
        decreases |s| - i
      {
        ChainEnds(next, prev, s, i);
        c, left, i := next[c], left - 1, i + 1;
      }
      ChainEnds(next, prev, s, i);
    }

    /** `cJSON_GetArraySize` */
    method GetArraySize(list: Ptr, ghost s: seq<Ptr>) returns (n: nat)
      requires Children(Now(), list, s)
      ensures n == |s|
    {
      var c := child[list];
      n := 0;
      while c != NULL
        invariant n <= |s| && c == Nth(s, n)
        decreases |s| - n
      {
        ChainEnds(next, prev, s, n);
        n, c := n + 1, next[c];
      }
      ChainEnds(next, prev, s, n);
    }

    /** `while (c && c->next) c=c->next` */
    method Last(list: Ptr, ghost s: seq<Ptr>) returns (c: Ptr)
      requires Children(Now(), list, s) && s != []
      ensures c == s[|s| - 1]
    {
      c := child[list];
      ghost var i: nat := 0;
      LinkIn(next, prev, s, 0);
      while c != NULL && next[c] != NULL
        invariant i < |s| && c == s[i] && LinkAt(next, prev, s, i)
        decreases |s| - i
      {
        c, i := next[c], i + 1;
        LinkIn(next, prev, s, i);
      }
      ChainEnds(next, prev, s, i + 1);
    }

    /** `cJSON_AddItemToArray` of a detached item: append. */
    method AddItemToArray(list: Ptr, item: Ptr, ghost s: seq<Ptr>)
      requires Children(Now(), list, s) && item in data && item !in s && Detached(Now(), item)
      modifies this`next, this`prev, this`child
      ensures Children(Now(), list, s + [item]) && OnlyRelinked(old(Now()), Now(), list, s + [item])
    {
      AppendReady(Now(), list, s, item);
      InsertCorrect(Now(), list, s, |s|, item);
      hide Chain, NoRepeats, OnlyRelinked, Children, Detached;
      var c := child[list];
      if c == NULL {
        child := child[list := item];
      } else {
        c := Last(list, s);
        next := next[c := item];
        prev := prev[item := c];
      }
      assert Now() == Inserting(old(Now()), list, s, |s|, item);
    }

    /** `cJSON_DetachItemFromArray`: remove at head, middle or tail; nothing past the end. */
    method DetachItemFromArray(list: Ptr, which: int, ghost s: seq<Ptr>) returns (c: Ptr)
      requires Children(Now(), list, s)
      modifies this`next, this`prev, this`child
      ensures c == Nth(s, Position(which)) && (c == NULL <==> Position(which) >= |s|)
      ensures c == NULL ==> unchanged(this)
      ensures c != NULL ==> Children(Now(), list, Without(s, Position(which))) && Detached(Now(), c)
      ensures c != NULL ==> OnlyRelinked(old(Now()), Now(), list, s)
    {
      hide Chain, NoRepeats, OnlyRelinked, Children, Detached;
      c := Walk(list, which, s);
      if c == NULL { return; }
      ghost var k := Position(which);
      Neighbours(Now(), list, s, k);
      DetachCorrect(Now(), list, s, k);
      if prev[c] != NULL { next := next[prev[c] := next[c]]; }
      if next[c] != NULL { prev := prev[next[c] := prev[c]]; }
      if c == child[list] { child := child[list := next[c]]; }
      prev := prev[c := NULL];
      next := next[c := NULL];
      assert Now() == Detaching(old(Now()), list, s, k);
    }

    /** `cJSON_InsertItemInArray` of a detached item: before position `which`, or at the end when it is past it. */
    method InsertItemInArray(list: Ptr, which: int, newitem: Ptr, ghost s: seq<Ptr>)
      requires Children(Now(), list, s) && newitem in data && newitem !in s && Detached(Now(), newitem)
      modifies this`next, this`prev, this`child
      ensures Children(Now(), list, Inserted(s, if Position(which) < |s| then Position(which) else |s|, newitem))
      ensures OnlyRelinked(old(Now()), Now(), list, s + [newitem])
    {
      hide Chain, NoRepeats, OnlyRelinked, Children, Detached;
      var c := Walk(list, which, s);
      if c == NULL {
        AddItemToArray(list, newitem, s);
        assert Inserted(s, |s|, newitem) == s + [newitem];
        return;
      }
      ghost var k := Position(which);
      Neighbours(Now(), list, s, k);
      InsertCorrect(Now(), list, s, k, newitem);
      next := next[newitem := c];
      prev := prev[newitem := prev[c]];
      prev := prev[c := newitem];
      if c == child[list] {
        child := child[list := newitem];
      } else {
        next := next[prev[newitem] := newitem];
      }
      assert Now() == Inserting(old(Now()), list, s, k, newitem);
    }

    /** `cJSON_ReplaceItemInArray` up to the deletion of the item replaced, which it leaves detached. */
    method SwapItemInArray(list: Ptr, which: int, newitem: Ptr, ghost s: seq<Ptr>) returns (c: Ptr)
      requires Children(Now(), list, s) && newitem in data && newitem !in s && Detached(Now(), newitem)
      modifies this`next, this`prev, this`child
      ensures c == Nth(s, Position(which)) && (c == NULL <==> Position(which) >= |s|)
      ensures c == NULL ==> unchanged(this)
      ensures c != NULL ==> Children(Now(), list, s[Position(which) := newitem]) && Detached(Now(), c)
      ensures c != NULL ==> OnlyRelinked(old(Now()), Now(), list, s + [newitem])
    {
      hide Chain, NoRepeats, OnlyRelinked, Children, Detached;
      c := Walk(list, which, s);
      if c == NULL { return; }
      ghost var k := Position(which);
      Neighbours(Now(), list, s, k);
      ReplaceCorrect(Now(), list, s, k, newitem);
      next := next[newitem := next[c]];
      prev := prev[newitem := prev[c]];
      if next[newitem] != NULL { prev := prev[next[newitem] := newitem]; }
      if c == child[list] {
        child := child[list := newitem];
      } else {
        next := next[prev[newitem] := newitem];
      }
      next := next[c := NULL];
      prev := prev[c := NULL];
      assert Now() == Replacing(old(Now()), list, s, k, newitem);
    }
  }
}
