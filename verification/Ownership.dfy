/**
 Who frees what in lib/cJSON.c: `cJSON_Delete` frees each node and each string that a
 tree owns exactly once and no other, and a reference node owns neither the children
 nor the value string it shows.
 */
module Ownership {
  import opened Nodes

  /** The shape of a tree in the heap: addresses, reference flags and child chains. */
  datatype Shape = Shape(at: Ptr, isRef: bool, kids: seq<Shape>)

  ghost function Ats(ts: seq<Shape>): (s: seq<Ptr>)
    ensures |s| == |ts|
  {
    seq(|ts|, i requires 0 <= i < |ts| => ts[i].at)
  }

  /** The nodes a tree owns; a reference node does not own its children. */
  ghost function OwnedBy(t: Shape): set<Ptr>
    decreases t, 0
  {
    {t.at} + if t.isRef then {} else OwnedByAll(t.kids)
  }

  ghost function OwnedByAll(ts: seq<Shape>): set<Ptr>
    decreases ts, 1
  {
    if ts == [] then {} else OwnedBy(ts[0]) + OwnedByAll(ts[1..])
  }

  /** All the nodes that can be reached, through references too. */
  ghost function All(t: Shape): set<Ptr>
    decreases t, 0
  {
    {t.at} + AllOf(t.kids)
  }

  ghost function AllOf(ts: seq<Shape>): set<Ptr>
    decreases ts, 1
  {
    if ts == [] then {} else All(ts[0]) + AllOf(ts[1..])
  }

  /** No node is owned twice. */
  ghost predicate Apart(t: Shape)
    decreases t, 0
  {
    t.isRef || (t.at !in OwnedByAll(t.kids) && ApartAll(t.kids))
  }

  ghost predicate ApartAll(ts: seq<Shape>)
    decreases ts, 1
  {
    ts == [] || (Apart(ts[0]) && OwnedBy(ts[0]) !! OwnedByAll(ts[1..]) && ApartAll(ts[1..]))
  }

  /** The heap holds the nodes that `t` owns, linked as `t` says. */
  ghost predicate Owned(h: Fields, t: Shape)
    decreases t
  {
    && t.at != NULL && t.at in h.data && h.data[t.at].isReference == t.isRef
    && (!t.isRef ==> ChildrenAre(h, t.at, Ats(t.kids)) && forall i | 0 <= i < |t.kids| :: Owned(h, t.kids[i]))
  }

  /** The heap holds all of `t`, what it refers to included. */
  ghost predicate Whole(h: Fields, t: Shape)
    decreases t
  {
    && t.at != NULL && t.at in h.data && h.data[t.at].isReference == t.isRef
    && ChildrenAre(h, t.at, Ats(t.kids)) && forall i | 0 <= i < |t.kids| :: Whole(h, t.kids[i])
  }

  ghost predicate ChildrenAre(h: Fields, list: Ptr, s: seq<Ptr>) {
    list in h.child && h.child[list] == Nth(s, 0) && Chain(h.next, h.prev, s)
  }

  /** The strings a node owns: not the value of a reference, nor a key that is constant. */
  ghost function NodeStrings(d: Data): set<Ptr> {
    (if !d.isReference && d.valuestring != NULL then {d.valuestring} else {})
    + (if !d.stringIsConst && d.key != NULL then {d.key} else {})
  }

  ghost function StringsOf(data: map<Ptr, Data>, s: set<Ptr>): set<Ptr> {
    set p, q | p in s && p in data && q in NodeStrings(data[p]) :: q
  }

  /** No string of the nodes in `s` is owned twice, and all are allocated. */
  ghost predicate OneOwner(h: Fields, s: set<Ptr>) {
    && (forall p | p in s && p in h.data :: OwnsApart(h.data[p]) && NodeStrings(h.data[p]) <= h.texts.Keys)
    && forall p, q | p in s && q in s && p != q && p in h.data && q in h.data ::
         NodeStrings(h.data[p]) !! NodeStrings(h.data[q])
  }

  ghost predicate OwnsApart(d: Data) {
    !d.isReference && d.valuestring != NULL && !d.stringIsConst && d.key != NULL ==> d.valuestring != d.key
  }

  /** The heap without the nodes of `s` and the strings they own. */
  ghost function Freed(h: Fields, s: set<Ptr>): Fields {
    Fields(h.next - s, h.prev - s, h.child - s, h.data - s, h.texts - StringsOf(h.data, s))
  }

  lemma StringsJoin(data: map<Ptr, Data>, s: set<Ptr>, t: set<Ptr>)
    ensures StringsOf(data, s + t) == StringsOf(data, s) + StringsOf(data, t)
    ensures s !! t ==> StringsOf(data - s, t) == StringsOf(data, t)
  {
    hide NodeStrings;
    if s !! t {
      assert forall p | p in t :: p in data - s <==> p in data;
      assert forall q :: q in StringsOf(data - s, t) <==> q in StringsOf(data, t);
    }
  }

  /** What is left to be freed once the nodes of `s` are. */
  lemma OneOwnerRest(h: Fields, s: set<Ptr>, t: set<Ptr>)
    requires OneOwner(h, s + t) && s !! t
    ensures OneOwner(h, s) && OneOwner(Freed(h, s), t)
  {
    hide NodeStrings, OwnsApart;
    var k := Freed(h, s);
    forall p | p in t && p in k.data
      ensures NodeStrings(k.data[p]) <= k.texts.Keys
    {
      forall q | q in StringsOf(h.data, s)
        ensures q !in NodeStrings(h.data[p])
      {
        var r :| r in s && r in h.data && q in NodeStrings(h.data[r]);
      }
    }
  }

  /** Two heaps hold the same at the addresses of `s`. */
  ghost predicate Agree(h: Fields, k: Fields, s: set<Ptr>) {
    forall p | p in s ::
      && (p in h.next ==> p in k.next && k.next[p] == h.next[p])
      && (p in h.prev ==> p in k.prev && k.prev[p] == h.prev[p])
      && (p in h.child ==> p in k.child && k.child[p] == h.child[p])
      && (p in h.data ==> p in k.data && k.data[p] == h.data[p])
  }

  lemma FreedAgrees(h: Fields, s: set<Ptr>, keep: set<Ptr>)
    requires s !! keep
    ensures Agree(h, Freed(h, s), keep)
  {
  }

  lemma AgreeSubset(h: Fields, k: Fields, s: set<Ptr>, t: set<Ptr>)
    requires Agree(h, k, s) && t <= s
    ensures Agree(h, k, t)
  {
  }

  lemma FreedTwice(h: Fields, s: set<Ptr>, t: set<Ptr>)
    requires s !! t
    ensures Freed(Freed(h, s), t) == Freed(h, s + t)
  {
    StringsJoin(h.data, s, t);
    hide StringsOf;
    assert h.next - s - t == h.next - (s + t) && h.prev - s - t == h.prev - (s + t);
    assert h.child - s - t == h.child - (s + t) && h.data - s - t == h.data - (s + t);
    assert h.texts - StringsOf(h.data, s) - StringsOf(h.data, t) == h.texts - (StringsOf(h.data, s) + StringsOf(h.data, t));
  }

  lemma {:induction false} MemberOwned(ts: seq<Shape>, i: nat)
    requires i < |ts|
    ensures OwnedBy(ts[i]) <= OwnedByAll(ts) && ts[i].at in OwnedByAll(ts)
    ensures ApartAll(ts) ==> Apart(ts[i])
  {
    if i > 0 { MemberOwned(ts[1..], i - 1); }
  }

  lemma {:induction false} MemberAll(ts: seq<Shape>, i: nat)
    requires i < |ts|
    ensures All(ts[i]) <= AllOf(ts) && ts[i].at in AllOf(ts)
  {
    if i > 0 { MemberAll(ts[1..], i - 1); }
  }

  lemma ChainAgrees(h: Fields, k: Fields, s: seq<Ptr>)
    requires Chain(h.next, h.prev, s) && Agree(h, k, set p | p in s)
    ensures Chain(k.next, k.prev, s)
  {
    hide NoRepeats;
    forall i | 0 <= i < |s|
      ensures LinkAt(k.next, k.prev, s, i)
    {
      LinkIn(h.next, h.prev, s, i);
      assert s[i] in s;
    }
  }

  /** A tree stays in place when the nodes it owns are untouched. */
  lemma {:induction false} OwnedStays(h: Fields, k: Fields, t: Shape)
    requires Owned(h, t) && Agree(h, k, OwnedBy(t))
    ensures Owned(k, t)
    decreases t
  {
    if !t.isRef {
      var s := Ats(t.kids);
      forall p | p in s
        ensures p in OwnedBy(t)
      {
        var i :| 0 <= i < |s| && s[i] == p;
        MemberOwned(t.kids, i);
      }
      AgreeSubset(h, k, OwnedBy(t), set p | p in s);
      ChainAgrees(h, k, s);
      forall i | 0 <= i < |t.kids|
        ensures Owned(k, t.kids[i])
      {
        MemberOwned(t.kids, i);
        AgreeSubset(h, k, OwnedBy(t), OwnedBy(t.kids[i]));
        OwnedStays(h, k, t.kids[i]);
      }
    }
  }

  /** A whole tree stays in place when the nodes it reaches are untouched. */
  lemma {:induction false} WholeStays(h: Fields, k: Fields, t: Shape)
    requires Whole(h, t) && Agree(h, k, All(t))
    ensures Whole(k, t)
    decreases t
  {
    var s := Ats(t.kids);
    forall p | p in s
      ensures p in All(t)
    {
      var i :| 0 <= i < |s| && s[i] == p;
      MemberAll(t.kids, i);
    }
    AgreeSubset(h, k, All(t), set p | p in s);
    ChainAgrees(h, k, s);
    forall i | 0 <= i < |t.kids|
      ensures Whole(k, t.kids[i])
    {
      MemberAll(t.kids, i);
      AgreeSubset(h, k, All(t), All(t.kids[i]));
      WholeStays(h, k, t.kids[i]);
    }
  }

  // ---------------------------------------------------------------- deletion

  /** `cJSON_free` of a node, which must still be allocated. */
  method Free(heap: Heap, p: Ptr)
    requires p in heap.data
    modifies heap
    ensures heap.Now() == old(Fields(
      heap.next - {p}, heap.prev - {p}, heap.child - {p}, heap.data - {p}, heap.texts))
  {
    heap.next, heap.prev, heap.child, heap.data :=
      heap.next - {p}, heap.prev - {p}, heap.child - {p}, heap.data - {p};
  }

  /** `cJSON_free` of a string, which must still be allocated. */
  method FreeText(heap: Heap, p: Ptr)
    requires p in heap.texts
    modifies heap`texts
    ensures heap.texts == old(heap.texts) - {p}
  {
    heap.texts := heap.texts - {p};
  }

  /** A node's own strings, then the node. */
  method FreeNode(heap: Heap, c: Ptr)
    requires c in heap.data && OneOwner(heap.Now(), {c})
    modifies heap
    ensures heap.Now() == Freed(old(heap.Now()), {c})
  {
    ghost var h := heap.Now();
    OwnStrings(h, c);
    hide StringsOf, OneOwner;
    if !heap.data[c].isReference && heap.data[c].valuestring != NULL { FreeText(heap, heap.data[c].valuestring); }
    if !heap.data[c].stringIsConst && heap.data[c].key != NULL { FreeText(heap, heap.data[c].key); }
    assert heap.texts == h.texts - NodeStrings(h.data[c]);
    Free(heap, c);
  }

  lemma OwnStrings(h: Fields, c: Ptr)
    requires c in h.data && OneOwner(h, {c})
    ensures StringsOf(h.data, {c}) == NodeStrings(h.data[c]) <= h.texts.Keys && OwnsApart(h.data[c])
  {
    hide NodeStrings, OwnsApart;
  }

  /** The chain that starts at `c` is that of the trees `ts`, each in place and none sharing a node. */
  ghost predicate Deletable(h: Fields, c: Ptr, ts: seq<Shape>) {
    && c == Nth(Ats(ts), 0) && ApartAll(ts)
    && (forall i | 0 <= i < |ts| :: Owned(h, ts[i]))
    && (forall i | 0 <= i < |ts| :: ts[i].at in h.next && h.next[ts[i].at] == Nth(Ats(ts), i + 1))
  }

  lemma DeletableRest(h: Fields, c: Ptr, ts: seq<Shape>)
    requires Deletable(h, c, ts) && ts != []
    ensures c == ts[0].at && c in h.next && Owned(h, ts[0]) && Apart(ts[0])
    ensures OwnedByAll(ts) == OwnedBy(ts[0]) + OwnedByAll(ts[1..]) && OwnedBy(ts[0]) !! OwnedByAll(ts[1..])
    ensures Deletable(h, h.next[c], ts[1..])
    ensures Deletable(Freed(h, OwnedBy(ts[0])), h.next[c], ts[1..])
  {
    var k := Freed(h, OwnedBy(ts[0]));
    assert forall i | 0 <= i < |ts[1..]| :: ts[1..][i] == ts[i + 1];
    assert forall i | 0 <= i <= |ts[1..]| :: Nth(Ats(ts[1..]), i) == Nth(Ats(ts), i + 1);
    forall i | 0 <= i < |ts[1..]|
      ensures Owned(k, ts[1..][i]) && ts[1..][i].at in k.next && k.next[ts[1..][i].at] == h.next[ts[1..][i].at]
    {
      MemberOwned(ts[1..], i);
      FreedAgrees(h, OwnedBy(ts[0]), OwnedBy(ts[1..][i]));
      OwnedStays(h, k, ts[1..][i]);
    }
  }

  lemma OwnChildren(h: Fields, t: Shape)
    requires Owned(h, t) && Apart(t) && !t.isRef
    ensures t.at in h.child && Deletable(h, h.child[t.at], t.kids)
    ensures h.child[t.at] == NULL <==> t.kids == []
    ensures t.at in Freed(h, OwnedByAll(t.kids)).data && t.at !in OwnedByAll(t.kids)
  {
    var s := Ats(t.kids);
    if t.kids != [] { LinkIn(h.next, h.prev, s, 0); }
    forall i | 0 <= i < |t.kids|
      ensures t.kids[i].at in h.next && h.next[t.kids[i].at] == Nth(s, i + 1)
    {
      LinkIn(h.next, h.prev, s, i);
    }
  }

  /** The body of the loop of `cJSON_Delete`: a node after its children. */
  method DeleteNode(heap: Heap, c: Ptr, ghost t: Shape)
    requires c == t.at && Owned(heap.Now(), t) && Apart(t) && OneOwner(heap.Now(), OwnedBy(t))
    modifies heap
    ensures heap.Now() == Freed(old(heap.Now()), OwnedBy(t))
    decreases t, 0
  {
    ghost var h := heap.Now();
    if !t.isRef { OwnChildren(h, t); }
    hide Deletable, Apart, Owned, OneOwner, Freed;
    assert c in heap.data && heap.data[c].isReference == t.isRef by { OwnedNode(h, t); }
    if !heap.data[c].isReference && heap.child[c] != NULL {
      assert OwnedBy(t) == OwnedByAll(t.kids) + {c};
      OneOwnerRest(h, OwnedByAll(t.kids), {c});
      Delete(heap, heap.child[c], t.kids);
      FreedTwice(h, OwnedByAll(t.kids), {c});
    } else {
      assert OwnedBy(t) == {c};
    }
    FreeNode(heap, c);
  }

  lemma OwnedNode(h: Fields, t: Shape)
    requires Owned(h, t)
    ensures t.at in h.data && h.data[t.at].isReference == t.isRef
  {
  }

  /** `cJSON_Delete`: exactly the nodes owned and their strings are freed, each while it is still
      allocated; every other node and string is left as it was. */
  method Delete(heap: Heap, c0: Ptr, ghost ts: seq<Shape>)
    requires Deletable(heap.Now(), c0, ts) && OneOwner(heap.Now(), OwnedByAll(ts))
    modifies heap
    ensures heap.Now() == Freed(old(heap.Now()), OwnedByAll(ts))
    decreases ts, 1
  {
    hide Deletable, Apart, Owned, Freed, OneOwner, OwnedBy;
    var c := c0;
    ghost var i: nat, freed: set<Ptr> := 0, {};
    assert ts[0..] == ts;
    FreedNothing(heap.Now());
    while c != NULL
      invariant i <= |ts| && Deletable(heap.Now(), c, ts[i..]) && OneOwner(heap.Now(), OwnedByAll(ts[i..]))
      invariant heap.Now() == Freed(old(heap.Now()), freed)
      invariant freed + OwnedByAll(ts[i..]) == OwnedByAll(ts) && freed !! OwnedByAll(ts[i..])
      decreases |ts| - i
    {
      NotAtEnd(heap.Now(), c, ts[i..]);
      ghost var h, t := heap.Now(), ts[i];
      DeletableRest(h, c, ts[i..]);
      OneOwnerRest(h, OwnedBy(t), OwnedByAll(ts[i..][1..]));
      var next := heap.next[c];
      DeleteNode(heap, c, t);
      FreedTwice(old(heap.Now()), freed, OwnedBy(t));
      assert ts[i..][1..] == ts[i + 1..];
      c, i, freed := next, i + 1, freed + OwnedBy(t);
    }
    AtEnd(heap.Now(), ts[i..]);
  }

  lemma FreedNothing(h: Fields)
    ensures Freed(h, {}) == h
  {
    assert StringsOf(h.data, {}) == {};
    assert h.next - {} == h.next && h.prev - {} == h.prev && h.child - {} == h.child && h.data - {} == h.data;
    assert h.texts - {} == h.texts;
  }

  lemma NotAtEnd(h: Fields, c: Ptr, ts: seq<Shape>)
    requires Deletable(h, c, ts) && c != NULL
    ensures ts != []
  {
  }

  lemma AtEnd(h: Fields, ts: seq<Shape>)
    requires Deletable(h, NULL, ts)
    ensures ts == []
  {
    if ts != [] { DeletableRest(h, NULL, ts); }
  }

  /** The strings that the nodes of `s` show, whoever owns them. */
  ghost function TextsOf(data: map<Ptr, Data>, s: set<Ptr>): set<Ptr> {
    set p, q | p in s && p in data && q in NodeTexts(data[p]) :: q
  }

  ghost function NodeTexts(d: Data): set<Ptr> {
    {d.valuestring, d.key} - {NULL}
  }

  /** Deleting a container leaves alone every tree it does not own a node or string of, even when
      the container refers to that tree: nodes, links and strings stay. */
  lemma ReferencesSurvive(h: Fields, container: Shape, other: Shape)
    requires Whole(h, other) && All(other) !! OwnedBy(container)
    requires TextsOf(h.data, All(other)) <= h.texts.Keys - StringsOf(h.data, OwnedBy(container))
    ensures var now := Freed(h, OwnedBy(container));
      && Whole(now, other) && TextsOf(now.data, All(other)) == TextsOf(h.data, All(other))
      && forall q | q in TextsOf(h.data, All(other)) :: q in now.texts && now.texts[q] == h.texts[q]
  {
    FreedAgrees(h, OwnedBy(container), All(other));
    WholeStays(h, Freed(h, OwnedBy(container)), other);
    hide Whole, OwnedBy, All, NodeTexts, StringsOf;
    var now := Freed(h, OwnedBy(container));
    assert forall p | p in All(other) :: p in now.data <==> p in h.data;
  }

  // -------------------------------------------------------------- relinking

  /** Child pointers and contents agree on `s`. */
  ghost predicate AgreeBodies(h: Fields, k: Fields, s: set<Ptr>) {
    forall p | p in s ::
      && (p in h.child ==> p in k.child && k.child[p] == h.child[p])
      && (p in h.data ==> p in k.data && k.data[p] == h.data[p])
  }

  /** Sibling links agree on `s`. */
  ghost predicate AgreeLinks(h: Fields, k: Fields, s: set<Ptr>) {
    forall p | p in s ::
      && (p in h.next ==> p in k.next && k.next[p] == h.next[p])
      && (p in h.prev ==> p in k.prev && k.prev[p] == h.prev[p])
  }

  /** A tree stays in place when only its root's sibling links change. */
  lemma OwnedRelinked(h: Fields, k: Fields, t: Shape)
    requires Owned(h, t) && AgreeBodies(h, k, OwnedBy(t)) && (t.isRef || AgreeLinks(h, k, OwnedByAll(t.kids)))
    ensures Owned(k, t)
  {
    if !t.isRef {
      var s := Ats(t.kids);
      forall i | 0 <= i < |t.kids|
        ensures Owned(k, t.kids[i]) && s[i] in OwnedByAll(t.kids)
      {
        MemberOwned(t.kids, i);
        OwnedStays(h, k, t.kids[i]);
      }
      ChainAgrees(h, k, s);
    }
  }

  lemma WholeRelinked(h: Fields, k: Fields, t: Shape)
    requires Whole(h, t) && AgreeBodies(h, k, All(t)) && AgreeLinks(h, k, AllOf(t.kids))
    ensures Whole(k, t)
  {
    var s := Ats(t.kids);
    forall i | 0 <= i < |t.kids|
      ensures Whole(k, t.kids[i]) && s[i] in AllOf(t.kids)
    {
      MemberAll(t.kids, i);
      WholeStays(h, k, t.kids[i]);
    }
    ChainAgrees(h, k, s);
  }

  /** `cJSON_ReplaceItemInArray`: the chain has the new item in the old one's place, and just the
      nodes and strings the old item owned are freed; past the end nothing happens. */
  method ReplaceItemInArray(heap: Heap, list: Ptr, which: int, newitem: Ptr, ghost s: seq<Ptr>, ghost t: Shape)
    requires Children(heap.Now(), list, s) && newitem in heap.data && newitem !in s && Detached(heap.Now(), newitem)
    requires Position(which) < |s| ==>
      && t.at == s[Position(which)] && Owned(heap.Now(), t) && Apart(t)
      && OwnedBy(t) !! {list, newitem} && (forall p | p in s && p != t.at :: p !in OwnedBy(t))
      && OneOwner(heap.Now(), OwnedBy(t))
    modifies heap
    ensures Position(which) >= |s| ==> unchanged(heap)
    ensures Position(which) < |s| ==>
      && Children(heap.Now(), list, s[Position(which) := newitem])
      && heap.data == old(heap.data) - OwnedBy(t)
      && heap.texts == old(heap.texts) - StringsOf(old(heap.data), OwnedBy(t))
  {
    hide Owned, Apart, OwnedBy, OneOwner, Children, OnlyRelinked, Detached, StringsOf;
    ghost var h := heap.Now();
    var c := heap.SwapItemInArray(list, which, newitem, s);
    if c == NULL { return; }
    ghost var k := heap.Now();
    SwappedDeletable(h, k, list, s, newitem, t);
    Delete(heap, c, [t]);
    ReplacedOnce(h, list, s, Position(which), newitem);
    ChildrenStay(k, OwnedBy(t), list, s[Position(which) := newitem]);
  }

  lemma ReplacedOnce(h: Fields, list: Ptr, s: seq<Ptr>, k: nat, n: Ptr)
    requires Children(h, list, s) && k < |s| && n !in s
    ensures forall p | p in s[k := n] :: p == n || (p in s && p != s[k])
  {
    forall p | p in s[k := n] && p != n
      ensures p in s && p != s[k]
    {
      var i :| 0 <= i < |s| && s[k := n][i] == p;
      Distinct(s, i, k);
    }
  }

  lemma SwappedDeletable(h: Fields, k: Fields, list: Ptr, s: seq<Ptr>, newitem: Ptr, t: Shape)
    requires Owned(h, t) && Apart(t) && OneOwner(h, OwnedBy(t)) && t.at in s
    requires OwnedBy(t) !! {list, newitem} && forall p | p in s && p != t.at :: p !in OwnedBy(t)
    requires OnlyRelinked(h, k, list, s + [newitem]) && Detached(k, t.at)
    ensures Deletable(k, t.at, [t]) && OwnedByAll([t]) == OwnedBy(t) && OneOwner(k, OwnedBy(t))
    ensures k.data == h.data && k.texts == h.texts
  {
    hide Chain, StringsOf, NodeStrings, Owned;
    SwappedStays(h, k, list, s + [newitem], t);
    SingleDeletable(k, t);
  }

  lemma SwappedStays(h: Fields, k: Fields, list: Ptr, s: seq<Ptr>, t: Shape)
    requires Owned(h, t) && OnlyRelinked(h, k, list, s) && list !in OwnedBy(t)
    requires !t.isRef ==> forall p | p in s :: p !in OwnedByAll(t.kids)
    ensures Owned(k, t)
  {
    OwnedRelinked(h, k, t);
  }

  lemma SingleDeletable(h: Fields, t: Shape)
    requires Owned(h, t) && Apart(t) && Detached(h, t.at)
    ensures Deletable(h, t.at, [t]) && OwnedByAll([t]) == OwnedBy(t)
  {
  }

  lemma ChildrenStay(h: Fields, gone: set<Ptr>, list: Ptr, s: seq<Ptr>)
    requires Children(h, list, s) && list !in gone && forall p | p in s :: p !in gone
    ensures Children(Freed(h, gone), list, s)
  {
    hide StringsOf;
    FreedAgrees(h, gone, set p | p in s);
    ChainAgrees(h, Freed(h, gone), s);
  }
}
