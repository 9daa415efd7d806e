/** `cJSON_Duplicate` (lib/cJSON.c:720-745). */
module Duplicate {
  import opened Nodes
  import opened Ownership

  // -------------------------------------------------------------- allocation

  lemma FreshAddress(s: set<Ptr>)
    ensures exists p: Ptr :: p != NULL && p !in s
  {
    var p := Above(s);
    assert p != NULL && p !in s;
  }

  lemma {:induction false} Above(s: set<Ptr>) returns (p: Ptr)
    ensures p > 0 && forall q | q in s :: q < p
  {
    if s == {} {
      p := 1;
    } else {
      var q :| q in s;
      var r := Above(s - {q});
      p := if r > q then r else q + 1;
      assert forall x | x in s :: x == q || x in s - {q};
    }
  }

  /** A heap with one more node. */
  ghost function Added(h: Fields, p: Ptr, child: Ptr, d: Data): Fields {
    Fields(h.next[p := NULL], h.prev[p := NULL], h.child[p := child], h.data[p := d], h.texts)
  }

  /** `cJSON_New_Item`, any address not in use, and the assignments to the new node that follow it. */
  method NewItem(heap: Heap, child: Ptr, d: Data) returns (p: Ptr)
    requires Valid(heap.Now())
    modifies heap
    ensures p != NULL && p !in old(heap.data) && heap.Now() == Added(old(heap.Now()), p, child, d)
  {
    FreshAddress(heap.data.Keys);
    p :| p != NULL && p !in heap.data;
    heap.next, heap.prev, heap.child, heap.data :=
      heap.next[p := NULL], heap.prev[p := NULL], heap.child[p := child], heap.data[p := d];
  }

  /** `cJSON_strdup`: the same characters at an address not in use. */
  method Strdup(heap: Heap, str: Ptr) returns (copy: Ptr)
    requires str in heap.texts
    modifies heap`texts
    ensures copy != NULL && copy !in old(heap.texts) && heap.texts == old(heap.texts[copy := heap.texts[str]])
  {
    FreshAddress(heap.texts.Keys);
    copy :| copy != NULL && copy !in heap.texts;
    heap.texts := heap.texts[copy := heap.texts[str]];
  }

  /** Every node and string of `h` is in `k`, unchanged. */
  ghost predicate Grown(h: Fields, k: Fields) {
    Agree(h, k, h.data.Keys) && TextsGrown(h, k)
  }

  ghost predicate TextsGrown(h: Fields, k: Fields) {
    forall q | q in h.texts :: q in k.texts && k.texts[q] == h.texts[q]
  }

  /** The strings that the nodes of `s` show can be read. */
  ghost predicate Readable(h: Fields, s: set<Ptr>) {
    forall p | p in s && p in h.data :: NodeTexts(h.data[p]) <= h.texts.Keys
  }

  lemma {:induction false} WholeIn(h: Fields, t: Shape)
    requires Whole(h, t)
    ensures All(t) <= h.data.Keys
    decreases t, 0
  {
    WholeAllIn(h, t.kids);
  }

  lemma {:induction false} WholeAllIn(h: Fields, ts: seq<Shape>)
    requires forall i | 0 <= i < |ts| :: Whole(h, ts[i])
    ensures AllOf(ts) <= h.data.Keys
    decreases ts, 1
  {
    if ts != [] {
      WholeIn(h, ts[0]);
      WholeAllIn(h, ts[1..]);
    }
  }

  /** A whole tree is there after the heap has grown. */
  lemma WholeGrown(h: Fields, k: Fields, t: Shape)
    requires Whole(h, t) && Grown(h, k)
    ensures Whole(k, t)
  {
    WholeIn(h, t);
    WholeStays(h, k, t);
  }

  lemma WholeNode(h: Fields, t: Shape)
    requires Whole(h, t)
    ensures t.at != NULL && t.at in h.child && t.at in h.data
  {
  }

  lemma AddedGrown(h: Fields, p: Ptr, child: Ptr, d: Data)
    requires Valid(h) && p != NULL && p !in h.data
    ensures Grown(h, Added(h, p, child, d)) && Valid(Added(h, p, child, d)) && Detached(Added(h, p, child, d), p)
  {
  }

  // ------------------------------------------------------------- duplication

  /** A tree without references, owning all it reaches. */
  ghost predicate NoRefs(t: Shape)
    decreases t
  {
    !t.isRef && forall i | 0 <= i < |t.kids| :: NoRefs(t.kids[i])
  }

  lemma {:induction false} NoRefsOwnsAll(t: Shape)
    requires NoRefs(t)
    ensures OwnedBy(t) == All(t)
    decreases t, 0
  {
    NoRefsOwnAll(t.kids);
  }

  lemma {:induction false} NoRefsOwnAll(ts: seq<Shape>)
    requires forall i | 0 <= i < |ts| :: NoRefs(ts[i])
    ensures OwnedByAll(ts) == AllOf(ts)
    decreases ts, 1
  {
    if ts != [] {
      NoRefsOwnsAll(ts[0]);
      NoRefsOwnAll(ts[1..]);
    }
  }

  /** Both null, or two strings of the same characters. */
  ghost predicate SameText(h: Fields, p: Ptr, k: Fields, q: Ptr) {
    if p == NULL || q == NULL then p == q else p in h.texts && q in k.texts && h.texts[p] == k.texts[q]
  }

  /** Two nodes with equal contents, apart from whether they are references. */
  ghost predicate SameContent(h: Fields, a: Ptr, k: Fields, b: Ptr) {
    && a in h.data && b in k.data
    && var (d, e) := (h.data[a], k.data[b]);
       && d.kind == e.kind && d.stringIsConst == e.stringIsConst && d.valueint == e.valueint && d.valuedouble == e.valuedouble
       && SameText(h, d.valuestring, k, e.valuestring) && SameText(h, d.key, k, e.key)
  }

  /** Two trees with equal contents, child by child; a reference counts as the tree it shows. */
  ghost predicate Alike(h: Fields, t: Shape, k: Fields, c: Shape)
    decreases t
  {
    && SameContent(h, t.at, k, c.at)
    && |t.kids| == |c.kids| && forall i | 0 <= i < |t.kids| :: Alike(h, t.kids[i], k, c.kids[i])
  }

  /** Likeness depends on contents only. */
  lemma {:induction false} AlikeStays(h: Fields, t: Shape, k: Fields, c: Shape, k': Fields)
    requires Alike(h, t, k, c) && TextsGrown(k, k')
    requires forall p | p in All(c) && p in k.data :: p in k'.data && k'.data[p] == k.data[p]
    ensures Alike(h, t, k', c)
    decreases t
  {
    hide All;
    assert c.at in All(c) by { hide *; TopInAll(c); }
    ContentStays(h, t.at, k, c.at, k');
    hide SameContent;
    forall i | 0 <= i < |t.kids|
      ensures Alike(h, t.kids[i], k', c.kids[i])
    {
      KidInAll(c, i);
      AlikeStays(h, t.kids[i], k, c.kids[i], k');
    }
  }

  lemma TopInAll(t: Shape)
    ensures t.at in All(t)
  {
  }

  lemma KidInAll(t: Shape, i: nat)
    requires i < |t.kids|
    ensures All(t.kids[i]) <= All(t)
  {
    MemberAll(t.kids, i);
  }

  lemma ContentStays(h: Fields, a: Ptr, k: Fields, b: Ptr, k': Fields)
    requires SameContent(h, a, k, b) && TextsGrown(k, k') && b in k'.data && k'.data[b] == k.data[b]
    ensures SameContent(h, a, k', b)
  {
  }

  lemma {:induction false} OwnedByAllAppend(ts: seq<Shape>, t: Shape)
    ensures OwnedByAll(ts + [t]) == OwnedByAll(ts) + OwnedBy(t)
    ensures ApartAll(ts) && Apart(t) && OwnedBy(t) !! OwnedByAll(ts) ==> ApartAll(ts + [t])
  {
    if ts == [] {
      assert (ts + [t])[1..] == [];
    } else {
      assert (ts + [t])[1..] == ts[1..] + [t];
      OwnedByAllAppend(ts[1..], t);
    }
  }

  /** The copies made so far of the first children of `t`, linked under `copy`. */
  ghost predicate Copying(h: Fields, now: Fields, t: Shape, copy: Ptr, copies: seq<Shape>) {
    && CopyNode(h, now, t, copy) && Children(now, copy, Ats(copies))
    && CopySpace(h, now, copy, copies) && CopiesOf(h, now, t, copies)
  }

  /** The copy of the root itself, in a heap that has only grown. */
  ghost predicate CopyNode(h: Fields, now: Fields, t: Shape, copy: Ptr) {
    && Grown(h, now) && Detached(now, copy) && copy !in h.data && copy in now.data
    && !now.data[copy].isReference && SameContent(h, t.at, now, copy)
  }

  /** The nodes that have been added, and the strings. */
  ghost predicate CopySpace(h: Fields, now: Fields, copy: Ptr, copies: seq<Shape>) {
    && ApartAll(copies) && copy !in OwnedByAll(copies) && OwnedByAll(copies) !! h.data.Keys
    && (forall p :: p in now.data <==> p in h.data || p == copy || p in OwnedByAll(copies))
    && OwnTexts(h, now, {copy} + OwnedByAll(copies))
  }

  /** The nodes of `s` show exactly the strings that have been added, no string twice. */
  ghost predicate OwnTexts(h: Fields, now: Fields, s: set<Ptr>) {
    && now.texts.Keys == h.texts.Keys + TextsOf(now.data, s) && TextsOf(now.data, s) !! h.texts.Keys
    && TextsApart(now.data, s)
  }

  ghost predicate TextsApart(data: map<Ptr, Data>, s: set<Ptr>) {
    && (forall p | p in s && p in data :: data[p].valuestring != NULL ==> data[p].valuestring != data[p].key)
    && forall p, q | p in s && q in s && p != q && p in data && q in data :: NodeTexts(data[p]) !! NodeTexts(data[q])
  }

  /** The strings of the nodes added before, and those of the nodes added since. */
  lemma OwnTextsJoin(h: Fields, was: Fields, now: Fields, s: set<Ptr>, t: set<Ptr>)
    requires OwnTexts(h, was, s) && OwnTexts(was, now, t) && Grown(was, now) && s <= was.data.Keys && s !! t
    ensures OwnTexts(h, now, s + t)
  {
    assert forall p | p in s :: p in now.data && now.data[p] == was.data[p];
    hide Grown, NodeTexts, TextsOf, TextsApart;
    TextsJoin(was.data, now.data, s, t);
    ApartJoin(was.data, now.data, s, t);
  }

  lemma TextsJoin(was: map<Ptr, Data>, now: map<Ptr, Data>, s: set<Ptr>, t: set<Ptr>)
    requires s <= was.Keys && forall p | p in s :: p in now && now[p] == was[p]
    ensures TextsOf(now, s + t) == TextsOf(was, s) + TextsOf(now, t)
  {
    hide NodeTexts;
  }

  lemma ApartJoin(was: map<Ptr, Data>, now: map<Ptr, Data>, s: set<Ptr>, t: set<Ptr>)
    requires s <= was.Keys && forall p | p in s :: p in now && now[p] == was[p]
    requires TextsApart(was, s) && TextsApart(now, t) && TextsOf(was, s) !! TextsOf(now, t)
    ensures TextsApart(now, s + t)
  {
    hide NodeTexts;
    forall p, q | p in s && q in t && q in now
      ensures NodeTexts(now[p]) !! NodeTexts(now[q])
    {
      assert NodeTexts(now[p]) <= TextsOf(was, s) && NodeTexts(now[q]) <= TextsOf(now, t);
    }
  }

  ghost predicate CopiesOf(h: Fields, now: Fields, t: Shape, copies: seq<Shape>) {
    |copies| <= |t.kids| && forall i | 0 <= i < |copies| :: CopyOf(h, t.kids[i], now, copies[i])
  }

  ghost predicate CopyOf(h: Fields, t: Shape, now: Fields, c: Shape) {
    Whole(now, c) && NoRefs(c) && Alike(h, t, now, c)
  }

  /** What `cJSON_Duplicate` with `recurse` leaves. */
  ghost predicate Duplicated(h: Fields, t: Shape, now: Fields, copy: Shape) {
    && Valid(now) && Grown(h, now) && CopyOf(h, t, now, copy) && Apart(copy) && Detached(now, copy.at)
    && OwnedBy(copy) !! h.data.Keys && (forall p :: p in now.data <==> p in h.data || p in OwnedBy(copy))
    && OwnTexts(h, now, OwnedBy(copy))
  }

  /** A copied child linked last under the copy: the sibling links of the chain and the new
      node, and the copy's child pointer, are all that changed. */
  lemma CopyStays(h: Fields, was: Fields, now: Fields, list: Ptr, s: seq<Ptr>, t: Shape, c: Shape)
    requires CopyOf(h, t, was, c) && Apart(c) && OnlyRelinked(was, now, list, s)
    requires list !in OwnedBy(c) && forall p | p in s :: p == c.at || p !in OwnedBy(c)
    ensures CopyOf(h, t, now, c)
  {
    NoRefsOwnsAll(c);
    NoRefsOwnAll(c.kids);
    WholeRelinked(was, now, c);
    AlikeStays(h, t, was, c, now);
  }

  lemma {:induction false} ApartPairs(ts: seq<Shape>, i: nat, j: nat)
    requires ApartAll(ts) && i < |ts| && j < |ts| && i != j
    ensures OwnedBy(ts[i]) !! OwnedBy(ts[j])
    decreases |ts|
  {
    if i > 0 && j > 0 {
      ApartPairs(ts[1..], i - 1, j - 1);
    } else {
      MemberOwned(ts[1..], if i == 0 then j - 1 else i - 1);
    }
  }

  /** The state after one more child has been copied, before it is linked. */
  lemma CopiesGrown(h: Fields, was: Fields, now: Fields, t: Shape, copy: Ptr, copies: seq<Shape>, c: Shape)
    requires Copying(h, was, t, copy, copies) && |copies| < |t.kids|
    requires Valid(now) && Grown(was, now)
    ensures Children(now, copy, Ats(copies)) && CopyNode(h, now, t, copy) && CopiesOf(h, now, t, copies)
  {
    hide CopyNode, CopySpace, CopyOf, Grown, Children, CopiesOf;
    ChildrenGrown(was, now, copy, Ats(copies));
    ValidList(was, copy, Ats(copies));
    NodeGrown(h, was, now, t, copy);
    CopiesOfGrown(h, was, now, t, copies);
  }

  lemma CopiesOfGrown(h: Fields, was: Fields, now: Fields, t: Shape, copies: seq<Shape>)
    requires CopiesOf(h, was, t, copies) && Grown(was, now)
    ensures CopiesOf(h, now, t, copies)
  {
    hide CopyOf, Grown;
    forall i | 0 <= i < |copies|
      ensures CopyOf(h, t.kids[i], now, copies[i])
    {
      CopyGrown(h, was, now, t.kids[i], copies[i]);
    }
  }

  lemma ChildrenGrown(was: Fields, now: Fields, list: Ptr, s: seq<Ptr>)
    requires Children(was, list, s) && Valid(now) && Grown(was, now)
    ensures Children(now, list, s)
  {
    forall p | p in s
      ensures p in was.data
    {
      var i :| 0 <= i < |s| && s[i] == p;
      LinkIn(was.next, was.prev, s, i);
    }
    hide Chain;
    AgreeSubset(was, now, was.data.Keys, set p | p in s);
    ChainAgrees(was, now, s);
  }

  lemma NodeGrown(h: Fields, was: Fields, now: Fields, t: Shape, copy: Ptr)
    requires CopyNode(h, was, t, copy) && Valid(was) && Grown(was, now)
    ensures CopyNode(h, now, t, copy)
  {
    ContentStays(h, t.at, was, copy, now);
    hide SameContent;
  }

  lemma CopyGrown(h: Fields, was: Fields, now: Fields, t: Shape, c: Shape)
    requires CopyOf(h, t, was, c) && Grown(was, now)
    ensures CopyOf(h, t, now, c)
  {
    WholeIn(was, c);
    WholeGrown(was, now, c);
    AlikeStays(h, t, was, c, now);
  }

  /** A child duplicated later is like the child in the first heap. */
  lemma {:induction false} AlikeEarlier(h: Fields, was: Fields, t: Shape, k: Fields, c: Shape)
    requires Alike(was, t, k, c) && Whole(h, t) && Grown(h, was) && Readable(h, All(t))
    ensures Alike(h, t, k, c)
    decreases t
  {
    TopInAll(t);
    ContentEarlier(h, was, t.at, k, c.at);
    hide SameContent, All, Grown, ChildrenAre;
    forall i | 0 <= i < |t.kids|
      ensures Alike(h, t.kids[i], k, c.kids[i])
    {
      KidInAll(t, i);
      AlikeEarlier(h, was, t.kids[i], k, c.kids[i]);
    }
  }

  lemma ContentEarlier(h: Fields, was: Fields, a: Ptr, k: Fields, b: Ptr)
    requires SameContent(was, a, k, b) && Grown(h, was) && a in h.data && NodeTexts(h.data[a]) <= h.texts.Keys
    ensures SameContent(h, a, k, b)
  {
    var d := h.data[a];
    assert d == was.data[a];
    assert d.valuestring != NULL ==> d.valuestring in NodeTexts(d);
    assert d.key != NULL ==> d.key in NodeTexts(d);
  }

  lemma AtsAppend(ts: seq<Shape>, t: Shape)
    ensures Ats(ts + [t]) == Ats(ts) + [t.at]
    ensures forall p | p in Ats(ts) :: p in OwnedByAll(ts)
  {
    forall p | p in Ats(ts)
      ensures p in OwnedByAll(ts)
    {
      var i :| 0 <= i < |ts| && Ats(ts)[i] == p;
      MemberOwned(ts, i);
    }
  }

  /** All copies are still copies once the new one has been linked last. */
  lemma CopiesLinked(h: Fields, mid: Fields, now: Fields, t: Shape, copy: Ptr, ts: seq<Shape>)
    requires OnlyRelinked(mid, now, copy, Ats(ts)) && ApartAll(ts) && copy !in OwnedByAll(ts)
    requires CopiesOf(h, mid, t, ts)
    ensures CopiesOf(h, now, t, ts)
  {
    hide CopyOf, OnlyRelinked;
    forall i | 0 <= i < |ts|
      ensures CopyOf(h, t.kids[i], now, ts[i])
    {
      MemberOwned(ts, i);
      forall p | p in Ats(ts)
        ensures p == ts[i].at || p !in OwnedBy(ts[i])
      {
        OtherTops(ts, i, p);
      }
      CopyStays(h, mid, now, copy, Ats(ts), t.kids[i], ts[i]);
    }
  }

  /** Linking the new child last completes one more turn of the loop. */
  lemma CopyLinked(h: Fields, was: Fields, mid: Fields, t: Shape, copy: Ptr, copies: seq<Shape>, c: Shape)
    requires Valid(h) && Whole(h, t) && Readable(h, All(t)) && Copying(h, was, t, copy, copies) && |copies| < |t.kids|
    requires Duplicated(was, t.kids[|copies|], mid, c)
    ensures Children(mid, copy, Ats(copies)) && Detached(mid, c.at) && c.at in mid.data && c.at !in Ats(copies)
    ensures Copying(h, Inserting(mid, copy, Ats(copies), |copies|, c.at), t, copy, copies + [c])
  {
    hide *;
    var s, ts := Ats(copies), copies + [c];
    var now := Inserting(mid, copy, s, |s|, c.at);
    DuplicatedGrown(was, t.kids[|copies|], mid, c);
    CopiesGrown(h, was, mid, t, copy, copies, c);
    AtsAppend(copies, c);
    FreshCopy(h, was, mid, t, copy, copies, c);
    NewCopies(h, was, mid, t, copy, copies, c);
    InsertCorrect(mid, copy, s, |s|, c.at);
    InsertedLast(s, c.at);
    LinkedNode(h, mid, now, t, copy, s + [c.at]);
    LinkedSpace(h, mid, now, copy, ts);
    CopiesLinked(h, mid, now, t, copy, ts);
    CopyingParts(h, now, t, copy, ts);
  }

  lemma InsertedLast(s: seq<Ptr>, p: Ptr)
    ensures Inserted(s, |s|, p) == s + [p]
  {
  }

  lemma CopyingParts(h: Fields, now: Fields, t: Shape, copy: Ptr, copies: seq<Shape>)
    requires CopyNode(h, now, t, copy) && Children(now, copy, Ats(copies))
    requires CopySpace(h, now, copy, copies) && CopiesOf(h, now, t, copies)
    ensures Copying(h, now, t, copy, copies)
  {
  }

  lemma NewCopies(h: Fields, was: Fields, mid: Fields, t: Shape, copy: Ptr, copies: seq<Shape>, c: Shape)
    requires Whole(h, t) && Readable(h, All(t)) && Grown(h, was) && |copies| < |t.kids| && CopiesOf(h, mid, t, copies)
    requires CopyOf(was, t.kids[|copies|], mid, c)
    ensures CopiesOf(h, mid, t, copies + [c])
  {
    KidInAll(t, |copies|);
    hide Alike, NoRefs, All;
    AlikeEarlier(h, was, t.kids[|copies|], mid, c);
    hide Whole;
  }

  lemma DuplicatedGrown(h: Fields, t: Shape, now: Fields, c: Shape)
    requires Duplicated(h, t, now, c)
    ensures Valid(now) && Grown(h, now)
  {
  }

  /** The new copy is apart from all that was there. */
  lemma FreshCopy(h: Fields, was: Fields, mid: Fields, t: Shape, copy: Ptr, copies: seq<Shape>, c: Shape)
    requires Valid(h) && Copying(h, was, t, copy, copies) && |copies| < |t.kids| && Duplicated(was, t.kids[|copies|], mid, c)
    ensures c.at in mid.data && c.at !in Ats(copies) && c.at != copy && copy !in h.data
    ensures Detached(mid, c.at) && Grown(h, was) && CopyOf(was, t.kids[|copies|], mid, c)
    ensures CopySpace(h, mid, copy, copies + [c]) && forall p | p in Ats(copies + [c]) :: p !in h.data && p != copy
  {
    hide Chain, Whole, Alike, NoRefs, ApartAll, Apart, OwnedByAll, CopiesOf, OwnTexts, Grown, SameContent, Ats;
    AtsAppend(copies, c);
    OwnedByAllAppend(copies, c);
    assert c.at in OwnedBy(c);
    hide OwnedBy;
    assert Grown(h, was) by { CopyingGrown(h, was, t, copy, copies); }
    OwnTextsJoin(h, was, mid, {copy} + OwnedByAll(copies), OwnedBy(c));
    assert {copy} + OwnedByAll(copies) + OwnedBy(c) == {copy} + OwnedByAll(copies + [c]);
    TopOfCopy(was, t.kids[|copies|], mid, c);
    GrownData(was, mid);
  }

  lemma TopOfCopy(h: Fields, t: Shape, now: Fields, c: Shape)
    requires CopyOf(h, t, now, c)
    ensures c.at in now.data
  {
  }

  lemma GrownData(h: Fields, now: Fields)
    requires Grown(h, now)
    ensures forall p | p in h.data :: p in now.data
  {
  }

  lemma LinkedSpace(h: Fields, mid: Fields, now: Fields, copy: Ptr, ts: seq<Shape>)
    requires CopySpace(h, mid, copy, ts) && now.data == mid.data && now.texts == mid.texts
    ensures CopySpace(h, now, copy, ts) && ApartAll(ts) && copy !in OwnedByAll(ts)
  {
  }

  lemma LinkedNode(h: Fields, mid: Fields, now: Fields, t: Shape, copy: Ptr, s: seq<Ptr>)
    requires Valid(h) && CopyNode(h, mid, t, copy) && OnlyRelinked(mid, now, copy, s)
    requires forall p | p in s :: p !in h.data && p != copy
    ensures CopyNode(h, now, t, copy) && now.data == mid.data && now.texts == mid.texts
  {
  }

  /** The root of one copy is in no other copy. */
  lemma OtherTops(ts: seq<Shape>, i: nat, p: Ptr)
    requires ApartAll(ts) && i < |ts| && p in Ats(ts)
    ensures p == ts[i].at || p !in OwnedBy(ts[i])
  {
    var j :| 0 <= j < |ts| && Ats(ts)[j] == p;
    if j != i { ApartPairs(ts, i, j); }
  }

  /** The node that the first lines of `cJSON_Duplicate` leave: detached, with copies of both strings. */
  ghost predicate CopiedItem(h: Fields, now: Fields, item: Ptr, copy: Ptr) {
    && copy != NULL && copy !in h.data && copy in now.data
    && now == Added(h, copy, NULL, now.data[copy]).(texts := now.texts)
    && item in h.data && SameContent(h, item, now, copy) && !now.data[copy].isReference
    && TextsGrown(h, now) && OwnTexts(h, now, {copy})
  }

  /** Before any child is copied. */
  lemma CopyBegun(h: Fields, now: Fields, t: Shape, copy: Ptr)
    requires Valid(h) && Whole(h, t) && CopiedItem(h, now, t.at, copy)
    ensures Copying(h, now, t, copy, [])
  {
    hide OwnTexts, SameContent, Whole, CopyNode, CopySpace;
    NodeBegun(h, now, t, copy);
    assert {copy} + OwnedByAll([]) == {copy};
    assert CopySpace(h, now, copy, []) by { hide *; SpaceBegun(h, now, t.at, copy); }
  }

  lemma NodeBegun(h: Fields, now: Fields, t: Shape, copy: Ptr)
    requires Valid(h) && CopiedItem(h, now, t.at, copy)
    ensures CopyNode(h, now, t, copy) && Valid(now) && Children(now, copy, [])
  {
    hide OwnTexts, SameContent;
    AddedGrown(h, copy, NULL, now.data[copy]);
  }

  lemma SpaceBegun(h: Fields, now: Fields, item: Ptr, copy: Ptr)
    requires CopiedItem(h, now, item, copy)
    ensures CopySpace(h, now, copy, [])
  {
    hide OwnTexts, SameContent;
    assert {copy} + OwnedByAll([]) == {copy};
  }

  /** After all children are copied. */
  lemma CopyDone(h: Fields, now: Fields, t: Shape, copy: Ptr, copies: seq<Shape>)
    requires Copying(h, now, t, copy, copies) && |copies| == |t.kids| && copy != NULL
    ensures Duplicated(h, t, now, Shape(copy, false, copies))
  {
    hide OwnTexts, SameContent, Children, CopyOf, CopiesOf, Grown, Detached, Chain, ApartAll, OwnedByAll, Valid;
    CopyComplete(h, now, t, copy, copies);
    ValidList(now, copy, Ats(copies));
    assert OwnedBy(Shape(copy, false, copies)) == {copy} + OwnedByAll(copies);
  }

  lemma CopyComplete(h: Fields, now: Fields, t: Shape, copy: Ptr, copies: seq<Shape>)
    requires CopyNode(h, now, t, copy) && Children(now, copy, Ats(copies)) && CopiesOf(h, now, t, copies)
    requires |copies| == |t.kids| && copy != NULL
    ensures CopyOf(h, t, now, Shape(copy, false, copies))
  {
    hide SameContent, Grown, Detached, Chain, Valid;
  }

  /** What the copying loop needs of the children still to be copied, and of the last one copied. */
  lemma NextChild(h: Fields, now: Fields, t: Shape, copy: Ptr, copies: seq<Shape>)
    requires Whole(h, t) && Copying(h, now, t, copy, copies)
    ensures |copies| > 0 ==> var last := t.kids[|copies| - 1].at;
      last in now.next && now.next[last] == Nth(Ats(t.kids), |copies|)
    ensures Tail(copies) == if copies == [] then NULL else copies[|copies| - 1].at
    ensures Nth(Ats(t.kids), |copies|) == NULL <==> |copies| == |t.kids|
    ensures |copies| < |t.kids| ==> Whole(now, t.kids[|copies|]) && t.kids[|copies|].at == Nth(Ats(t.kids), |copies|)
    ensures |copies| < |t.kids| ==> LinkAt(now.next, now.prev, Ats(t.kids), |copies|)
    ensures Valid(now) && t.at in now.child && now.child[t.at] == Nth(Ats(t.kids), 0)
    ensures Children(now, copy, Ats(copies))
  {
    hide CopyNode, CopySpace, Children, Chain, Whole, Grown, Valid, LinkAt;
    assert |copies| <= |t.kids|;
    CopyingGrown(h, now, t, copy, copies);
    ValidList(now, copy, Ats(copies));
    WholeGrown(h, now, t);
    KidLinks(now, t, |copies|);
  }

  lemma KidLinks(h: Fields, t: Shape, n: nat)
    requires Whole(h, t) && n <= |t.kids|
    ensures n > 0 ==> t.kids[n - 1].at in h.next && h.next[t.kids[n - 1].at] == Nth(Ats(t.kids), n)
    ensures Nth(Ats(t.kids), n) == NULL <==> n == |t.kids|
    ensures n < |t.kids| ==> Whole(h, t.kids[n]) && LinkAt(h.next, h.prev, Ats(t.kids), n)
    ensures t.at in h.child && h.child[t.at] == Nth(Ats(t.kids), 0)
  {
    hide Whole, Chain, LinkAt;
    WholeParts(h, t, n);
    if n > 0 { ChainEnds(h.next, h.prev, Ats(t.kids), n - 1); NextOf(h, Ats(t.kids), n - 1); }
    ChainEnds(h.next, h.prev, Ats(t.kids), n);
  }

  lemma WholeParts(h: Fields, t: Shape, n: nat)
    requires Whole(h, t) && n <= |t.kids|
    ensures ChildrenAre(h, t.at, Ats(t.kids)) && (n < |t.kids| ==> Whole(h, t.kids[n]))
  {
    hide ChildrenAre, Chain;
  }

  lemma NextOf(h: Fields, s: seq<Ptr>, i: nat)
    requires i < |s| && LinkAt(h.next, h.prev, s, i)
    ensures s[i] in h.next && h.next[s[i]] == Nth(s, i + 1)
  {
  }

  /** The last child linked, or null. */
  ghost function Tail(copies: seq<Shape>): Ptr {
    Nth(Ats(copies), |copies| - 1)
  }

  /** The copy of a string that is there, or null. */
  method StrdupIfAny(heap: Heap, str: Ptr) returns (copy: Ptr)
    requires str != NULL ==> str in heap.texts
    modifies heap`texts
    ensures if str == NULL then copy == NULL && heap.texts == old(heap.texts)
      else copy != NULL && copy !in old(heap.texts) && heap.texts == old(heap.texts[copy := heap.texts[str]])
  {
    copy := NULL;
    if str != NULL { copy := Strdup(heap, str); }
  }

  /** The new node of `cJSON_Duplicate` and the copies of the item's strings. */
  method CopyItem(heap: Heap, item: Ptr) returns (newitem: Ptr)
    requires Valid(heap.Now()) && item in heap.data && Readable(heap.Now(), {item})
    modifies heap
    ensures CopiedItem(old(heap.Now()), heap.Now(), item, newitem)
  {
    hide Valid, CopiedItem, Readable;
    ghost var h := heap.Now();
    var d := heap.data[item];
    TextsRead(h, item);
    newitem := NewItem(heap, NULL, Data(d.kind, false, d.stringIsConst, NULL, d.valueint, d.valuedouble, NULL));
    var valuestring := StrdupIfAny(heap, d.valuestring);
    heap.data := heap.data[newitem := heap.data[newitem].(valuestring := valuestring)];
    ghost var mid := heap.texts;
    var key := StrdupIfAny(heap, d.key);
    heap.data := heap.data[newitem := heap.data[newitem].(key := key)];
    ItemCopied(h, mid, heap.Now(), item, newitem);
  }

  lemma TextsRead(h: Fields, p: Ptr)
    requires Readable(h, {p}) && p in h.data
    ensures h.data[p].valuestring != NULL ==> h.data[p].valuestring in h.texts
    ensures h.data[p].key != NULL ==> h.data[p].key in h.texts
  {
    var d := h.data[p];
    assert d.valuestring != NULL ==> d.valuestring in NodeTexts(d);
    assert d.key != NULL ==> d.key in NodeTexts(d);
  }

  /** What `cJSON_strdup` of a string that may be null leaves. */
  ghost predicate Copied(was: map<Ptr, string>, now: map<Ptr, string>, str: Ptr, copy: Ptr) {
    if str == NULL then copy == NULL && now == was
    else str in was && copy != NULL && copy !in was && now == was[copy := was[str]]
  }

  lemma ItemCopied(h: Fields, mid: map<Ptr, string>, now: Fields, item: Ptr, copy: Ptr)
    requires item in h.data && copy != NULL && copy !in h.data && copy in now.data
    requires now == Added(h, copy, NULL, now.data[copy]).(texts := now.texts)
    requires var (d, e) := (h.data[item], now.data[copy]);
      && e == d.(isReference := false, valuestring := e.valuestring, key := e.key)
      && Copied(h.texts, mid, d.valuestring, e.valuestring) && (d.key != NULL ==> d.key in h.texts)
      && Copied(mid, now.texts, d.key, e.key)
    ensures CopiedItem(h, now, item, copy)
  {
    OneNodeTexts(now.data, copy);
    hide TextsOf;
    assert now.texts.Keys == h.texts.Keys + NodeTexts(now.data[copy]);
  }

  lemma OneNodeTexts(data: map<Ptr, Data>, p: Ptr)
    requires p in data
    ensures TextsOf(data, {p}) == NodeTexts(data[p])
  {
    hide NodeTexts;
  }

  /** `cJSON_Duplicate`: a detached copy in fresh nodes and strings, of the whole tree or of the root alone. */
  method Duplicate(heap: Heap, item: Ptr, recurse: bool, ghost t: Shape) returns (newitem: Ptr, ghost copy: Shape)
    requires item != NULL ==>
      Valid(heap.Now()) && Whole(heap.Now(), t) && t.at == item && Readable(heap.Now(), All(t))
    modifies heap
    decreases t, 1
    ensures item == NULL ==> newitem == NULL && unchanged(heap)
    ensures item != NULL && recurse ==> Duplicated(old(heap.Now()), t, heap.Now(), copy) && copy.at == newitem
    ensures item != NULL && !recurse ==> CopiedItem(old(heap.Now()), heap.Now(), item, newitem)
  {
    copy := t;
    if item == NULL { return NULL, t; }
    hide Whole, Chain, Valid, Grown, Detached, Duplicated, Copying, Children, Ats, LinkAt, Tail, CopiedItem, All, Readable;
    ghost var h := heap.Now();
    WholeNode(h, t);
    ReadableTop(h, t);
    newitem := CopyItem(heap, item);
    assert newitem != NULL by { hide *; CopiedSome(h, heap.Now(), item, newitem); }
    if !recurse { return; }
    CopyBegun(h, heap.Now(), t, newitem);
    ghost var copies: seq<Shape> := [];
    NextChild(h, heap.Now(), t, newitem, copies);
    CopiedChild(h, heap.Now(), t, newitem);
    var cptr, nptr := heap.child[item], NULL;
    while cptr != NULL
      invariant Copying(h, heap.Now(), t, newitem, copies) && |copies| <= |t.kids|
      invariant cptr == Nth(Ats(t.kids), |copies|) && nptr == Tail(copies)
      decreases |t.kids| - |copies|
    {
      NextChild(h, heap.Now(), t, newitem, copies);
      cptr, nptr, copies := DuplicateChild(heap, cptr, newitem, nptr, h, t, copies);
    }
    NextChild(h, heap.Now(), t, newitem, copies);
    CopyDone(h, heap.Now(), t, newitem, copies);
    copy := Shape(newitem, false, copies);
  }

  lemma CopiedSome(h: Fields, now: Fields, item: Ptr, copy: Ptr)
    requires CopiedItem(h, now, item, copy)
    ensures copy != NULL
  {
  }

  lemma CopiedChild(h: Fields, now: Fields, t: Shape, copy: Ptr)
    requires Whole(h, t) && CopiedItem(h, now, t.at, copy)
    ensures t.at in now.child && now.child[t.at] == h.child[t.at]
  {
  }

  lemma ReadableTop(h: Fields, t: Shape)
    requires Readable(h, All(t))
    ensures Readable(h, {t.at})
  {
  }

  /** The strings can be read as long as the heap only grows. */
  lemma ReadableGrown(h: Fields, now: Fields, t: Shape, i: nat)
    requires Whole(h, t) && Readable(h, All(t)) && Grown(h, now) && i < |t.kids|
    ensures Readable(now, All(t.kids[i]))
  {
    KidInAll(t, i);
    WholeIn(h, t);
    hide Whole, All, NodeTexts;
  }

  /** One turn of the copying loop. */
  method DuplicateChild(heap: Heap, cptr: Ptr, newitem: Ptr, nptr: Ptr,
                        ghost h: Fields, ghost t: Shape, ghost copies: seq<Shape>)
    returns (next: Ptr, newchild: Ptr, ghost copies': seq<Shape>)
    requires Valid(h) && Whole(h, t) && Readable(h, All(t))
    requires Copying(h, heap.Now(), t, newitem, copies) && |copies| < |t.kids|
    requires cptr == t.kids[|copies|].at && nptr == Tail(copies)
    modifies heap
    ensures |copies'| == |copies| + 1 && Copying(h, heap.Now(), t, newitem, copies')
    ensures next == Nth(Ats(t.kids), |copies'|) && newchild == Tail(copies')
    decreases t, 0
  {
    hide Whole, Chain, Valid, Grown, Detached, Duplicated, Copying, Children, Ats, LinkAt, Inserting, Tail, All, Readable;
    ghost var was := heap.Now();
    ReadableGrown(h, was, t, |copies|) by { CopyingGrown(h, was, t, newitem, copies); }
    NextChild(h, was, t, newitem, copies);
    assert cptr != NULL by { WholeNode(was, t.kids[|copies|]); }
    ghost var c;
    newchild, c := Duplicate(heap, cptr, true, t.kids[|copies|]);
    CopyLinked(h, was, heap.Now(), t, newitem, copies, c);
    assert Tail(copies) == Nth(Ats(copies), |Ats(copies)| - 1) by { TailIsLast(copies); }
    LinkLast(heap, newitem, nptr, newchild, Ats(copies));
    copies' := copies + [c];
    NextChild(h, heap.Now(), t, newitem, copies');
    next := heap.next[cptr];
  }

  lemma CopyingGrown(h: Fields, now: Fields, t: Shape, copy: Ptr, copies: seq<Shape>)
    requires Copying(h, now, t, copy, copies)
    ensures Grown(h, now)
  {
  }

  lemma TailIsLast(copies: seq<Shape>)
    ensures Tail(copies) == Nth(Ats(copies), |Ats(copies)| - 1)
  {
  }

  /** The links the copying loop sets for a new child. */
  method LinkLast(heap: Heap, newitem: Ptr, nptr: Ptr, newchild: Ptr, ghost s: seq<Ptr>)
    requires Children(heap.Now(), newitem, s) && newchild in heap.data && Detached(heap.Now(), newchild)
    requires nptr == Nth(s, |s| - 1)
    modifies heap
    ensures heap.Now() == Inserting(old(heap.Now()), newitem, s, |s|, newchild)
  {
    AppendReady(heap.Now(), newitem, s, newchild);
    hide Chain, Children;
    if nptr != NULL {
      heap.next := heap.next[nptr := newchild];
      heap.prev := heap.prev[newchild := nptr];
    } else {
      heap.child := heap.child[newitem := newchild];
    }
  }

  // -------------------------------------------------- ownership of the results

  lemma {:induction false} NoRefsOwned(h: Fields, t: Shape)
    requires Whole(h, t) && NoRefs(t)
    ensures Owned(h, t)
    decreases t
  {
    forall i | 0 <= i < |t.kids|
      ensures Owned(h, t.kids[i])
    {
      NoRefsOwned(h, t.kids[i]);
    }
  }

  /** Some node has a key that is not its own: `cJSON_Delete` leaves that key alone. */
  ghost predicate HasConstKey(h: Fields, t: Shape)
    decreases t
  {
    ConstKey(h, t.at) || exists i :: 0 <= i < |t.kids| && HasConstKey(h, t.kids[i])
  }

  ghost predicate ConstKey(h: Fields, p: Ptr) {
    p in h.data && h.data[p].stringIsConst && h.data[p].key != NULL
  }

  lemma {:induction false} ConstKeyWithin(h: Fields, t: Shape)
    ensures HasConstKey(h, t) <==> exists p :: p in All(t) && ConstKey(h, p)
    decreases t, 0
  {
    ConstKeyWithinAll(h, t.kids);
    hide ConstKey;
    if HasConstKey(h, t) {
      if ConstKey(h, t.at) {
        assert t.at in All(t);
      } else {
        var p :| p in AllOf(t.kids) && ConstKey(h, p);
        assert p in All(t);
      }
    }
  }

  lemma {:induction false} ConstKeyWithinAll(h: Fields, ts: seq<Shape>)
    ensures (exists i :: 0 <= i < |ts| && HasConstKey(h, ts[i])) <==> exists p :: p in AllOf(ts) && ConstKey(h, p)
    decreases ts, 1
  {
    hide ConstKey, HasConstKey, All;
    if ts != [] {
      ConstKeyWithin(h, ts[0]);
      ConstKeyWithinAll(h, ts[1..]);
      assert forall i | 0 <= i < |ts[1..]| :: ts[1..][i] == ts[i + 1];
      if exists i :: 0 <= i < |ts[1..]| && HasConstKey(h, ts[1..][i]) {
        var i :| 0 <= i < |ts[1..]| && HasConstKey(h, ts[1..][i]);
        assert HasConstKey(h, ts[i + 1]);
      }
      if i :| 0 <= i < |ts| && HasConstKey(h, ts[i]) {
        if i > 0 { assert HasConstKey(h, ts[1..][i - 1]); }
      }
    }
  }

  lemma {:induction false} ConstKeyAlike(h: Fields, t: Shape, k: Fields, c: Shape)
    requires Alike(h, t, k, c)
    ensures HasConstKey(h, t) <==> HasConstKey(k, c)
    decreases t
  {
    assert ConstKey(h, t.at) <==> ConstKey(k, c.at);
    hide SameContent, ConstKey;
    forall i | 0 <= i < |t.kids|
      ensures HasConstKey(h, t.kids[i]) <==> HasConstKey(k, c.kids[i])
    {
      ConstKeyAlike(h, t.kids[i], k, c.kids[i]);
    }
  }

  lemma {:induction false} NoRefsPlain(h: Fields, t: Shape)
    requires Whole(h, t) && NoRefs(t)
    ensures forall p | p in All(t) :: p in h.data && !h.data[p].isReference
    decreases t, 0
  {
    NoRefsPlainAll(h, t.kids);
  }

  lemma {:induction false} NoRefsPlainAll(h: Fields, ts: seq<Shape>)
    requires forall i | 0 <= i < |ts| :: Whole(h, ts[i]) && NoRefs(ts[i])
    ensures forall p | p in AllOf(ts) :: p in h.data && !h.data[p].isReference
    decreases ts, 1
  {
    if ts != [] {
      NoRefsPlain(h, ts[0]);
      NoRefsPlainAll(h, ts[1..]);
    }
  }

  /** The keys that the nodes of `s` do not own. */
  ghost function ConstKeys(h: Fields, s: set<Ptr>): set<Ptr> {
    set p | p in s && ConstKey(h, p) :: h.data[p].key
  }

  lemma StringsAndKeys(h: Fields, s: set<Ptr>)
    requires forall p | p in s :: p in h.data && !h.data[p].isReference
    requires TextsApart(h.data, s)
    ensures TextsOf(h.data, s) == StringsOf(h.data, s) + ConstKeys(h, s) && StringsOf(h.data, s) !! ConstKeys(h, s)
    ensures TextsOf(h.data, s) <= h.texts.Keys ==> OneOwner(h, s)
  {
    forall p | p in s
      ensures NodeTexts(h.data[p]) == NodeStrings(h.data[p]) + if ConstKey(h, p) then {h.data[p].key} else {}
      ensures ConstKey(h, p) ==> h.data[p].key !in NodeStrings(h.data[p])
    {
    }
    forall x | x in StringsOf(h.data, s)
      ensures x !in ConstKeys(h, s)
    {
      var p :| p in s && x in NodeStrings(h.data[p]);
      forall q | q in s && ConstKey(h, q)
        ensures h.data[q].key != x
      {
        assert h.data[q].key in NodeTexts(h.data[q]) && x in NodeTexts(h.data[p]);
      }
    }
    hide NodeTexts, NodeStrings;
    assert forall x :: x in TextsOf(h.data, s) <==> x in StringsOf(h.data, s) || x in ConstKeys(h, s);
  }

  /** `cJSON_Delete` may be called on a duplicate. It leaves every node as it was before
      `cJSON_Duplicate`, and of the strings just the copies of constant keys are left over: the copy
      is flagged as constant too, so nobody frees it. The whole heap is as before if and only if no
      node of the tree has a constant key. */
  lemma DeleteUndoesDuplicate(h: Fields, t: Shape, now: Fields, copy: Shape)
    requires Valid(h) && Duplicated(h, t, now, copy)
    ensures Deletable(now, copy.at, [copy]) && OneOwner(now, OwnedByAll([copy]))
    ensures var left := Freed(now, OwnedByAll([copy]));
      && left == h.(texts := left.texts)
      && TextsGrown(h, left) && left.texts.Keys == h.texts.Keys + ConstKeys(now, OwnedBy(copy))
      && ConstKeys(now, OwnedBy(copy)) !! h.texts.Keys
      && (left == h <==> !HasConstKey(h, t))
  {
    hide *;
    var s := OwnedBy(copy);
    DuplicateFacts(h, t, now, copy);
    StringsAndKeys(now, s);
    NodesGone(h, now, s);
    TextsGone(h, now, s);
    NoneOrSome(now, s);
    assert Freed(now, s) == h <==> Freed(now, s).texts == h.texts;
  }

  lemma NoneOrSome(h: Fields, s: set<Ptr>)
    ensures ConstKeys(h, s) == {} <==> !exists p :: p in s && ConstKey(h, p)
  {
    if p :| p in s && ConstKey(h, p) { assert h.data[p].key in ConstKeys(h, s); }
  }

  lemma DuplicateFacts(h: Fields, t: Shape, now: Fields, copy: Shape)
    requires Valid(h) && Duplicated(h, t, now, copy)
    ensures Deletable(now, copy.at, [copy]) && OwnedByAll([copy]) == OwnedBy(copy)
    ensures forall p | p in OwnedBy(copy) :: p in now.data && !now.data[p].isReference
    ensures HasConstKey(h, t) <==> exists p :: p in OwnedBy(copy) && ConstKey(now, p)
    ensures Valid(now) && Grown(h, now) && OwnTexts(h, now, OwnedBy(copy)) && TextsGrown(h, now)
    ensures TextsApart(now.data, OwnedBy(copy)) && TextsOf(now.data, OwnedBy(copy)) <= now.texts.Keys
    ensures OwnedBy(copy) !! h.data.Keys && forall p :: p in now.data <==> p in h.data || p in OwnedBy(copy)
  {
    hide Chain, Whole, Alike, NoRefs, Apart, OwnedBy, OwnedByAll, Owned, All, HasConstKey, ConstKey, Deletable, Detached;
    hide TextsOf, TextsApart, Agree;
    NoRefsOwned(now, copy);
    SingleDeletable(now, copy);
    NoRefsPlain(now, copy);
    NoRefsOwnsAll(copy);
    ConstKeyWithin(now, copy);
    ConstKeyAlike(h, t, now, copy);
  }

  lemma NodesGone(h: Fields, now: Fields, s: set<Ptr>)
    requires Valid(h) && Valid(now) && Grown(h, now) && s !! h.data.Keys && forall p :: p in now.data <==> p in h.data || p in s
    ensures Freed(now, s) == h.(texts := Freed(now, s).texts)
  {
    hide StringsOf, TextsGrown;
    FieldGone(h.next, now.next, s);
    FieldGone(h.prev, now.prev, s);
    FieldGone(h.child, now.child, s);
    FieldGone(h.data, now.data, s);
  }

  lemma FieldGone<T>(m: map<Ptr, T>, now: map<Ptr, T>, s: set<Ptr>)
    requires (forall p :: p in now <==> p in m || p in s) && s !! m.Keys && forall p | p in m :: now[p] == m[p]
    ensures now - s == m
  {
  }

  lemma TextsGone(h: Fields, now: Fields, s: set<Ptr>)
    requires TextsGrown(h, now) && OwnTexts(h, now, s) && ConstKeys(now, s) !! StringsOf(now.data, s)
    requires TextsOf(now.data, s) == StringsOf(now.data, s) + ConstKeys(now, s)
    ensures var left := Freed(now, s);
      && TextsGrown(h, left) && left.texts.Keys == h.texts.Keys + ConstKeys(now, s)
      && ConstKeys(now, s) !! h.texts.Keys && (ConstKeys(now, s) == {} <==> left.texts == h.texts)
  {
    hide TextsOf, StringsOf, ConstKeys;
  }

  /** An object with one member, whose key is the constant at 10 as after `cJSON_AddItemToObjectCS`. */
  ghost function ConstMember(): Fields {
    Fields(
      map[1 := NULL, 2 := NULL], map[1 := NULL, 2 := NULL], map[1 := 2, 2 := NULL],
      map[1 := Data(6, false, false, NULL, 0, 0.0, NULL), 2 := Data(3, false, true, NULL, 7, 7.0, 10)], map[10 := "k"])
  }

  ghost function ConstShape(): Shape {
    Shape(1, false, [Shape(2, false, [])])
  }

  /** Deleting a duplicate of it never restores the heap. */
  lemma LeakedKey(now: Fields, copy: Shape)
    ensures Valid(ConstMember()) && Whole(ConstMember(), ConstShape()) && Readable(ConstMember(), All(ConstShape()))
    ensures Duplicated(ConstMember(), ConstShape(), now, copy) ==> Freed(now, OwnedByAll([copy])) != ConstMember()
  {
    hide *;
    MemberHeld();
    ShapeHeld();
    if Duplicated(ConstMember(), ConstShape(), now, copy) {
      DeleteUndoesDuplicate(ConstMember(), ConstShape(), now, copy);
    }
  }

  lemma MemberHeld()
    ensures Valid(ConstMember()) && Readable(ConstMember(), {1, 2})
  {
  }

  lemma ShapeHeld()
    ensures Whole(ConstMember(), ConstShape()) && HasConstKey(ConstMember(), ConstShape())
    ensures All(ConstShape()) == {1, 2}
  {
    LeafHeld(ConstMember(), 2);
    OneKidHeld(ConstMember(), 1, Shape(2, false, []));
  }

  lemma LeafHeld(h: Fields, p: Ptr)
    requires p != NULL && p in h.data && !h.data[p].isReference && p in h.child && h.child[p] == NULL
    ensures var leaf := Shape(p, false, []); Whole(h, leaf) && All(leaf) == {p} && (ConstKey(h, p) ==> HasConstKey(h, leaf))
  {
    assert Ats([]) == [];
  }

  lemma OneKidHeld(h: Fields, p: Ptr, kid: Shape)
    requires p != NULL && p in h.data && !h.data[p].isReference && p in h.child && h.child[p] == kid.at != NULL
    requires Whole(h, kid) && kid.at in h.next && kid.at in h.prev && h.next[kid.at] == h.prev[kid.at] == NULL
    ensures var t := Shape(p, false, [kid]);
      Whole(h, t) && All(t) == {p} + All(kid) && (HasConstKey(h, kid) ==> HasConstKey(h, t))
  {
    hide HasConstKey, All;
    var t := Shape(p, false, [kid]);
    assert Ats([kid]) == [kid.at] && LinkAt(h.next, h.prev, [kid.at], 0);
    assert t.kids[0] == kid;
    assert Whole(h, t);
    OneKidNodes(h, p, kid);
  }

  lemma OneKidNodes(h: Fields, p: Ptr, kid: Shape)
    ensures All(Shape(p, false, [kid])) == {p} + All(kid)
    ensures HasConstKey(h, kid) ==> HasConstKey(h, Shape(p, false, [kid]))
  {
    assert AllOf([kid]) == All(kid) + AllOf([kid][1..]);
    assert Shape(p, false, [kid]).kids[0] == kid;
  }
}
