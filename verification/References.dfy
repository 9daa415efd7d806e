/**
 Reference nodes (lib/cJSON.c:680-687): `create_reference`, adding one to a list, and what
 deleting the list then frees.
 */
module References {
  import opened Duplicate
  import opened Nodes
  import opened Ownership

  // -------------------------------------------------------------- references

  ghost function WithReference(h: Fields, item: Ptr, ref: Ptr): Fields
    requires item in h.data && item in h.child
  {
    Added(h, ref, h.child[item], h.data[item].(isReference := true, key := NULL))
  }

  /** `create_reference`: a detached node with the item's contents and children, owning only itself:
      it shares the item's value string and has no key. */
  method CreateReference(heap: Heap, item: Ptr, ghost t: Shape) returns (ref: Ptr)
    requires Valid(heap.Now()) && Whole(heap.Now(), t) && t.at == item
    modifies heap
    ensures ref !in old(heap.data) && ref in heap.data && Grown(old(heap.Now()), heap.Now()) && Valid(heap.Now())
    ensures Detached(heap.Now(), ref) && heap.data[ref] == old(heap.data)[item].(isReference := true, key := NULL)
    ensures heap.texts == old(heap.texts) && NodeStrings(heap.data[ref]) == {}
    ensures Whole(heap.Now(), Shape(ref, true, t.kids)) && OwnedBy(Shape(ref, true, t.kids)) == {ref}
    ensures ref != NULL && item in old(heap.data) && item in old(heap.child) && heap.Now() == WithReference(old(heap.Now()), item, ref)
  {
    hide Whole, Chain, Valid, Grown, Detached;
    ghost var h := heap.Now();
    WholeNode(h, t);
    ref := NewItem(heap, heap.child[item], heap.data[item].(isReference := true, key := NULL));
    AddedGrown(h, ref, h.child[item], h.data[item].(isReference := true, key := NULL));
    ReferenceWhole(h, heap.Now(), t, ref);
  }

  lemma ReferenceWhole(h: Fields, k: Fields, t: Shape, ref: Ptr)
    requires Whole(h, t) && Grown(h, k) && ref != NULL && ref in k.data && ref in k.child
    requires k.data[ref].isReference && k.child[ref] == h.child[t.at]
    ensures Whole(k, Shape(ref, true, t.kids))
  {
    WholeIn(h, t);
    WholeStays(h, k, t);
  }

  // ------------------------------------------------------------ no cycles

  /** A chain is determined by where it starts. */
  lemma {:induction false} OneChain(next: Links, prev: Links, s: seq<Ptr>, r: seq<Ptr>, i: nat)
    requires Chain(next, prev, s) && Chain(next, prev, r) && i <= |s| && i <= |r| && s[..i] == r[..i]
    requires Nth(s, i) == Nth(r, i)
    ensures s == r
    decreases |s| - i
  {
    ChainEnds(next, prev, s, i);
    ChainEnds(next, prev, r, i);
    hide Chain;
    if i < |s| {
      assert s[..i + 1] == s[..i] + [s[i]] && r[..i + 1] == r[..i] + [r[i]];
      OneChain(next, prev, s, r, i + 1);
    } else {
      assert s == s[..i] && r == r[..i];
    }
  }

  /** A heap holds at most one whole tree at an address. */
  lemma {:induction false} OneShape(h: Fields, a: Shape, b: Shape)
    requires Whole(h, a) && Whole(h, b) && a.at == b.at
    ensures a == b
    decreases a
  {
    OneChain(h.next, h.prev, Ats(a.kids), Ats(b.kids), 0);
    assert |a.kids| == |Ats(a.kids)| == |b.kids|;
    forall i | 0 <= i < |a.kids|
      ensures a.kids[i] == b.kids[i]
    {
      assert Ats(a.kids)[i] == Ats(b.kids)[i];
      OneShape(h, a.kids[i], b.kids[i]);
    }
    assert a.kids == b.kids;
  }

  /** The tree at an address reached below, which is a smaller one. */
  lemma {:induction false} Below(h: Fields, t: Shape, p: Ptr) returns (u: Shape)
    requires Whole(h, t) && p in All(t)
    ensures Whole(h, u) && u.at == p && (u == t || u < t)
    decreases t, 0
  {
    if p == t.at {
      u := t;
    } else {
      var i := BelowAll(h, t.kids, p);
      u := Below(h, t.kids[i], p);
    }
  }

  lemma {:induction false} BelowAll(h: Fields, ts: seq<Shape>, p: Ptr) returns (i: nat)
    requires p in AllOf(ts)
    ensures i < |ts| && p in All(ts[i])
    decreases ts, 0
  {
    if p in All(ts[0]) {
      i := 0;
    } else {
      i := BelowAll(h, ts[1..], p);
      i := i + 1;
    }
  }

  /** Trees have no cycles. */
  lemma NotBelowItself(h: Fields, t: Shape)
    requires Whole(h, t)
    ensures t.at !in AllOf(t.kids)
  {
    if t.at in AllOf(t.kids) {
      var i := BelowAll(h, t.kids, t.at);
      var u := Below(h, t.kids[i], t.at);
      OneShape(h, u, t);
      assert false;
    }
  }

  // ------------------------------------------------------- adding to a list

  /** A tree that `cJSON_Delete` may be called on: in place, no node owned twice and no string. */
  ghost predicate Owns(h: Fields, t: Shape) {
    Owned(h, t) && Apart(t) && OneOwner(h, OwnedBy(t))
  }

  /** `now` is `h` with a reference to `item` appended to the children `s` of `list`: all that changed
      are the new node, the sibling links of the chain and the child pointer of the list. */
  ghost predicate ReferenceAdded(h: Fields, now: Fields, list: Ptr, item: Ptr, s: seq<Ptr>, ref: Ptr) {
    && item in h.data && item in h.child && ref != NULL && ref !in h.data
    && Valid(h) && Children(now, list, s + [ref])
    && OnlyRelinked(WithReference(h, item, ref), now, list, s + [ref])
  }

  /** Neither the list nor another of its children is part of what a reference to `t` shows. */
  ghost predicate Elsewhere(t: Shape, list: Ptr, s: seq<Ptr>) {
    list !in All(t) && forall p | p in s && p != t.at :: p !in AllOf(t.kids)
  }

  /** `cJSON_AddItemReferenceToArray`: the list gains a node that shows the item's children and owns only
      itself. The item's own tree is untouched, unless the list or a child of it is part of that tree. */
  method AddItemReferenceToArray(heap: Heap, list: Ptr, item: Ptr, ghost s: seq<Ptr>, ghost t: Shape)
    returns (ghost ref: Ptr)
    requires Children(heap.Now(), list, s) && Whole(heap.Now(), t) && t.at == item
    modifies heap
    ensures Children(heap.Now(), list, s + [ref]) && heap.texts == old(heap.texts)
    ensures Elsewhere(t, list, s) ==> Whole(heap.Now(), t) && Whole(heap.Now(), Shape(ref, true, t.kids))
    ensures OwnedBy(Shape(ref, true, t.kids)) == {ref}
    ensures ReferenceAdded(old(heap.Now()), heap.Now(), list, item, s, ref)
    ensures forall kids | Ats(kids) == s && Owns(old(heap.Now()), Shape(list, false, kids)) ::
      Owns(heap.Now(), Shape(list, false, kids + [Shape(ref, true, t.kids)]))
  {
    hide Whole, Chain, Grown, All, AllOf, Valid, Detached, Children, OnlyRelinked, Owns, WithReference;
    ghost var h := heap.Now();
    NotBelowItself(h, t);
    ListHeld(h, list, s);
    var node := CreateReference(heap, item, t);
    ref := node;
    ghost var mid := heap.Now();
    ReferenceApart(h, mid, list, s, t, node);
    assert list in h.child;
    heap.AddItemToArray(list, node, s);
    if Elsewhere(t, list, s) { ReferenceLinked(mid, heap.Now(), list, s + [node], t, node); }
    forall kids | Ats(kids) == s && Owns(h, Shape(list, false, kids))
      ensures Owns(heap.Now(), Shape(list, false, kids + [Shape(ref, true, t.kids)]))
    {
      ReferenceOwned(h, heap.Now(), list, item, kids, ref, t.kids);
    }
  }

  lemma ListHeld(h: Fields, list: Ptr, s: seq<Ptr>)
    requires Children(h, list, s)
    ensures Valid(h) && list in h.child
  {
  }

  lemma ReferenceApart(h: Fields, mid: Fields, list: Ptr, s: seq<Ptr>, t: Shape, ref: Ptr)
    requires Children(h, list, s) && Whole(h, t) && Grown(h, mid) && Valid(mid) && ref !in h.data
    ensures Children(mid, list, s) && Whole(mid, t) && ref !in s && ref != list && ref !in All(t)
  {
    forall p | p in s
      ensures p in h.data
    {
      var i :| 0 <= i < |s| && s[i] == p;
      LinkIn(h.next, h.prev, s, i);
    }
    ChainAgrees(h, mid, s);
    WholeIn(h, t);
    WholeGrown(h, mid, t);
  }

  lemma ReferenceLinked(mid: Fields, now: Fields, list: Ptr, s: seq<Ptr>, t: Shape, ref: Ptr)
    requires Whole(mid, t) && Whole(mid, Shape(ref, true, t.kids)) && OnlyRelinked(mid, now, list, s)
    requires ref !in All(t) && list !in All(t) && list != ref && forall p | p in s && p != ref :: p !in AllOf(t.kids)
    ensures Whole(now, t) && Whole(now, Shape(ref, true, t.kids))
  {
    WholeRelinked(mid, now, t);
    WholeRelinked(mid, now, Shape(ref, true, t.kids));
  }

  // ------------------------------------------------------ deleting the list

  lemma {:induction false} OwnedIn(h: Fields, t: Shape)
    requires Owned(h, t)
    ensures OwnedBy(t) <= h.data.Keys
    decreases t, 0
  {
    if !t.isRef { OwnedAllIn(h, t.kids); }
  }

  lemma {:induction false} OwnedAllIn(h: Fields, ts: seq<Shape>)
    requires forall i | 0 <= i < |ts| :: Owned(h, ts[i])
    ensures OwnedByAll(ts) <= h.data.Keys
    decreases ts, 1
  {
    if ts != [] {
      OwnedIn(h, ts[0]);
      OwnedAllIn(h, ts[1..]);
    }
  }

  /** The list owns its children, and the reference besides. */
  lemma ReferenceOwned(h: Fields, now: Fields, list: Ptr, item: Ptr, kids: seq<Shape>, ref: Ptr, shown: seq<Shape>)
    requires Owns(h, Shape(list, false, kids)) && ReferenceAdded(h, now, list, item, Ats(kids), ref)
    ensures var more := Shape(list, false, kids + [Shape(ref, true, shown)]);
      Owns(now, more) && OwnedBy(more) == OwnedBy(Shape(list, false, kids)) + {ref}
  {
    hide Owned, Apart, OneOwner, OwnedBy, OnlyRelinked, WithReference, ChildrenAre, Children;
    var (was, node) := (Shape(list, false, kids), Shape(ref, true, shown));
    var more := Shape(list, false, kids + [node]);
    OwnedIn(h, was);
    ReferenceNode(h, now, list, item, Ats(kids), ref, shown);
    forall i | 0 <= i < |kids|
      ensures Owned(now, kids[i])
    {
      KidStays(h, now, item, was, i, ref);
    }
    assert Ats(more.kids) == Ats(kids) + [ref];
    ChainOf(now, list, Ats(more.kids));
    ListApart(was, node);
    ListOwned(h, now, item, ref, was, more);
    ReferenceStrings(h, now, OwnedBy(was), item, ref);
  }

  lemma ReferenceNode(h: Fields, now: Fields, list: Ptr, item: Ptr, s: seq<Ptr>, ref: Ptr, shown: seq<Shape>)
    requires ReferenceAdded(h, now, list, item, s, ref)
    ensures Owned(now, Shape(ref, true, shown)) && Apart(Shape(ref, true, shown)) && OwnedBy(Shape(ref, true, shown)) == {ref}
    ensures item in h.data && item in h.child && ref !in h.data
    ensures now.data == WithReference(h, item, ref).data && now.texts == h.texts
  {
    hide Chain;
  }

  lemma ListApart(was: Shape, node: Shape)
    requires !was.isRef && Apart(was) && Apart(node) && OwnedBy(node) !! OwnedBy(was)
    ensures var more := Shape(was.at, false, was.kids + [node]);
      Apart(more) && OwnedBy(more) == OwnedBy(was) + OwnedBy(node)
  {
    OwnedByAllAppend(was.kids, node);
  }

  lemma ListOwned(h: Fields, now: Fields, item: Ptr, ref: Ptr, was: Shape, more: Shape)
    requires Owned(h, was) && !was.isRef && !more.isRef && more.at == was.at
    requires item in h.data && item in h.child && ref !in h.data && now.data == WithReference(h, item, ref).data
    requires ChildrenAre(now, more.at, Ats(more.kids)) && forall i | 0 <= i < |more.kids| :: Owned(now, more.kids[i])
    ensures Owned(now, more)
  {
    hide ChildrenAre;
  }

  lemma ChainOf(h: Fields, list: Ptr, s: seq<Ptr>)
    requires Children(h, list, s)
    ensures ChildrenAre(h, list, s)
  {
  }

  /** A child of the list: at most its sibling links changed. */
  lemma KidStays(h: Fields, now: Fields, item: Ptr, was: Shape, i: nat, ref: Ptr)
    requires Owned(h, was) && Apart(was) && !was.isRef && i < |was.kids|
    requires ReferenceAdded(h, now, was.at, item, Ats(was.kids), ref)
    ensures Owned(now, was.kids[i])
  {
    hide Chain, OnlyRelinked;
    var kid := was.kids[i];
    var mid := WithReference(h, item, ref);
    OwnedIn(h, was);
    MemberOwned(was.kids, i);
    assert Owned(mid, kid) by {
      ReferenceAgrees(h, item, ref);
      AgreeSubset(h, mid, h.data.Keys, OwnedBy(kid));
      OwnedStays(h, mid, kid);
    }
    hide Owned, WithReference;
    forall j | 0 <= j < |was.kids|
      ensures was.kids[j].at !in OwnedByAll(kid.kids) || kid.isRef
    {
      MemberOwned(was.kids, j);
      if j != i { ApartPairs(was.kids, i, j); }
    }
    SwappedStays(mid, now, was.at, Ats(was.kids) + [ref], kid);
  }

  lemma ReferenceAgrees(h: Fields, item: Ptr, ref: Ptr)
    requires Valid(h) && item in h.data && item in h.child && ref !in h.data
    ensures Agree(h, WithReference(h, item, ref), h.data.Keys)
  {
  }

  /** The new node owns no string, and the others own what they did. */
  lemma ReferenceStrings(h: Fields, now: Fields, s: set<Ptr>, item: Ptr, ref: Ptr)
    requires OneOwner(h, s) && s <= h.data.Keys && ref !in h.data && item in h.data && item in h.child
    requires now.data == WithReference(h, item, ref).data && now.texts == h.texts
    ensures OneOwner(now, s + {ref})
  {
  }

  /** Deleting the list with the reference in it leaves exactly what deleting it without would have:
      whatever the item is, the reference frees nothing more. */
  lemma DeleteWithReference(h: Fields, now: Fields, list: Ptr, item: Ptr, kids: seq<Shape>, ref: Ptr, shown: seq<Shape>)
    requires Owns(h, Shape(list, false, kids)) && ReferenceAdded(h, now, list, item, Ats(kids), ref) && Detached(h, list)
    ensures var more := Shape(list, false, kids + [Shape(ref, true, shown)]);
      && Deletable(now, list, [more]) && OneOwner(now, OwnedByAll([more]))
      && Freed(now, OwnedByAll([more])) == Freed(h, OwnedBy(Shape(list, false, kids)))
  {
    hide Owned, Apart, OneOwner, OwnedBy, OwnedByAll, WithReference, Children, StringsOf, ReferenceAdded, Deletable;
    var was := Shape(list, false, kids);
    var more := Shape(list, false, kids + [Shape(ref, true, shown)]);
    ReferenceOwned(h, now, list, item, kids, ref, shown);
    OwnedIn(h, was);
    KidsOwned(was);
    ListDetached(h, now, item, was, ref);
    SingleDeletable(now, more);
    FieldsLeft(h, now, list, item, Ats(kids), ref, OwnedBy(was));
    ReferenceNode(h, now, list, item, Ats(kids), ref, shown);
    StringsLeft(h, now, OwnedBy(was), item, ref);
  }

  lemma KidsOwned(t: Shape)
    requires !t.isRef && Apart(t)
    ensures t.at in OwnedBy(t) && t.at !in Ats(t.kids) && forall p | p in Ats(t.kids) :: p in OwnedBy(t)
  {
    forall i | 0 <= i < |t.kids|
      ensures t.kids[i].at in OwnedByAll(t.kids)
    {
      MemberOwned(t.kids, i);
    }
  }

  lemma ListDetached(h: Fields, now: Fields, item: Ptr, was: Shape, ref: Ptr)
    requires ReferenceAdded(h, now, was.at, item, Ats(was.kids), ref) && Detached(h, was.at) && was.at !in Ats(was.kids)
    ensures Detached(now, was.at)
  {
    hide Chain;
  }

  lemma FieldsLeft(h: Fields, now: Fields, list: Ptr, item: Ptr, s: seq<Ptr>, ref: Ptr, gone: set<Ptr>)
    requires ReferenceAdded(h, now, list, item, s, ref) && list in gone && forall p | p in s :: p in gone
    ensures now.next - (gone + {ref}) == h.next - gone && now.prev - (gone + {ref}) == h.prev - gone
    ensures now.child - (gone + {ref}) == h.child - gone && now.data - (gone + {ref}) == h.data - gone
  {
    hide Chain, SameOff;
    FieldLeft(h.next, now.next, s + [ref], ref, NULL, gone);
    FieldLeft(h.prev, now.prev, s + [ref], ref, NULL, gone);
    FieldLeft(h.child, now.child, [list], ref, h.child[item], gone);
  }

  lemma FieldLeft(m: Links, now: Links, s: seq<Ptr>, ref: Ptr, x: Ptr, gone: set<Ptr>)
    requires SameOff(m[ref := x], now, s) && ref !in m && forall p | p in s :: p == ref || p in gone
    requires forall p :: p in now <==> p in m || p == ref
    ensures now - (gone + {ref}) == m - gone
  {
  }

  lemma StringsLeft(h: Fields, now: Fields, s: set<Ptr>, item: Ptr, ref: Ptr)
    requires s <= h.data.Keys && ref !in h.data && item in h.data && item in h.child
    requires now.data == WithReference(h, item, ref).data && now.texts == h.texts
    ensures StringsOf(now.data, s + {ref}) == StringsOf(h.data, s)
  {
    assert NodeStrings(now.data[ref]) == {};
    assert forall p | p in s :: p in now.data && now.data[p] == h.data[p];
    hide NodeStrings;
    assert forall q :: q in StringsOf(now.data, s + {ref}) <==> q in StringsOf(h.data, s);
  }

  /** End to end: an item of another tree is added to a list by reference and the list deleted. The item's
      nodes, links, contents and strings are as they were before both. */
  lemma ItemSurvives(h: Fields, now: Fields, list: Ptr, kids: seq<Shape>, ref: Ptr, t: Shape)
    requires Owns(h, Shape(list, false, kids)) && ReferenceAdded(h, now, list, t.at, Ats(kids), ref) && Detached(h, list)
    requires Whole(h, t) && All(t) !! OwnedBy(Shape(list, false, kids))
    requires TextsOf(h.data, All(t)) <= h.texts.Keys - StringsOf(h.data, OwnedBy(Shape(list, false, kids)))
    ensures var left := Freed(now, OwnedByAll([Shape(list, false, kids + [Shape(ref, true, t.kids)])]));
      && Whole(left, t) && Agree(h, left, All(t))
      && forall q | q in TextsOf(h.data, All(t)) :: q in left.texts && left.texts[q] == h.texts[q]
  {
    hide Owns, ReferenceAdded, Detached, Whole, All, OwnedBy, OwnedByAll, TextsOf, StringsOf, Freed, Agree;
    var was := Shape(list, false, kids);
    DeleteWithReference(h, now, list, t.at, kids, ref, t.kids);
    ReferencesSurvive(h, was, t);
    FreedAgrees(h, OwnedBy(was), All(t));
    assert forall q | q in TextsOf(h.data, All(t)) :: q in Freed(h, OwnedBy(was)).texts;
  }
}
