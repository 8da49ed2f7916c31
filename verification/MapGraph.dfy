/**
 The item graph of a Tnm map (tnmMap.h, tnmMapUtil.c, tnmMap.c): item types, what they may
 refer to, and what destroying an item removes.
 */
module MapGraph {
  import opened Vectors
  import opened Graphs

  datatype Kind = Node | Port | Network | Link | Group

  type Item = Entry<Kind>

  type Heap = Graph<Kind>

  // The parentType entry of each item type.
  function ParentKind(k: Kind): Kind {
    if k.Port? then Node else Group
  }

  // ----- The graph invariant -----

  // What an item may refer to, by type.
  predicate TypedRefs(h: Heap, x: Addr)
    requires x in h
  {
    && (h[x].parent.Some? ==> h[x].parent.value in h && h[h[x].parent.value].kind == ParentKind(h[x].kind))
    && (h[x].src.Some? ==> IsEnd(h, x, h[x].src.value))
    && (h[x].dst.Some? ==> IsEnd(h, x, h[x].dst.value))
  }

  predicate IsEnd(h: Heap, x: Addr, e: Addr)
    requires x in h
  {
    h[x].kind.Link? && e in h && (h[e].kind.Network? || h[e].kind.Port?)
  }

  /** Every pointer is typed and leads to an item, and every pointer has its reverse entry
      exactly once. Items in det have already left their parent's vector. */
  ghost predicate Wf(h: Heap, det: set<Addr>) {
    AllTyped(h) && MembersMatch(h, det) && LinksMatch(h)
  }

  ghost predicate AllTyped(h: Heap) {
    forall x :: x in h ==> TypedRefs(h, x)
  }

  // ----- Removing a set of items -----

  // x, and its ports when x is a node.
  function Core(h: Heap, x: Addr): set<Addr>
    requires x in h
  {
    {x} + (if h[x].kind.Node? then set q | q in h && h[q].parent == Some(x) else {})
  }

  /** The items that go when x is destroyed: x, the ports of a node, and the links with an end in these. */
  function Removed(h: Heap, x: Addr): set<Addr>
    requires x in h
  {
    Core(h, x) + set l | l in h && Touches(h[l], Core(h, x))
  }

  lemma PruneKeepsWf(h: Heap, det: set<Addr>, r: set<Addr>)
    requires Wf(h, det) && Closed(h, r)
    ensures Wf(Prune(h, r), det)
  {
    var g := Prune(h, r);
    forall x | x in g ensures TypedRefs(g, x) {
      assert TypedRefs(h, x) && !Touches(h[x], r);
    }
    PruneKeepsMatch(h, det, r);
  }

  lemma RemovedIsClosed(h: Heap, det: set<Addr>, x: Addr)
    requires Wf(h, det) && x in h
    ensures Closed(h, Removed(h, x))
  {
    forall l | l in h && l !in Removed(h, x) ensures !Touches(h[l], Removed(h, x)) {
      // An end is a network or a port, never one of the links in Removed(h, x).
      assert TypedRefs(h, l);
      assert forall e | e in Removed(h, x) - Core(h, x) :: TypedRefs(h, e) && h[e].kind.Link?;
      assert !Touches(h[l], Core(h, x));
    }
  }

  // ----- Changing one pointer -----

  lemma SetParentWf(h: Heap, x: Addr, p: Option<Addr>)
    requires Wf(h, {}) && x in h
    requires p.Some? ==> p.value in h && h[p.value].kind == ParentKind(h[x].kind)
    ensures var g := SetParent(h, x, p);
            && Wf(g, {}) && OnlyRefsOf(h, g, x)
            && g[x].parent == p && g[x].src == h[x].src && g[x].dst == h[x].dst
  {
    assert TypedRefs(h, x);
    SetParentShape(h, x, p);
    SetParentMembers(h, x, p);
    RefsTyped(h, SetParent(h, x, p), x);
    LinksStay(h, SetParent(h, x, p));
  }

  // Only the pointers of x have changed, and those are typed: then all are.
  lemma RefsTyped(h: Heap, g: Heap, x: Addr)
    requires AllTyped(h) && OnlyRefsOf(h, g, x) && x in h && TypedRefs(g, x)
    ensures AllTyped(g)
  {
    forall y | y in g ensures TypedRefs(g, y) { assert TypedRefs(h, y); }
  }

  lemma SetSrcWf(h: Heap, x: Addr, e: Addr)
    requires Wf(h, {}) && x in h && IsEnd(h, x, e)
    ensures var g := SetSrc(h, x, e);
            && Wf(g, {}) && OnlyRefsOf(h, g, x)
            && g[x].parent == h[x].parent && g[x].src == Some(e) && g[x].dst == h[x].dst
  {
    assert TypedRefs(h, x);
    SetSrcShape(h, x, e);
    RefsTyped(h, SetSrc(h, x, e), x);
    MembersStay(h, SetSrc(h, x, e));
    SetSrcLinks(h, x, e);
  }

  lemma SetDstWf(h: Heap, x: Addr, e: Addr)
    requires Wf(h, {}) && x in h && IsEnd(h, x, e)
    ensures var g := SetDst(h, x, e);
            && Wf(g, {}) && OnlyRefsOf(h, g, x)
            && g[x].parent == h[x].parent && g[x].src == h[x].src && g[x].dst == Some(e)
  {
    assert TypedRefs(h, x);
    SetDstShape(h, x, e);
    RefsTyped(h, SetDst(h, x, e), x);
    MembersStay(h, SetDst(h, x, e));
    SetDstLinks(h, x, e);
  }
}
