/**
 Destroying map items (ItemDeleteProc, ClearMap in tnmMap.c and NodeDeleteProc in
 tnmMapNode.c): the steps of one deletion and what they amount to.
 */
module MapDelete {
  import opened Vectors
  import opened Graphs
  import opened MapGraph

  // The item leaves the vectors of its source, its destination and its parent.
  function Detach(h: Heap, x: Addr): Heap
    requires x in h
  {
    DropMember(DropLink(DropLink(h, h[x].src, x), h[x].dst, x), h[x].parent, x)
  }

  // Every item that is neither freed nor on its way out is in the item list, once.
  ghost predicate Listed(list: seq<Addr>, h: Heap, pend: set<Addr>) {
    forall y :: Count(list, y) == One(y in h && y !in pend)
  }

  // How far a deletion can still cascade.
  function Rank(k: Kind): nat {
    match k
    case Node => 2
    case Port => 1
    case Network => 1
    case Link => 0
    case Group => 0
  }

  lemma DetachAt(h: Heap, det: set<Addr>, x: Addr, y: Addr)
    requires Wf(h, det) && x in h && x !in det && y in h
    ensures Detach(h, x).Keys == h.Keys
    ensures Detach(h, x)[y] == h[y].(members := Without(h[y].members, {x}), links := Without(h[y].links, {x}))
  {
    assert TypedRefs(h, x);
    assert Count(h[y].members, x) == One(IsMember(h, det, x, y));
    assert Count(h[y].links, x) == Ends(h, x, y);
    RemoveFirstOnce(h[y].members, x);
    WithoutAbsentOne(h[y].members, x);
    if Ends(h, x, y) == 2 { RemoveFirstTwice(h[y].links, x); } else { RemoveFirstOnce(h[y].links, x); }
    WithoutAbsentOne(h[y].links, x);
  }

  lemma WithoutAbsentOne(s: seq<Addr>, x: Addr)
    ensures Count(s, x) == 0 ==> Without(s, {x}) == s
  {
    if Count(s, x) == 0 { WithoutAbsent(s, {x}); }
  }

  // An item without ends of its own that has left its parent's vector leaves the graph sound.
  lemma DetachWf(h: Heap, det: set<Addr>, x: Addr)
    requires Wf(h, det) && x in h && x !in det && h[x].src.None? && h[x].dst.None?
    ensures Wf(Detach(h, x), det + {x})
  {
    var d := Detach(h, x);
    forall y | y in h ensures y in d && TypedRefs(d, y) {
      DetachAt(h, det, x, y);
      assert TypedRefs(h, y);
    }
    forall p, y | p in d ensures Count(d[p].members, y) == One(IsMember(d, det + {x}, y, p)) {
      DetachAt(h, det, x, p);
      if y in h { DetachAt(h, det, x, y); }
      CountWithout(h[p].members, {x}, y);
      assert Count(h[p].members, y) == One(IsMember(h, det, y, p));
    }
    forall e, l | e in d ensures Count(d[e].links, l) == Ends(d, l, e) {
      DetachAt(h, det, x, e);
      if l in h { DetachAt(h, det, x, l); }
      CountWithout(h[e].links, {x}, l);
      assert Count(h[e].links, l) == Ends(h, l, e);
    }
  }

  /** Detaching x, deleting the links at x, orphaning its members and freeing it removes
      exactly x and those links from the graph. */
  lemma FinishDelete(h: Heap, det: set<Addr>, x: Addr)
    requires Wf(h, det) && x in h && x !in det
    requires forall y :: y in det && y in h ==> h[y].parent != Some(x)
    ensures var g := Prune(Detach(h, x), LinksAt(h, x));
            x !in LinksAt(h, x) && x in g && Orphan(g, g[x].members) - {x} == Prune(h, LinksAt(h, x) + {x})
  {
    var r := LinksAt(h, x);
    assert TypedRefs(h, x);
    DetachAt(h, det, x, x);
    var g := Prune(Detach(h, x), r);
    assert (Orphan(g, g[x].members) - {x}).Keys == Prune(h, r + {x}).Keys;
    forall y | y in h && y !in r + {x}
      ensures Orphan(g, g[x].members)[y] == Prune(h, r + {x})[y]
    {
      FinishAt(h, det, x, y);
    }
  }

  lemma FinishAt(h: Heap, det: set<Addr>, x: Addr, y: Addr)
    requires Wf(h, det) && x in h && x !in det && y in h && y != x && y !in LinksAt(h, x) && x !in LinksAt(h, x)
    requires forall z :: z in det && z in h ==> h[z].parent != Some(x)
    requires Detach(h, x).Keys == h.Keys
    ensures var g := Prune(Detach(h, x), LinksAt(h, x));
            Orphan(g, g[x].members)[y] == Prune(h, LinksAt(h, x) + {x})[y]
  {
    var r := LinksAt(h, x);
    DetachAt(h, det, x, x);
    DetachAt(h, det, x, y);
    assert TypedRefs(h, y);
    assert {x} + r == r + {x};
    WithoutTwice(h[y].members, {x}, r);
    WithoutTwice(h[y].links, {x}, r);
    // y is orphaned exactly when its parent is x.
    WithoutIn(h[x].members, {x}, y);
    WithoutIn(Without(h[x].members, {x}), r, y);
    CountIn(h[x].members, y);
    assert Count(h[x].members, y) == One(IsMember(h, det, y, x));
    assert forall l | l in r :: h[y].parent != Some(l) by {
      assert forall l | l in r :: TypedRefs(h, l);
    }
  }
}
