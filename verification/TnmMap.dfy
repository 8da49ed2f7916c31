/**
 The map object: its item list, and creating, configuring and destroying items
 (tnmMap.c, tnmMapUtil.c, tnmMapNode.c).
 */
module TnmMaps {
  import opened Vectors
  import opened Graphs
  import opened MapGraph
  import opened MapDelete
  import opened MapRuns
  import opened MapCreates

  class TnmMap {
    var heap: Heap
    var itemList: seq<Addr>
    var numItems: int

    constructor ()
      ensures State() == MapState(map[], [], 0) && Inv(State())
    {
      heap, itemList, numItems := map[], [], 0;
    }

    ghost function State(): MapState
      reads this
    {
      MapState(heap, itemList, numItems)
    }

    // ----- TnmMapFindItem -----

    method FindItem(a: Addr) returns (found: bool)
      ensures found <==> a in itemList
    {
      var i := 0;
      while i < |itemList| && itemList[i] != a
        invariant 0 <= i <= |itemList| && a !in itemList[..i]
      {
        i := i + 1;
      }
      found := i < |itemList|;
    }

    // ----- SetOption: the options that change the graph -----

    /** The walk up the parent chain ends, and finds x exactly when x is p or above p. */
    method DetectLoop(x: Addr, p: Addr) returns (loop: bool)
      requires Forest(heap) && AllTyped(heap) && p in heap
      ensures loop <==> Above(heap, x, p)
    {
      var i := Some(p);
      ghost var n: nat :| DepthIs(heap, p, n);
      loop := false;
      while i.Some? && !loop
        invariant i.Some? ==> DepthIs(heap, i.value, n)
        invariant loop ==> i.Some? && i.value == x
        invariant Above(heap, x, p) <==> i.Some? && Above(heap, x, i.value)
        decreases i.Some?, n, !loop
      {
        AboveUnfold(heap, x, i.value);
        assert TypedRefs(heap, i.value);
        if i.value == x {
          loop := true;
        } else {
          i := heap[i.value].parent;
          n := if n > 0 then n - 1 else 0;
        }
      }
      if loop { AboveUnfold(heap, x, x); }
    }

    method SetOption(x: Addr, opt: ItemOption) returns (ok: bool)
      requires Wf(heap, {}) && Forest(heap) && x in heap
      requires forall a :: a in itemList ==> a in heap
      modifies this`heap
      ensures ok <==> Accepts(old(heap), itemList, x, opt)
      ensures heap == if ok then Apply(old(heap), x, opt) else old(heap)
    {
      ok := false;
      match opt
      case ParentOpt(None) =>
        DropMemberOf(x);
        heap := heap[x := heap[x].(parent := None)];
        ok := true;
      case ParentOpt(Some(p)) =>
        var found := FindItem(p);
        if !found { return; }
        if heap[p].kind != ParentKind(heap[x].kind) { return; }
        var loop := DetectLoop(x, p);
        if loop { return; }
        DropMemberOf(x);
        heap := heap[p := heap[p].(members := heap[p].members + [x])];
        heap := heap[x := heap[x].(parent := Some(p))];
        ok := true;
      case SrcOpt(e) =>
        if !heap[x].kind.Link? { return; }
        var found := FindItem(e);
        if !found { return; }
        if !heap[e].kind.Network? && !heap[e].kind.Port? { return; }
        var o := heap[x].src;
        assert TypedRefs(heap, x);
        if o.Some? { heap := heap[o.value := heap[o.value].(links := RemoveFirst(heap[o.value].links, x))]; }
        heap := heap[e := heap[e].(links := heap[e].links + [x])];
        heap := heap[x := heap[x].(src := Some(e))];
        ok := true;
      case DstOpt(e) =>
        if !heap[x].kind.Link? { return; }
        var found := FindItem(e);
        if !found { return; }
        if !heap[e].kind.Network? && !heap[e].kind.Port? { return; }
        var o := heap[x].dst;
        assert TypedRefs(heap, x);
        if o.Some? { heap := heap[o.value := heap[o.value].(links := RemoveFirst(heap[o.value].links, x))]; }
        heap := heap[e := heap[e].(links := heap[e].links + [x])];
        heap := heap[x := heap[x].(dst := Some(e))];
        ok := true;
      case ValueOpt(known, good) => ok := known && good;
    }

    method DropMemberOf(x: Addr)
      requires x in heap && TypedRefs(heap, x)
      modifies this`heap
      ensures heap == DropMember(old(heap), old(heap)[x].parent, x)
    {
      var p := heap[x].parent;
      if p.Some? {
        heap := heap[p.value := heap[p.value].(members := RemoveFirst(heap[p.value].members, x))];
      }
    }

    /** A configure command: either all options are set, or those before the first that is refused. */
    method Configure(x: Addr, opts: seq<ItemOption>) returns (ok: bool)
      requires Inv(State()) && x in heap
      modifies this
      ensures Step(old(State()), DoConfigure(x, opts), State())
      ensures ok == SetConfig(old(heap), itemList, x, opts).1
      ensures Inv(State())
    {
      ListedIn(State());
      ok := SetOptions(x, opts);
      StepKeepsInv(old(State()), DoConfigure(x, opts), State());
    }

    // TnmSetConfig: looks for options that are not in the table, then sets the options in order.
    method SetOptions(x: Addr, opts: seq<ItemOption>) returns (ok: bool)
      requires Wf(heap, {}) && Forest(heap) && x in heap && forall a :: a in itemList ==> a in heap
      modifies this`heap
      ensures (heap, ok) == SetConfig(old(heap), itemList, x, opts)
      ensures x in heap && heap[x].kind == old(heap)[x].kind
    {
      for i := 0 to |opts|
        invariant forall j :: 0 <= j < i ==> InTable(heap[x].kind, opts[j])
      {
        if !InTable(heap[x].kind, opts[i]) { return false; }
      }
      ok := ApplyOptions(x, opts);
    }

    // ----- CreateItem -----

    /** Creates an item at the fresh address n and applies the options in order. A failure part
        way frees the item without undoing the options applied so far. */
    method Create(n: Addr, kind: Kind, opts: seq<ItemOption>) returns (ok: bool)
      requires Inv(State()) && n !in heap
      modifies this
      ensures ok <==> Creates(old(heap), old(itemList), n, kind, opts)
      ensures ok ==> Step(old(State()), DoCreate(n, kind, opts), State()) && Inv(State())
      ensures !ok ==> itemList == old(itemList) && numItems == old(numItems)
      ensures !ok ==> heap == Partial(old(heap), old(itemList), n, kind, opts).0 - {n}
      ensures !ok ==> (Inv(State()) <==> NothingAttached(old(heap), kind, opts))
    {
      ListedIn(State());
      FreshWf(heap, n, kind);
      heap := heap[n := Fresh(kind)];
      ok := SetOptions(n, opts);
      if ok {
        ok := match kind
              case Port => heap[n].parent.Some?
              case Link => heap[n].src.Some? && heap[n].dst.Some?
              case _ => true;
      }
      if !ok {
        Discard(n, old(State()), kind, opts);
        return;
      }
      Enlist(n, old(State()), kind, opts);
    }

    // Puts a new item first in the list.
    method Enlist(n: Addr, ghost s: MapState, ghost kind: Kind, ghost opts: seq<ItemOption>)
      requires Inv(s) && n !in s.heap && Creates(s.heap, s.list, n, kind, opts)
      requires State() == s.(heap := Partial(s.heap, s.list, n, kind, opts).0)
      modifies this`itemList, this`numItems
      ensures Step(s, DoCreate(n, kind, opts), State()) && Inv(State())
    {
      itemList := [n] + itemList;
      numItems := numItems + 1;
      StepKeepsInv(s, DoCreate(n, kind, opts), State());
    }

    // Frees a new item that was refused.
    method Discard(n: Addr, ghost s: MapState, ghost kind: Kind, ghost opts: seq<ItemOption>)
      requires Inv(s) && n !in s.heap && !Creates(s.heap, s.list, n, kind, opts)
      requires State() == s.(heap := Partial(s.heap, s.list, n, kind, opts).0)
      modifies this`heap
      ensures heap == old(heap) - {n} && (Inv(State()) <==> NothingAttached(s.heap, kind, opts))
    {
      FailedCreateSound(s, n, kind, opts);
      heap := heap - {n};
    }

    // Sets the options in order, up to the first that is refused.
    method ApplyOptions(n: Addr, opts: seq<ItemOption>) returns (ok: bool)
      requires Wf(heap, {}) && Forest(heap) && n in heap && forall a :: a in itemList ==> a in heap
      modifies this`heap
      ensures (heap, ok) == ApplyAll(old(heap), itemList, n, opts)
      ensures n in heap && heap[n].kind == old(heap)[n].kind
    {
      ghost var h := heap;
      var i := 0;
      ok := true;
      assert opts[0..] == opts;
      while i < |opts| && ok
        invariant Applying(h, itemList, n, opts, heap, i, ok)
        decreases |opts| - i, ok
      {
        ApplyNext(h, itemList, n, opts, heap, i);
        ok := SetOption(n, opts[i]);
        if ok { i := i + 1; }
      }
      assert opts[|opts|..] == [];
    }

    // ----- ItemDeleteProc, NodeDeleteProc, ClearMap -----

    method Unlist(x: Addr)
      requires numItems == |itemList| && Count(itemList, x) == 1
      modifies this`itemList, this`numItems
      ensures itemList == Without(old(itemList), {x}) && numItems == |itemList|
    {
      var i := 0;
      CountIn(itemList, x);
      while i < |itemList| && itemList[i] != x
        invariant 0 <= i <= |itemList| && forall j :: 0 <= j < i ==> itemList[j] != x
      {
        i := i + 1;
      }
      RemoveFirstAt(itemList, x, i);
      RemoveFirstOnce(itemList, x);
      itemList := itemList[..i] + itemList[i + 1..];
      numItems := numItems - 1;
    }

    /** Terminates, and removes exactly Removed(heap, x): x, the ports of a node, and every link
        with an end among these. det holds the item whose links are just being deleted, pend the
        items that are unlisted but not yet freed. */
    method DeleteItem(x: Addr, ghost det: set<Addr>, ghost pend: set<Addr>)
      requires Wf(heap, det) && det <= pend && x in heap && Removed(heap, x) !! pend
      requires forall y :: y in det && y in heap ==> heap[y].parent != Some(x)
      requires Listed(itemList, heap, pend) && numItems == |itemList|
      modifies this
      ensures heap == Prune(old(heap), Removed(old(heap), x))
      ensures itemList == Without(old(itemList), Removed(old(heap), x)) && numItems == |itemList|
      decreases Rank(heap[x].kind), 2
    {
      ghost var h, list := heap, itemList;
      ghost var ports := if h[x].kind.Node? then Removed(h, x) - {x} else {};
      Unlist(x);
      ListedWithout(list, h, pend, {x});
      if heap[x].kind.Node? {
        NodeDelete(x, det, pend + {x});
      } else {
        PruneNothing(h);
        WithoutAbsent(itemList, {});
      }
      ReadyToRelease(h, list, det, pend, x, ports);
      ghost var r := LinksAt(heap, x);
      Release(x, det, pend + {x});
      AllRemoved(h, list, det, x, ports, r);
    }

    // What ItemDeleteProc does after the type specific part.
    method Release(x: Addr, ghost det: set<Addr>, ghost pend: set<Addr>)
      requires Wf(heap, det) && det <= pend && x in heap && x !in det && x in pend && LinksAt(heap, x) !! pend
      requires forall y :: y in det && y in heap ==> heap[y].parent != Some(x)
      requires Listed(itemList, heap, pend) && numItems == |itemList|
      modifies this
      ensures heap == Prune(old(heap), LinksAt(old(heap), x) + {x})
      ensures itemList == Without(old(itemList), LinksAt(old(heap), x)) && numItems == |itemList|
      decreases Rank(heap[x].kind), 1
    {
      ghost var h := heap;
      assert TypedRefs(h, x);
      var src, dst := heap[x].src, heap[x].dst;
      if src.Some? { heap := heap[src.value := heap[src.value].(links := RemoveFirst(heap[src.value].links, x))]; }
      if dst.Some? { heap := heap[dst.value := heap[dst.value].(links := RemoveFirst(heap[dst.value].links, x))]; }
      var parent := heap[x].parent;
      if parent.Some? {
        heap := heap[parent.value := heap[parent.value].(members := RemoveFirst(heap[parent.value].members, x))];
      }
      assert heap == Detach(h, x);
      DeleteLinks(x, h, det, pend);
      FinishDelete(h, det, x);
      MembersAlive(h, det, x);
      OrphanMembers(heap[x].members);
      heap := heap - {x};
    }

    // Deletes the first member over and over: each deletion takes that member out of the vector.
    method NodeDelete(x: Addr, ghost det: set<Addr>, ghost pend: set<Addr>)
      requires Wf(heap, det) && det <= pend && x in pend
      requires x in heap && heap[x].kind.Node? && Removed(heap, x) - {x} !! pend
      requires Listed(itemList, heap, pend) && numItems == |itemList|
      modifies this
      ensures heap == Prune(old(heap), Removed(old(heap), x) - {x})
      ensures itemList == Without(old(itemList), Removed(old(heap), x) - {x}) && numItems == |itemList|
      decreases Rank(heap[x].kind), 1
    {
      ghost var h, list, all := heap, itemList, Removed(heap, x) - {x};
      ghost var done: set<Addr> := {};
      PruneNothing(h);
      WithoutAbsent(list, {});
      while |heap[x].members| > 0
        invariant done <= all && Closed(h, done) && x !in done
        invariant heap == Prune(h, done) && Wf(heap, det) && x in heap
        invariant itemList == Without(list, done) && numItems == |itemList|
        decreases all - done
      {
        var q := heap[x].members[0];
        FirstMember(heap, det, x);
        ghost var r := Removed(heap, q);
        RemovedInside(h, det, x, done, q);
        RemovedIsClosed(heap, det, q);
        ListedWithout(list, h, pend, done);
        ParentsOfDet(heap, det, q);
        PruneKeepsWf(heap, det, r);
        DeleteItem(q, det, pend);
        PruneTwice(h, done, r);
        WithoutTwice(list, done, r);
        ClosedUnion(h, done, r);
        assert q in all - done;
        done := done + r;
      }
      NoMembersLeft(h, det, x, done);
    }

    // Deletes the first link over and over until no link has x as an end.
    method DeleteLinks(x: Addr, ghost h: Heap, ghost det: set<Addr>, ghost pend: set<Addr>)
      requires Wf(h, det) && x in h && x !in det && det <= pend && x in pend
      requires heap == Detach(h, x) && LinksAt(h, x) !! pend
      requires Listed(itemList, h, pend) && numItems == |itemList|
      modifies this
      ensures heap == Prune(Detach(h, x), LinksAt(h, x))
      ensures itemList == Without(old(itemList), LinksAt(h, x)) && numItems == |itemList|
      decreases Rank(h[x].kind), 0
    {
      ghost var d, list, done := heap, itemList, {};
      PruneNothing(d);
      WithoutAbsent(list, {});
      DetachedLinks(h, det, x);
      DetachedLinksSame(h, det, x);
      ListedDetached(itemList, h, d, pend);
      while |heap[x].links| > 0
        invariant h[x].links == [] ==> done == {} && heap == d && itemList == list
        invariant h[x].links != [] ==> LinksGoing(d, det + {x}, x, list, done, heap, itemList)
        invariant x in heap && numItems == |itemList|
        decreases LinksAt(d, x) - done
      {
        NextLink(d, det + {x}, pend, x, list, done, heap, itemList);
        done := done + {heap[x].links[0]};
        DeleteItem(heap[x].links[0], det + {x}, pend);
      }
      NoLinksLeft(h, det, x, done);
    }

    method OrphanMembers(ms: seq<Addr>)
      requires forall y :: y in ms ==> y in heap
      modifies this`heap
      ensures heap == Orphan(old(heap), ms)
    {
      var i := 0;
      ghost var h := heap;
      assert heap == Orphan(h, ms[..0]);
      while i < |ms|
        invariant 0 <= i <= |ms| && heap == Orphan(h, ms[..i])
      {
        assert ms[i] in ms;
        heap := heap[ms[i] := heap[ms[i]].(parent := None)];
        i := i + 1;
      }
      assert ms[..|ms|] == ms;
    }

    method Destroy(x: Addr)
      requires Inv(State()) && x in heap
      modifies this
      ensures Step(old(State()), DoDestroy(x), State()) && Inv(State())
    {
      DeleteItem(x, {}, {});
      StepKeepsInv(old(State()), DoDestroy(x), State());
    }

    method Clear()
      requires Inv(State())
      modifies this
      ensures State() == MapState(map[], [], 0)
    {
      while |itemList| > 0
        invariant Inv(State())
        decreases |itemList|
      {
        var x := itemList[0];
        CountIn(itemList, x);
        assert Count(itemList, x) == One(x in heap && x !in {});
        ghost var s := State();
        Destroy(x);
        DestroyShrinks(s, x);
      }
    }
  }
}
