/**
 Dumping a map and copying items to the clipboard (DumpMapProc, DumpMap and CopyMap in
 tnmMap.c). The graph does not change; the dumped flags are kept as the set of flagged
 items, and the script as the sequence of items it re-creates.
 */
module MapDump {
  import opened Vectors
  import opened Graphs
  import opened MapGraph
  import opened MapRuns

  // Types are ranked so that every reference leads to a lower rank, or from a group to a group.
  function DumpRank(k: Kind): nat {
    match k
    case Link => 3
    case Port => 2
    case Node => 1
    case Network => 1
    case Group => 0
  }

  /** A script that can be replayed where the items of pre exist: no item is created twice, and
      each is created after everything it refers to. */
  ghost predicate Replayable(h: Heap, pre: set<Addr>, script: seq<Addr>) {
    forall i :: 0 <= i < |script| ==> ReplayableAt(h, pre, script, i)
  }

  ghost predicate ReplayableAt(h: Heap, pre: set<Addr>, script: seq<Addr>, i: nat)
    requires i < |script|
  {
    && script[i] in h && script[i] !in pre && script[i] !in script[..i]
    && forall r :: r in Refs(h[script[i]]) ==> r in pre || r in script[..i]
  }

  lemma ReplayableSnoc(h: Heap, pre: set<Addr>, script: seq<Addr>, x: Addr)
    requires Replayable(h, pre, script)
    requires x in h && x !in pre && x !in script && forall r :: r in Refs(h[x]) ==> r in pre || r in script
    ensures Replayable(h, pre, script + [x])
  {
    var t := script + [x];
    assert t[..|script|] == script;
    forall i | 0 <= i < |t| ensures ReplayableAt(h, pre, t, i) {
      if i < |script| {
        assert t[..i] == script[..i];
        assert ReplayableAt(h, pre, script, i);
      }
    }
  }

  // ----- The order of a dump -----

  ghost function DepthOf(h: Heap, x: Addr): (n: nat)
    requires Rooted(h, x)
    ensures DepthIs(h, x, n)
  {
    var n: nat :| DepthIs(h, x, n); n
  }

  /** The script once x has been visited: what x refers to comes first, then x itself; flagged items
      and items already in the script are passed over. */
  ghost function Visit(h: Heap, flagged: set<Addr>, script: seq<Addr>, x: Addr): seq<Addr>
    requires Wf(h, {}) && Forest(h) && x in h
    decreases DumpRank(h[x].kind), DepthOf(h, x), 1
  {
    if x in flagged || x in script then script else
    var s := VisitRef(h, flagged, script, x, h[x].parent);
    var s := VisitRef(h, flagged, s, x, h[x].src);
    VisitRef(h, flagged, s, x, h[x].dst) + [x]
  }

  ghost function VisitRef(h: Heap, flagged: set<Addr>, script: seq<Addr>, x: Addr, r: Option<Addr>): seq<Addr>
    requires Wf(h, {}) && Forest(h) && x in h && (r.Some? ==> r.value in Refs(h[x]))
    decreases DumpRank(h[x].kind), DepthOf(h, x), 0
  {
    if r.None? then script else
    RefLower(h, x, r.value);
    Visit(h, flagged, script, r.value)
  }

  // The items of the list in turn.
  ghost function VisitAll(h: Heap, flagged: set<Addr>, script: seq<Addr>, list: seq<Addr>): seq<Addr>
    requires Wf(h, {}) && Forest(h) && forall a :: a in list ==> a in h
  {
    if list == [] then script else
    var last := |list| - 1;
    Visit(h, flagged, VisitAll(h, flagged, script, list[..last]), list[last])
  }

  // A reference leads to a lower rank, or from a group to the group around it.
  lemma RefLower(h: Heap, x: Addr, r: Addr)
    requires Wf(h, {}) && Forest(h) && x in h && r in Refs(h[x])
    ensures r in h
    ensures DumpRank(h[r].kind) < DumpRank(h[x].kind)
            || (h[r].kind.Group? && h[x].kind.Group? && DepthOf(h, r) < DepthOf(h, x))
  {
    assert TypedRefs(h, x);
    if h[x].parent == Some(r) { DepthUnique(h, r, DepthOf(h, r), DepthOf(h, x) - 1); }
  }

  // y has a lower rank than x, or is a group no deeper than the group x.
  ghost predicate NotAfter(h: Heap, y: Addr, x: Addr)
    requires Forest(h)
  {
    && y in h && x in h
    && (DumpRank(h[y].kind) < DumpRank(h[x].kind) || y == x
        || (h[y].kind.Group? && h[x].kind.Group? && DepthOf(h, y) <= DepthOf(h, x)))
  }

  // a stands in the script before b.
  ghost predicate Before(script: seq<Addr>, a: Addr, b: Addr) {
    b in script && exists k :: 0 <= k <= |script| && Parted(script[..k], a, b)
  }

  ghost predicate Parted(front: seq<Addr>, a: Addr, b: Addr) {
    a in front && b !in front
  }

  // A visit adds items to the end of the script: x, unless it is flagged, and items that come no later.
  lemma VisitAdds(h: Heap, flagged: set<Addr>, script: seq<Addr>, x: Addr)
    requires Wf(h, {}) && Forest(h) && x in h
    ensures Added(h, flagged, script, x, Visit(h, flagged, script, x))
    decreases DumpRank(h[x].kind), DepthOf(h, x), 1
  {
    if x !in flagged && x !in script {
      var s1 := VisitRef(h, flagged, script, x, h[x].parent);
      var s2 := VisitRef(h, flagged, s1, x, h[x].src);
      VisitRefAdds(h, flagged, script, x, h[x].parent);
      VisitRefAdds(h, flagged, s1, x, h[x].src);
      VisitRefAdds(h, flagged, s2, x, h[x].dst);
    }
  }

  ghost predicate Added(h: Heap, flagged: set<Addr>, script: seq<Addr>, x: Addr, t: seq<Addr>)
    requires Forest(h)
  {
    && script <= t && (x in flagged || x in t)
    && forall y :: y in t ==> y in script || BroughtBy(h, y, x)
  }

  // Only a link brings in ports and networks.
  ghost predicate BroughtBy(h: Heap, y: Addr, x: Addr)
    requires Forest(h)
  {
    NotAfter(h, y, x) && (h[x].kind.Link? || y == x || h[y].kind.Node? || h[y].kind.Group?)
  }

  lemma VisitRefAdds(h: Heap, flagged: set<Addr>, script: seq<Addr>, x: Addr, r: Option<Addr>)
    requires Wf(h, {}) && Forest(h) && x in h && (r.Some? ==> r.value in Refs(h[x]))
    ensures var t := VisitRef(h, flagged, script, x, r);
            if r.None? then t == script else r.value in h && Added(h, flagged, script, r.value, t)
    ensures var t := VisitRef(h, flagged, script, x, r);
            script <= t && forall y :: y in t ==> y in script || BroughtBy(h, y, x)
    decreases DumpRank(h[x].kind), DepthOf(h, x), 0
  {
    if r.Some? {
      RefLower(h, x, r.value);
      VisitAdds(h, flagged, script, r.value);
      assert TypedRefs(h, x);
      forall y | y in Visit(h, flagged, script, r.value) && y !in script ensures BroughtBy(h, y, x) {
        RefNotAfter(h, x, r.value, y);
      }
    }
  }

  /** Where a link brings in both its ends, the source comes before the destination; where it brings in
      its group, the group comes before both. */
  ghost predicate EndsInOrder(h: Heap, gone: set<Addr>, l: Addr, script: seq<Addr>)
    requires l in h
  {
    l !in gone && h[l].src.Some? && h[l].dst.Some? ==>
      var a, b := h[l].src.value, h[l].dst.value;
      && (a != b && a !in gone && b !in gone ==> Before(script, a, b))
      && (h[l].parent.Some? && h[l].parent.value !in gone ==>
            && (a !in gone ==> Before(script, h[l].parent.value, a))
            && (b !in gone ==> Before(script, h[l].parent.value, b)))
  }

  ghost function Gone(flagged: set<Addr>, script: seq<Addr>): set<Addr> {
    flagged + set y | y in script
  }

  lemma VisitEnds(h: Heap, flagged: set<Addr>, script: seq<Addr>, l: Addr)
    requires Wf(h, {}) && Forest(h) && l in h
    ensures EndsInOrder(h, Gone(flagged, script), l, Visit(h, flagged, script, l))
  {
    if l !in Gone(flagged, script) && h[l].src.Some? && h[l].dst.Some? {
      var s1 := VisitRef(h, flagged, script, l, h[l].parent);
      var s2 := VisitRef(h, flagged, s1, l, h[l].src);
      var s3 := VisitRef(h, flagged, s2, l, h[l].dst);
      VisitRefAdds(h, flagged, script, l, h[l].parent);
      VisitRefAdds(h, flagged, s1, l, h[l].src);
      VisitRefAdds(h, flagged, s2, l, h[l].dst);
      var a, b := h[l].src.value, h[l].dst.value;
      var t := s3 + [l];
      assert TypedRefs(h, l);
      assert t[..|s1|] == s1 && t[..|s2|] == s2;
      if a != b && a !in Gone(flagged, script) && b !in Gone(flagged, script) {
        assert Parted(t[..|s2|], a, b);
      }
      if h[l].parent.Some? && h[l].parent.value !in Gone(flagged, script) {
        var p := h[l].parent.value;
        assert a !in Gone(flagged, script) ==> Parted(t[..|s1|], p, a);
        assert b !in Gone(flagged, script) ==> Parted(t[..|s1|], p, b);
      }
    }
  }

  // Of two listed items the first comes first, unless the second was brought in by an item up to the first.
  ghost predicate ListOrder(h: Heap, flagged: set<Addr>, list: seq<Addr>, order: seq<Addr>)
    requires Forest(h)
  {
    forall i, j ::
      (0 <= i < j < |list| && list[i] !in flagged && list[j] !in flagged && !BroughtByAny(h, list[j], list[..i + 1]))
      ==> Before(order, list[i], list[j])
  }

  ghost predicate BroughtByAny(h: Heap, y: Addr, list: seq<Addr>)
    requires Forest(h)
  {
    exists x :: x in list && BroughtBy(h, y, x)
  }

  lemma {:induction false} VisitAllAdds(h: Heap, flagged: set<Addr>, list: seq<Addr>, k: nat)
    requires Wf(h, {}) && Forest(h) && k <= |list| && forall a :: a in list ==> a in h
    ensures var t := VisitAll(h, flagged, [], list);
            && VisitAll(h, flagged, [], list[..k]) <= t
            && (forall y :: y in t ==> BroughtByAny(h, y, list))
            && (forall a :: a in list ==> a in flagged || a in t)
    decreases |list|
  {
    if list != [] {
      var last := |list| - 1;
      var s := VisitAll(h, flagged, [], list[..last]);
      VisitAllAdds(h, flagged, list[..last], if k < |list| then k else last);
      VisitAdds(h, flagged, s, list[last]);
      assert list == list[..last] + [list[last]];
      if k < |list| { assert list[..last][..k] == list[..k]; } else { assert list[..k] == list; }
    }
  }

  lemma VisitAllOrder(h: Heap, flagged: set<Addr>, list: seq<Addr>)
    requires Wf(h, {}) && Forest(h) && forall a :: a in list ==> a in h
    ensures ListOrder(h, flagged, list, VisitAll(h, flagged, [], list))
  {
    var t := VisitAll(h, flagged, [], list);
    forall i, j | && 0 <= i < j < |list| && list[i] !in flagged && list[j] !in flagged
                  && !BroughtByAny(h, list[j], list[..i + 1])
      ensures Before(t, list[i], list[j])
    {
      var front := list[..i + 1];
      var s := VisitAll(h, flagged, [], front);
      VisitAllAdds(h, flagged, list, i + 1);
      VisitAllAdds(h, flagged, front, 0);
      assert list[i] == front[i] && t[..|s|] == s;
      assert Parted(t[..|s|], list[i], list[j]);
    }
  }

  class MapDumper {
    const heap: Heap
    const itemList: seq<Addr>
    var dumped: set<Addr>
    var script: seq<Addr>

    constructor (m: MapState)
      requires Inv(m)
      ensures heap == m.heap && itemList == m.list && Inv(MapState(heap, itemList, |itemList|))
    {
      heap, itemList, dumped, script := m.heap, m.list, {}, [];
    }

    // pre holds the items flagged at the start.
    ghost predicate Dumping(pre: set<Addr>)
      reads this
    {
      && Wf(heap, {}) && Forest(heap)
      && Replayable(heap, pre, script)
      && forall y :: y in dumped <==> y in pre || y in script
    }

    method DumpItem(x: Addr, ghost pre: set<Addr>)
      requires Dumping(pre) && x in heap
      modifies this
      ensures Dumping(pre) && x in dumped && script == Visit(heap, pre, old(script), x)
      ensures old(script) <= script && old(dumped) <= dumped
      ensures EndsInOrder(heap, old(dumped), x, script)
      ensures forall y :: y in dumped && y !in old(dumped) ==> NotAfter(heap, y, x)
      decreases DumpRank(heap[x].kind), DepthOf(heap, x), 1
    {
      VisitEnds(heap, pre, script, x);
      assert Gone(pre, script) == dumped;
      if x in dumped { return; }
      assert TypedRefs(heap, x);
      var i := heap[x];
      DumpRef(i.parent, x, pre);
      DumpRef(i.src, x, pre);
      DumpRef(i.dst, x, pre);
      ReplayableSnoc(heap, pre, script, x);
      script := script + [x];
      dumped := dumped + {x};
    }

    // Dumps what x refers to; x itself is never reached that way.
    method DumpRef(r: Option<Addr>, ghost x: Addr, ghost pre: set<Addr>)
      requires Dumping(pre) && x in heap && x !in dumped
      requires r.Some? ==> r.value in Refs(heap[x])
      modifies this
      ensures Dumping(pre) && x !in dumped && (r.Some? ==> r.value in dumped)
      ensures script == VisitRef(heap, pre, old(script), x, r)
      ensures old(script) <= script && old(dumped) <= dumped
      ensures forall y :: y in dumped && y !in old(dumped) ==> NotAfter(heap, y, x)
      decreases DumpRank(heap[x].kind), DepthOf(heap, x), 0
    {
      if r.None? { return; }
      RefLower(heap, x, r.value);
      DumpItem(r.value, pre);
      forall y | y in dumped && y !in old(dumped) ensures y != x && NotAfter(heap, y, x) {
        RefNotAfter(heap, x, r.value, y);
      }
    }

    // The loop shared by DumpMap and CopyMap.
    method DumpUnflagged(ghost pre: set<Addr>)
      requires Dumping(pre) && script == [] && forall a :: a in itemList ==> a in heap
      modifies this
      ensures Dumping(pre) && script == VisitAll(heap, pre, [], itemList)
      ensures forall a :: a in itemList ==> a in dumped
    {
      var i := 0;
      while i < |itemList|
        invariant 0 <= i <= |itemList| && Dumping(pre)
        invariant script == VisitAll(heap, pre, [], itemList[..i])
        invariant forall a :: a in itemList[..i] ==> a in dumped
      {
        assert itemList[..i + 1][..i] == itemList[..i] && itemList[..i + 1][i] == itemList[i];
        if itemList[i] !in dumped { DumpItem(itemList[i], pre); }
        i := i + 1;
      }
      assert itemList[..i] == itemList;
    }

    /** Every item is dumped exactly once, after its parent, source and destination, in the order of
        a depth first walk through the item list. */
    method Dump() returns (order: seq<Addr>)
      requires Inv(MapState(heap, itemList, |itemList|))
      modifies this
      ensures Replayable(heap, {}, order) && forall a :: a in order <==> a in heap
      ensures (forall a :: a in itemList ==> a in heap) && order == VisitAll(heap, {}, [], itemList)
      ensures ListOrder(heap, {}, itemList, order)
    {
      ListedIn(MapState(heap, itemList, |itemList|));
      dumped, script := {}, [];
      DumpUnflagged({});
      order := script;
      OnlyUnflagged(heap, {}, order);
      VisitAllOrder(heap, {}, itemList);
    }

    /** Copying dumps exactly the selected items, once each, a selected reference always first, in the
        order of the walk that passes over the others. */
    method Copy(selected: seq<Addr>) returns (order: seq<Addr>)
      requires Inv(MapState(heap, itemList, |itemList|)) && forall a :: a in selected ==> a in heap
      modifies this
      ensures Replayable(heap, heap.Keys - (set a | a in selected), order)
      ensures forall a :: a in order <==> a in selected
      ensures forall a :: a in itemList ==> a in heap
      ensures order == VisitAll(heap, heap.Keys - (set a | a in selected), [], itemList)
      ensures ListOrder(heap, heap.Keys - (set a | a in selected), itemList, order)
    {
      ListedIn(MapState(heap, itemList, |itemList|));
      FlagOthers(selected);
      script := [];
      ghost var pre := heap.Keys - (set a | a in selected);
      DumpUnflagged(pre);
      order := script;
      OnlyUnflagged(heap, pre, order);
      VisitAllOrder(heap, pre, itemList);
    }

    method FlagOthers(selected: seq<Addr>)
      modifies this`dumped
      ensures forall a :: a in dumped <==> a in itemList && a !in selected
    {
      dumped := {};
      for i := 0 to |itemList|
        invariant forall a :: a in dumped <==> a in itemList[..i] && a !in selected
      {
        if itemList[i] !in selected { dumped := dumped + {itemList[i]}; }
      }
      assert itemList[..|itemList|] == itemList;
    }
  }

  lemma OnlyUnflagged(h: Heap, pre: set<Addr>, script: seq<Addr>)
    requires Replayable(h, pre, script)
    ensures forall a :: a in script ==> a in h && a !in pre
  {
    forall a | a in script ensures a in h && a !in pre {
      var i :| 0 <= i < |script| && script[i] == a;
      assert ReplayableAt(h, pre, script, i);
    }
  }

  lemma RefNotAfter(h: Heap, x: Addr, r: Addr, y: Addr)
    requires Wf(h, {}) && Forest(h) && x in h && r in Refs(h[x]) && NotAfter(h, y, r)
    ensures y != x && NotAfter(h, y, x)
  {
    RefLower(h, x, r);
  }
}
