/**
 Two small maps whose dumps are not replayed as they should be.
 */
module MapReplayCases {
  import opened Vectors
  import opened Graphs
  import opened MapGraph
  import opened MapDelete
  import opened MapRuns
  import opened MapDump
  import opened MapNames
  import opened MapScripts
  import opened MapReplay

  // Two nodes 0 and 1, named node0 and node1, and a port 2 of node n.
  function PortOn(n: Addr): Heap
    requires n < 2
  {
    map[0 := Fresh(Node).(members := if n == 0 then [2] else []),
        1 := Fresh(Node).(members := if n == 1 then [2] else []),
        2 := Fresh(Port).(parent := Some(n))]
  }

  const PORT_NUMBERS: map<Addr, nat> := map[0 := 0, 1 := 1, 2 := 0]

  lemma CountThree(a: Addr, b: Addr, c: Addr, y: Addr)
    ensures Count([a], y) == One(a == y) && Count([a, b, c], y) == One(a == y) + One(b == y) + One(c == y)
  {
    assert [a][1..] == [] && [a, b, c][1..] == [b, c] && [b, c][1..] == [c] && [c][1..] == [];
    assert Count([c], y) == One(c == y);
    assert Count([b, c], y) == One(b == y) + One(c == y);
  }

  lemma PortOnForest(n: Addr)
    requires n < 2
    ensures Forest(PortOn(n))
  {
    var h := PortOn(n);
    forall x | x in h ensures Rooted(h, x) {
      if x == 2 { assert DepthIs(h, n, 0) && DepthIs(h, 2, 1); } else { assert DepthIs(h, x, 0); }
    }
  }

  lemma PortOnWf(n: Addr)
    requires n < 2
    ensures Wf(PortOn(n), {})
  {
    var h := PortOn(n);
    forall x | x in h ensures TypedRefs(h, x) { }
    forall p, x | p in h ensures Count(h[p].members, x) == One(IsMember(h, {}, x, p)) { CountThree(2, 2, 2, x); }
    forall e, l | e in h ensures Count(h[e].links, l) == Ends(h, l, e) { }
  }

  lemma PortOnListed(n: Addr, list: seq<Addr>)
    requires n < 2 && (list == [2, 1, 0] || list == [1, 2, 0])
    ensures Listed(list, PortOn(n), {})
  {
    forall y ensures Count(list, y) == One(y in PortOn(n) && y !in {}) { CountThree(list[0], list[1], list[2], y); }
  }

  lemma PortOnNamed(n: Addr)
    requires n < 2
    ensures AllLinked(PortOn(n)) && Named(PortOn(n), PORT_NUMBERS)
  {
  }

  lemma PortOnReplayable(n: Addr, order: seq<Addr>)
    requires (n == 1 && order == [1, 2, 0]) || (n == 0 && order == [1, 0, 2])
    ensures Replayable(PortOn(n), {}, order) && forall a :: a in order <==> a in PortOn(n)
  {
    var h := PortOn(n);
    forall i | 0 <= i < |order| ensures ReplayableAt(h, {}, order, i) {
      assert order[..0] == [] && order[..1] == [order[0]] && order[..2] == [order[0], order[1]];
    }
  }

  lemma VisitPlain(h: Heap, script: seq<Addr>, x: Addr)
    requires Wf(h, {}) && Forest(h) && x in h && x !in script && h[x].src.None? && h[x].dst.None?
    ensures h[x].parent.None? ==> Visit(h, {}, script, x) == script + [x]
    ensures h[x].parent.Some? ==>
              h[x].parent.value in h && Visit(h, {}, script, x) == Visit(h, {}, script, h[x].parent.value) + [x]
  {
    assert TypedRefs(h, x);
  }

  lemma VisitThree(h: Heap, a: Addr, b: Addr, c: Addr)
    requires Wf(h, {}) && Forest(h) && a in h && b in h && c in h
    ensures VisitAll(h, {}, [], [a, b, c]) == Visit(h, {}, Visit(h, {}, Visit(h, {}, [], a), b), c)
  {
    assert [a, b, c][..2] == [a, b] && [a, b][..1] == [a] && [a][..0] == [];
    assert VisitAll(h, {}, [], [a]) == Visit(h, {}, [], a);
  }

  // The list has the newest item first; a node is dumped before its port.
  lemma RefusedOrder()
    ensures Wf(PortOn(1), {}) && Forest(PortOn(1)) && VisitAll(PortOn(1), {}, [], [2, 1, 0]) == [1, 2, 0]
  {
    var h := PortOn(1);
    PortOnWf(1);
    PortOnForest(1);
    VisitThree(h, 2, 1, 0);
    VisitPlain(h, [], 2);
    VisitPlain(h, [], 1);
    VisitPlain(h, [1, 2], 0);
    assert Visit(h, {}, [1, 2], 1) == [1, 2];
  }

  lemma MisplacedOrder()
    ensures Wf(PortOn(0), {}) && Forest(PortOn(0)) && VisitAll(PortOn(0), {}, [], [1, 2, 0]) == [1, 0, 2]
  {
    var h := PortOn(0);
    PortOnWf(0);
    PortOnForest(0);
    VisitThree(h, 1, 2, 0);
    VisitPlain(h, [], 1);
    VisitPlain(h, [1], 2);
    VisitPlain(h, [1], 0);
    assert Visit(h, {}, [1, 0, 2], 0) == [1, 0, 2];
  }

  lemma PortOnIsDump(n: Addr, list: seq<Addr>, order: seq<Addr>)
    requires list == [2, 1, 0] || list == [1, 2, 0]
    requires (n == 1 && order == [1, 2, 0]) || (n == 0 && order == [1, 0, 2])
    ensures IsDump(MapState(PortOn(n), list, 3), PORT_NUMBERS, order)
  {
    PortOnWf(n);
    PortOnForest(n);
    PortOnListed(n, list);
    PortOnNamed(n);
    PortOnReplayable(n, order);
  }

  function Plain(name: Handle): Record {
    Record(name, None, None, None)
  }

  lemma RefusedScript(script: seq<Record>)
    requires script == [Plain(Handle(Node, 1)), Record(Handle(Port, 0), Some(0), None, None), Plain(Handle(Node, 0))]
    ensures IsScript(script) && ReplayTo(script, Place({}, map[]), 3).None?
  {
    var e := Place({}, map[]);
    var gs := AllGiven(script, e);
    ReplayExact(script, e, 3);
    NewProcessNames(script, 0);
    assert gs[0] == Handle(Node, 0);
    assert !CanReplay(script, gs, 1);
  }

  // The replay is accepted, and the third item has the parent p.
  predicate PortGoesTo(r: Option<Shell>, p: Addr) {
    r.Some? && 2 in r.value.m.heap && r.value.m.heap[2].parent == Some(p)
  }

  lemma MisplacedScript(script: seq<Record>)
    requires script == [Plain(Handle(Node, 1)), Plain(Handle(Node, 0)), Record(Handle(Port, 0), Some(1), None, None)]
    ensures IsScript(script) && PortGoesTo(ReplayTo(script, Place({}, map[]), 3), 0)
  {
    var e := Place({}, map[]);
    var gs := AllGiven(script, e);
    NewProcessNames(script, 0);
    NewProcessNames(script, 1);
    assert gs[0] == Handle(Node, 0) && gs[1] == Handle(Node, 1);
    assert LooksUp(script, gs, 2, Some(1), Some(0));
    forall i | 0 <= i < 3 ensures CanReplay(script, gs, i) {
      assert LooksUp(script, gs, i, None, None);
    }
    ReplayExact(script, e, 3);
    assert Remade(script, gs, 2, ReplayTo(script, e, 3).value.m.heap[2]);
  }

  // The items are dumped in this order.
  ghost predicate DumpsAs(m: MapState, num: map<Addr, nat>, order: seq<Addr>) {
    && IsDump(m, num, order) && (forall a :: a in m.list ==> a in m.heap)
    && order == VisitAll(m.heap, {}, [], m.list) && IsScript(ScriptOf(m.heap, num, order))
  }

  // Node1, its port, then node0.
  lemma RefusedDump()
    ensures DumpsAs(MapState(PortOn(1), [2, 1, 0], 3), PORT_NUMBERS, [1, 2, 0])
  {
    RefusedOrder();
    PortOnIsDump(1, [2, 1, 0], [1, 2, 0]);
    DumpIsScript(MapState(PortOn(1), [2, 1, 0], 3), PORT_NUMBERS, [1, 2, 0]);
  }

  // Node1, then node0 and its port.
  lemma MisplacedDump()
    ensures DumpsAs(MapState(PortOn(0), [1, 2, 0], 3), PORT_NUMBERS, [1, 0, 2])
  {
    MisplacedOrder();
    PortOnIsDump(0, [1, 2, 0], [1, 0, 2]);
    DumpIsScript(MapState(PortOn(0), [1, 2, 0], 3), PORT_NUMBERS, [1, 0, 2]);
  }

  /** A port on node1, created last: the dump names node1, but the only node there by then is node0. */
  lemma ReplayRefused()
    ensures var script := ScriptOf(PortOn(1), PORT_NUMBERS, [1, 2, 0]);
            IsScript(script) && ReplayTo(script, Place({}, map[]), 3).None?
  {
    RefusedScript(ScriptOf(PortOn(1), PORT_NUMBERS, [1, 2, 0]));
  }

  /** A port on node0 that is older than node1: the dump is accepted, and puts the port on the first
      new item, the copy of node1, which is named node0 now. */
  lemma ReplayMisplaces()
    ensures var script := ScriptOf(PortOn(0), PORT_NUMBERS, [1, 0, 2]);
            IsScript(script) && PortGoesTo(ReplayTo(script, Place({}, map[]), 3), 0)
  {
    MisplacedScript(ScriptOf(PortOn(0), PORT_NUMBERS, [1, 0, 2]));
  }
}
