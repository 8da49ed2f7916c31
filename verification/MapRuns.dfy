/**
 Runs of a map: the options and steps of tnmMap.c and tnmMapUtil.c as a transition
 relation, and the invariant every reachable state satisfies.
 */
module MapRuns {
  import opened Vectors
  import opened Graphs
  import opened MapGraph
  import opened MapDelete

  datatype MapState = MapState(heap: Heap, list: seq<Addr>, num: int)

  /** An option of a command. For those that change the graph the value is the address behind the given
      name. ValueOpt is any other option: whether the type of the item has one of that name, and
      whether the value is a good one. */
  datatype ItemOption =
    | ParentOpt(p: Option<Addr>)
    | SrcOpt(e: Addr)
    | DstOpt(e: Addr)
    | ValueOpt(known: bool, good: bool)

  datatype Op =
    | DoCreate(n: Addr, kind: Kind, opts: seq<ItemOption>)
    | DoConfigure(x: Addr, opts: seq<ItemOption>)
    | DoDestroy(x: Addr)

  // ----- Options -----

  ghost predicate Accepts(h: Heap, list: seq<Addr>, x: Addr, opt: ItemOption)
    requires x in h
  {
    match opt
    case ParentOpt(None) => true
    case ParentOpt(Some(p)) => p in list && p in h && h[p].kind == ParentKind(h[x].kind) && !Above(h, x, p)
    case SrcOpt(e) => e in list && IsEnd(h, x, e)
    case DstOpt(e) => e in list && IsEnd(h, x, e)
    case ValueOpt(known, good) => known && good
  }

  // The option is in the table of the type: only links have ends.
  predicate InTable(kind: Kind, opt: ItemOption) {
    match opt
    case ParentOpt(_) => true
    case SrcOpt(_) => kind.Link?
    case DstOpt(_) => kind.Link?
    case ValueOpt(known, _) => known
  }

  predicate AllInTable(kind: Kind, opts: seq<ItemOption>) {
    forall i :: 0 <= i < |opts| ==> InTable(kind, opts[i])
  }

  function Apply(h: Heap, x: Addr, opt: ItemOption): Heap
    requires x in h
  {
    match opt
    case ParentOpt(p) => SetParent(h, x, p)
    case SrcOpt(e) => SetSrc(h, x, e)
    case DstOpt(e) => SetDst(h, x, e)
    case ValueOpt(_, _) => h
  }

  // The options in order up to the first that is refused, and whether none was.
  ghost function ApplyAll(h: Heap, list: seq<Addr>, x: Addr, opts: seq<ItemOption>): (Heap, bool)
    decreases |opts|
  {
    if opts == [] then (h, true)
    else if x !in h || !Accepts(h, list, x, opts[0]) then (h, false)
    else ApplyAll(Apply(h, x, opts[0]), list, x, opts[1..])
  }

  // TnmSetConfig: an option that is not in the table is refused before any is set.
  ghost function SetConfig(h: Heap, list: seq<Addr>, x: Addr, opts: seq<ItemOption>): (Heap, bool)
    requires x in h
  {
    if AllInTable(h[x].kind, opts) then ApplyAll(h, list, x, opts) else (h, false)
  }

  ghost function Partial(h: Heap, list: seq<Addr>, n: Addr, kind: Kind, opts: seq<ItemOption>): (Heap, bool) {
    SetConfig(h[n := Fresh(kind)], list, n, opts)
  }

  // PortCreateProc and LinkCreateProc: a port needs a node, a link both ends.
  predicate Complete(i: Item) {
    (i.kind.Port? ==> i.parent.Some?) && (i.kind.Link? ==> i.src.Some? && i.dst.Some?)
  }

  ghost predicate Creates(h: Heap, list: seq<Addr>, n: Addr, kind: Kind, opts: seq<ItemOption>) {
    var (g, ok) := Partial(h, list, n, kind, opts);
    ok && n in g && Complete(g[n])
  }

  lemma ApplyKeeps(h: Heap, list: seq<Addr>, x: Addr, opt: ItemOption)
    requires Wf(h, {}) && Forest(h) && x in h && Accepts(h, list, x, opt)
    ensures var g := Apply(h, x, opt); Wf(g, {}) && Forest(g) && OnlyRefsOf(h, g, x)
    ensures var g := Apply(h, x, opt);
            && (h[x].src.Some? ==> g[x].src.Some?) && (h[x].dst.Some? ==> g[x].dst.Some?)
  {
    var g := Apply(h, x, opt);
    match opt
    case ParentOpt(None) =>
      SetParentWf(h, x, None);
      ClearParentForest(h, x);
    case ParentOpt(Some(p)) =>
      SetParentWf(h, x, Some(p));
      SetParentForest(h, x, p);
    case SrcOpt(e) =>
      SetSrcWf(h, x, e);
      SameParentsForest(h, g);
    case DstOpt(e) =>
      SetDstWf(h, x, e);
      SameParentsForest(h, g);
    case ValueOpt(_, _) =>
  }

  lemma {:induction false} ApplyAllKeeps(h: Heap, list: seq<Addr>, x: Addr, opts: seq<ItemOption>)
    requires Wf(h, {}) && Forest(h) && x in h
    ensures var g := ApplyAll(h, list, x, opts).0;
            && Wf(g, {}) && Forest(g) && OnlyRefsOf(h, g, x)
            && (h[x].src.Some? ==> g[x].src.Some?) && (h[x].dst.Some? ==> g[x].dst.Some?)
    decreases |opts|
  {
    if opts != [] && Accepts(h, list, x, opts[0]) {
      ApplyKeeps(h, list, x, opts[0]);
      ApplyAllKeeps(Apply(h, x, opts[0]), list, x, opts[1..]);
    }
  }

  // The options before i have been set, starting from h; ok says that none was refused.
  ghost predicate Applying(h: Heap, list: seq<Addr>, x: Addr, opts: seq<ItemOption>, g: Heap, i: nat, ok: bool) {
    && i <= |opts| && x in h && x in g && Wf(g, {}) && Forest(g) && OnlyRefsOf(h, g, x)
    && ApplyAll(h, list, x, opts) == if ok then ApplyAll(g, list, x, opts[i..]) else (g, false)
  }

  lemma ApplyNext(h: Heap, list: seq<Addr>, x: Addr, opts: seq<ItemOption>, g: Heap, i: nat)
    requires Applying(h, list, x, opts, g, i, true) && i < |opts|
    ensures if Accepts(g, list, x, opts[i]) then Applying(h, list, x, opts, Apply(g, x, opts[i]), i + 1, true)
            else Applying(h, list, x, opts, g, i, false)
  {
    assert opts[i..][0] == opts[i] && opts[i..][1..] == opts[i + 1..];
    if Accepts(g, list, x, opts[i]) { ApplyKeeps(g, list, x, opts[i]); }
  }

  lemma FreshWf(h: Heap, n: Addr, kind: Kind)
    requires Wf(h, {}) && Forest(h) && n !in h
    ensures Wf(h[n := Fresh(kind)], {}) && Forest(h[n := Fresh(kind)])
  {
    var g := h[n := Fresh(kind)];
    forall x | x in g ensures TypedRefs(g, x) { if x != n { assert TypedRefs(h, x); } }
    assert forall x :: x in h ==> TypedRefs(h, x);
    FreshKeeps(h, n, kind);
  }

  // ----- Steps and runs -----

  ghost predicate Inv(s: MapState) {
    && Wf(s.heap, {}) && Forest(s.heap)
    && Listed(s.list, s.heap, {})
    && s.num == |s.list|
    && AllLinked(s.heap)
  }

  // Every link has both ends.
  ghost predicate AllLinked(h: Heap) {
    forall l :: l in h && h[l].kind.Link? ==> h[l].src.Some? && h[l].dst.Some?
  }

  ghost predicate Step(s: MapState, op: Op, t: MapState) {
    match op
    case DoCreate(n, kind, opts) =>
      && n !in s.heap && Creates(s.heap, s.list, n, kind, opts)
      && t == MapState(Partial(s.heap, s.list, n, kind, opts).0, [n] + s.list, s.num + 1)
    case DoConfigure(x, opts) =>
      && x in s.heap && t == s.(heap := SetConfig(s.heap, s.list, x, opts).0)
    case DoDestroy(x) => Destroyed(s, x, t)
  }

  ghost predicate Destroyed(s: MapState, x: Addr, t: MapState) {
    && x in s.heap
    && t.heap == Prune(s.heap, Removed(s.heap, x))
    && t.list == Without(s.list, Removed(s.heap, x)) && t.num == |t.list|
  }

  lemma ListedIn(s: MapState)
    requires Listed(s.list, s.heap, {})
    ensures forall a :: a in s.list <==> a in s.heap
  {
    forall a ensures a in s.list <==> a in s.heap { CountIn(s.list, a); }
  }

  lemma StepKeepsInv(s: MapState, op: Op, t: MapState)
    requires Inv(s) && Step(s, op, t)
    ensures Inv(t)
  {
    match op
    case DoCreate(n, kind, opts) => CreateKeepsInv(s, n, kind, opts, t);
    case DoConfigure(x, opts) => ConfigureKeepsInv(s, x, opts);
    case DoDestroy(x) => DestroyKeepsInv(s, x, t);
  }

  lemma CreateKeepsInv(s: MapState, n: Addr, kind: Kind, opts: seq<ItemOption>, t: MapState)
    requires Inv(s) && Step(s, DoCreate(n, kind, opts), t)
    ensures Inv(t)
  {
    FreshWf(s.heap, n, kind);
    var h := s.heap[n := Fresh(kind)];
    ApplyAllKeeps(h, s.list, n, opts);
    assert t.heap.Keys == s.heap.Keys + {n};
    CreateLists(s, n, t.heap);
    LinksComplete(s.heap, n, kind, t.heap);
  }

  lemma LinksComplete(h: Heap, n: Addr, kind: Kind, f: Heap)
    requires AllLinked(h)
    requires n !in h && OnlyRefsOf(h[n := Fresh(kind)], f, n) && Complete(f[n])
    ensures AllLinked(f)
  {
  }

  lemma ConfigureKeepsInv(s: MapState, x: Addr, opts: seq<ItemOption>)
    requires Inv(s) && x in s.heap
    ensures Inv(s.(heap := SetConfig(s.heap, s.list, x, opts).0))
  {
    var g := ApplyAll(s.heap, s.list, x, opts).0;
    ApplyAllKeeps(s.heap, s.list, x, opts);
    LinksStayComplete(s.heap, g, x);
  }

  /** An option that sets a pointer is accepted exactly when the graph with the pointer set is well
      formed again: no refusal is without a reason. */
  lemma AcceptsExactly(s: MapState, x: Addr, opt: ItemOption)
    requires Inv(s) && x in s.heap && !opt.ValueOpt?
    ensures Accepts(s.heap, s.list, x, opt) <==> Inv(s.(heap := Apply(s.heap, x, opt)))
  {
    var g := Apply(s.heap, x, opt);
    if Accepts(s.heap, s.list, x, opt) {
      ApplyKeeps(s.heap, s.list, x, opt);
      LinksStayComplete(s.heap, g, x);
    } else if Inv(s.(heap := g)) {
      RefusedForAReason(s, x, opt);
    }
  }

  lemma RefusedForAReason(s: MapState, x: Addr, opt: ItemOption)
    requires Inv(s) && x in s.heap && !opt.ValueOpt? && !Accepts(s.heap, s.list, x, opt)
    ensures var g := Apply(s.heap, x, opt); !(Wf(g, {}) && Forest(g))
  {
    var g := Apply(s.heap, x, opt);
    ListedIn(s);
    assert AllTyped(g) ==> TypedRefs(g, x);
    match opt
    case ParentOpt(p) =>
      SetParentShape(s.heap, x, p);
      if p.value in s.heap { SetParentForest(s.heap, x, p.value); }
    case SrcOpt(e) => SetSrcShape(s.heap, x, e);
    case DstOpt(e) => SetDstShape(s.heap, x, e);
  }

  lemma LinksStayComplete(h: Heap, g: Heap, x: Addr)
    requires AllLinked(h) && OnlyRefsOf(h, g, x) && x in h
    requires (h[x].src.Some? ==> g[x].src.Some?) && (h[x].dst.Some? ==> g[x].dst.Some?)
    ensures AllLinked(g)
  {
  }

  lemma DestroyKeepsInv(s: MapState, x: Addr, t: MapState)
    requires Inv(s) && Destroyed(s, x, t)
    ensures Inv(t)
  {
    RemovedIsClosed(s.heap, {}, x);
    PruneKeepsWf(s.heap, {}, Removed(s.heap, x));
    PruneKeepsForest(s.heap, Removed(s.heap, x));
    ListedWithout(s.list, s.heap, {}, Removed(s.heap, x));
  }

  lemma CreateLists(s: MapState, n: Addr, h: Heap)
    requires Listed(s.list, s.heap, {}) && n !in s.heap && h.Keys == s.heap.Keys + {n}
    ensures Listed([n] + s.list, h, {})
  {
    forall y ensures Count([n] + s.list, y) == One(y in h && y !in {}) {
      assert ([n] + s.list)[1..] == s.list;
      assert Count(s.list, y) == One(y in s.heap && y !in {});
    }
  }

  ghost predicate IsRun(ss: seq<MapState>, ops: seq<Op>) {
    && |ss| == |ops| + 1
    && ss[0] == MapState(map[], [], 0)
    && forall i :: 0 <= i < |ops| ==> Step(ss[i], ops[i], ss[i + 1])
  }

  /** In every state of every run of creates, configures and destroys: the parents form a forest
      of the declared types, every pointer has its reverse entry exactly once, nothing points to a
      freed item, and the item list holds every item once and agrees with numItems. */
  lemma {:induction false} RunsKeepInv(ss: seq<MapState>, ops: seq<Op>, k: nat)
    requires IsRun(ss, ops) && k < |ss|
    ensures Inv(ss[k])
    decreases k
  {
    if k > 0 {
      RunsKeepInv(ss, ops, k - 1);
      StepKeepsInv(ss[k - 1], ops[k - 1], ss[k]);
    }
  }

  /** Destroying x in a reachable state frees exactly Removed: every surviving item keeps its type
      and its ends, keeps its parent unless the parent was freed, and mentions no freed item. */
  lemma DestroyExact(s: MapState, x: Addr, t: MapState, y: Addr)
    requires Inv(s) && Destroyed(s, x, t)
    ensures y in t.heap <==> y in s.heap && y !in Removed(s.heap, x)
    ensures y in t.heap ==>
              && t.heap[y].kind == s.heap[y].kind && t.heap[y].src == s.heap[y].src && t.heap[y].dst == s.heap[y].dst
              && (t.heap[y].parent == s.heap[y].parent || (t.heap[y].parent.None? && s.heap[y].parent == Some(x)))
    ensures y in t.heap ==> forall r :: r in Removed(s.heap, x) ==>
              && t.heap[y].parent != Some(r) && t.heap[y].src != Some(r) && t.heap[y].dst != Some(r)
              && r !in t.heap[y].members && r !in t.heap[y].links
    ensures t.num == |t.list| && (y in t.list <==> y in t.heap)
  {
    DestroyKeepsInv(s, x, t);
    ListedIn(t);
    if y in t.heap {
      SurvivorRefs(s.heap, x, y);
      forall r | r in Removed(s.heap, x) ensures r !in t.heap[y].members && r !in t.heap[y].links {
        WithoutIn(s.heap[y].members, Removed(s.heap, x), r);
        WithoutIn(s.heap[y].links, Removed(s.heap, x), r);
      }
    }
  }

  lemma SurvivorRefs(h: Heap, x: Addr, y: Addr)
    requires Wf(h, {}) && x in h && y in h && y !in Removed(h, x)
    ensures !Touches(h[y], Removed(h, x))
    ensures h[y].parent.Some? && h[y].parent.value in Removed(h, x) ==> h[y].parent == Some(x)
  {
    RemovedIsClosed(h, {}, x);
    assert TypedRefs(h, y);
    if h[y].parent.Some? {
      assert TypedRefs(h, h[y].parent.value);
    }
  }

  // ----- Facts about partly finished deletions -----

  lemma ListedWithout(list: seq<Addr>, h: Heap, pend: set<Addr>, r: set<Addr>)
    requires Listed(list, h, pend)
    ensures Listed(Without(list, r), h, pend + r) && Listed(Without(list, r), Prune(h, r), pend)
  {
    forall y
      ensures Count(Without(list, r), y) == One(y in h && y !in pend + r)
      ensures Count(Without(list, r), y) == One(y in Prune(h, r) && y !in pend)
    {
      CountWithout(list, r, y);
      assert Count(list, y) == One(y in h && y !in pend);
    }
  }

  lemma DestroyShrinks(s: MapState, x: Addr)
    requires Inv(s) && x in s.heap
    ensures |Without(s.list, Removed(s.heap, x))| < |s.list|
  {
    assert Count(s.list, x) == One(x in s.heap && x !in {});
    assert {x} + (Removed(s.heap, x) - {x}) == Removed(s.heap, x);
    WithoutTwice(s.list, {x}, Removed(s.heap, x) - {x});
    RemoveFirstOnce(s.list, x);
    CountRemoveFirst(s.list, x, x);
    WithoutShorter(Without(s.list, {x}), Removed(s.heap, x) - {x});
  }

  lemma {:induction false} WithoutShorter(s: seq<Addr>, r: set<Addr>)
    ensures |Without(s, r)| <= |s|
  {
    if s != [] { WithoutShorter(s[1..], r); }
  }

  lemma FirstMember(h: Heap, det: set<Addr>, x: Addr)
    requires Wf(h, det) && x in h && h[x].kind.Node? && h[x].members != []
    ensures var q := h[x].members[0]; q in h && q !in det && h[q].parent == Some(x) && h[q].kind.Port?
  {
    var q := h[x].members[0];
    assert Count(h[x].members, q) == One(IsMember(h, det, q, x));
    assert TypedRefs(h, q);
  }

  lemma FirstLink(d: Heap, det: set<Addr>, x: Addr, done: set<Addr>)
    requires x in Prune(d, done) && Wf(Prune(d, done), det) && Prune(d, done)[x].links != []
    ensures var h := Prune(d, done); var l := h[x].links[0];
            && l in h && h[l].kind.Link? && Touches(d[l], {x})
            && Removed(h, l) == {l} && Rank(h[x].kind) == 1
  {
    var h := Prune(d, done);
    var l := h[x].links[0];
    assert Count(h[x].links, l) == Ends(h, l, x);
    assert TypedRefs(h, l);
    assert forall y :: y in h ==> TypedRefs(h, y);
    assert Core(h, l) == {l};
    assert forall y :: y in h ==> !Touches(h[y], {l});
  }

  // Only nodes and groups are parents.
  lemma ParentsOfDet(h: Heap, det: set<Addr>, q: Addr)
    requires Wf(h, det) && q in h && (h[q].kind.Port? || h[q].kind.Link?)
    ensures forall y :: y in det && y in h ==> h[y].parent != Some(q)
  {
    assert forall y :: y in det && y in h ==> TypedRefs(h, y);
  }

  lemma RemovedInside(h: Heap, det: set<Addr>, x: Addr, done: set<Addr>, q: Addr)
    requires Wf(h, det) && x in h && h[x].kind.Node? && q in Prune(h, done)
    requires Prune(h, done)[q].parent == Some(x) && h[q].kind.Port?
    ensures Removed(Prune(h, done), q) <= Removed(h, x) - {x} - done && q in Removed(h, x) - {x}
  {
    var g := Prune(h, done);
    assert Core(g, q) == {q};
    assert q in Core(h, x);
    forall l | l in g && Touches(g[l], {q}) ensures l in Removed(h, x) && l != x {
      assert TypedRefs(h, l);
      assert Touches(h[l], Core(h, x));
    }
  }

  lemma NoMembersLeft(h: Heap, det: set<Addr>, x: Addr, done: set<Addr>)
    requires Wf(h, det) && x in h && h[x].kind.Node? && x !in done && (Removed(h, x) - {x}) !! det
    requires done <= Removed(h, x) - {x} && Closed(h, done)
    requires Wf(Prune(h, done), det) && Prune(h, done)[x].members == []
    ensures done == Removed(h, x) - {x}
  {
    var g := Prune(h, done);
    forall q | q in Core(h, x) - {x} ensures q in done {
      assert Count(g[x].members, q) == One(IsMember(g, det, q, x));
    }
    assert TypedRefs(h, x);
    forall l | l in h && Touches(h[l], Core(h, x)) ensures l in done {
      assert TypedRefs(h, l);
      assert Touches(h[l], done);
    }
  }

  // Once the ports are gone, the links at x are what is left to remove besides x.
  lemma RestOfRemoved(h: Heap, det: set<Addr>, x: Addr, ports: set<Addr>)
    requires Wf(h, det) && x in h && x !in ports && ports == if h[x].kind.Node? then Removed(h, x) - {x} else {}
    ensures var g := Prune(h, ports);
            && ports + LinksAt(g, x) + {x} == Removed(h, x)
            && LinksAt(g, x) <= Removed(h, x) && x !in LinksAt(g, x)
  {
    var g := Prune(h, ports);
    assert TypedRefs(h, x);
    assert forall l :: l in h ==> TypedRefs(h, l);
    if h[x].kind.Node? {
      assert LinksAt(g, x) == {};
      assert x in Removed(h, x);
    } else {
      assert Core(h, x) == {x};
      assert LinksAt(g, x) == LinksAt(h, x);
    }
  }

  lemma DetachedLinks(h: Heap, det: set<Addr>, x: Addr)
    requires Wf(h, det) && x in h && x !in det
    ensures h[x].links != [] ==> Wf(Detach(h, x), det + {x})
    ensures h[x].links == [] ==> LinksAt(h, x) == {}
    ensures Detach(h, x).Keys == h.Keys && Detach(h, x)[x].kind == h[x].kind
    ensures h[x].links == [] ==> Detach(h, x)[x].links == []
  {
    DetachAt(h, det, x, x);
    assert TypedRefs(h, x);
    if h[x].links == [] {
      forall l | l in h ensures !Touches(h[l], {x}) {
        assert Count(h[x].links, l) == Ends(h, l, x);
      }
    } else {
      var l := h[x].links[0];
      assert Count(h[x].links, l) == Ends(h, l, x);
      assert TypedRefs(h, l);
      DetachWf(h, det, x);
    }
  }

  lemma DetachedLinksSame(h: Heap, det: set<Addr>, x: Addr)
    requires Wf(h, det) && x in h && x !in det
    ensures LinksAt(Detach(h, x), x) == LinksAt(h, x)
  {
    forall l | l in h ensures l in Detach(h, x) && Touches(Detach(h, x)[l], {x}) == Touches(h[l], {x}) {
      DetachAt(h, det, x, l);
    }
    DetachAt(h, det, x, x);
  }

  // The links at x are going: done are gone, in d the detached x still has the rest.
  ghost predicate LinksGoing(d: Heap, det: set<Addr>, x: Addr, list: seq<Addr>, done: set<Addr>, heap: Heap,
                             itemList: seq<Addr>)
  {
    && done <= LinksAt(d, x) && Closed(d, done) && heap == Prune(d, done) && x in heap && Wf(heap, det)
    && itemList == Without(list, done)
  }

  lemma NextLink(d: Heap, det: set<Addr>, pend: set<Addr>, x: Addr, list: seq<Addr>, done: set<Addr>, heap: Heap,
                 itemList: seq<Addr>)
    requires LinksGoing(d, det, x, list, done, heap, itemList) && heap[x].links != []
    requires Listed(list, d, pend) && LinksAt(d, x) !! pend
    ensures var l := heap[x].links[0];
            && l in heap && heap[l].kind.Link? && Rank(heap[x].kind) == 1 && Removed(heap, l) == {l} && {l} !! pend
            && Listed(itemList, heap, pend) && l in LinksAt(d, x) - done
            && (forall y :: y in det && y in heap ==> heap[y].parent != Some(l))
            && LinksGoing(d, det, x, list, done + {l}, Prune(heap, {l}), Without(itemList, {l}))
  {
    var l := heap[x].links[0];
    FirstLink(d, det, x, done);
    RemovedIsClosed(heap, det, l);
    ListedWithout(list, d, pend, done);
    ParentsOfDet(heap, det, l);
    PruneKeepsWf(heap, det, {l});
    PruneTwice(d, done, {l});
    WithoutTwice(list, done, {l});
    ClosedUnion(d, done, {l});
  }

  lemma MembersAlive(h: Heap, det: set<Addr>, x: Addr)
    requires Wf(h, det) && x in h && x !in det && x !in LinksAt(h, x)
    ensures var g := Prune(Detach(h, x), LinksAt(h, x));
            x in g && forall y :: y in g[x].members ==> y in g
  {
    DetachAt(h, det, x, x);
    var g := Prune(Detach(h, x), LinksAt(h, x));
    forall y | y in g[x].members ensures y in g {
      WithoutIn(Detach(h, x)[x].members, LinksAt(h, x), y);
      WithoutIn(h[x].members, {x}, y);
      CountIn(h[x].members, y);
      assert Count(h[x].members, y) == One(IsMember(h, det, y, x));
    }
  }

  lemma ReadyToRelease(h: Heap, list: seq<Addr>, det: set<Addr>, pend: set<Addr>, x: Addr, ports: set<Addr>)
    requires Wf(h, det) && x in h && Removed(h, x) !! pend && Listed(list, h, pend)
    requires ports == if h[x].kind.Node? then Removed(h, x) - {x} else {}
    requires forall y :: y in det && y in h ==> h[y].parent != Some(x)
    ensures var g := Prune(h, ports);
            && Wf(g, det) && x in g && g[x].kind == h[x].kind && LinksAt(g, x) !! pend + {x}
            && Listed(Without(Without(list, {x}), ports), g, pend + {x})
            && forall y :: y in det && y in g ==> g[y].parent != Some(x)
  {
    PruneKeepsWf(h, det, ports);
    RestOfRemoved(h, det, x, ports);
    ListedWithout(list, h, pend, {x});
    ListedWithout(Without(list, {x}), h, pend + {x}, ports);
  }

  lemma AllRemoved(h: Heap, list: seq<Addr>, det: set<Addr>, x: Addr, ports: set<Addr>, r: set<Addr>)
    requires Wf(h, det) && x in h && ports == if h[x].kind.Node? then Removed(h, x) - {x} else {}
    requires r == LinksAt(Prune(h, ports), x)
    ensures Prune(Prune(h, ports), r + {x}) == Prune(h, Removed(h, x))
    ensures Without(Without(Without(list, {x}), ports), r) == Without(list, Removed(h, x))
  {
    RestOfRemoved(h, det, x, ports);
    PruneTwice(h, ports, r + {x});
    WithoutTwice(list, {x}, ports);
    WithoutTwice(list, {x} + ports, r);
    assert ports + (r + {x}) == Removed(h, x) == {x} + ports + r;
  }

  lemma ListedDetached(list: seq<Addr>, h: Heap, d: Heap, pend: set<Addr>)
    requires Listed(list, h, pend) && d.Keys == h.Keys
    ensures Listed(list, d, pend)
  {
    forall y ensures Count(list, y) == One(y in d && y !in pend) {
      assert Count(list, y) == One(y in h && y !in pend);
    }
  }

  lemma NoLinksLeft(h: Heap, det: set<Addr>, x: Addr, done: set<Addr>)
    requires Wf(h, det) && x in h && x !in det && done <= LinksAt(h, x)
    requires x in Prune(Detach(h, x), done) && Prune(Detach(h, x), done)[x].links == []
    requires h[x].links != [] ==> Wf(Prune(Detach(h, x), done), det + {x})
    ensures done == LinksAt(h, x)
  {
    DetachedLinks(h, det, x);
    if h[x].links != [] {
      var g := Prune(Detach(h, x), done);
      forall l | l in LinksAt(h, x) ensures l in done {
        DetachAt(h, det, x, l);
        assert Count(g[x].links, l) == Ends(g, l, x);
      }
    }
  }
}
