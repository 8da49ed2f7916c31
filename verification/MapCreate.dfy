/**
 Creating an item (CreateItem in tnmMap.c): which options a create takes, when it succeeds, and what
 a refused one leaves behind.
 */
module MapCreates {
  import opened Vectors
  import opened Graphs
  import opened MapGraph
  import opened MapDelete
  import opened MapRuns

  // An option a new item of this type can have: its target is an item of the right type.
  predicate Fits(h: Heap, kind: Kind, opt: ItemOption) {
    match opt
    case ParentOpt(None) => true
    case ParentOpt(Some(p)) => p in h && h[p].kind == ParentKind(kind)
    case SrcOpt(e) => kind.Link? && e in h && (h[e].kind.Network? || h[e].kind.Port?)
    case DstOpt(e) => kind.Link? && e in h && (h[e].kind.Network? || h[e].kind.Port?)
    case ValueOpt(known, good) => known && good
  }

  // The options before the first that does not fit.
  function Fitting(h: Heap, kind: Kind, opts: seq<ItemOption>): seq<ItemOption> {
    if opts == [] || !Fits(h, kind, opts[0]) then [] else [opts[0]] + Fitting(h, kind, opts[1..])
  }

  // The options a create sets: none if one of them is not in the table.
  function Taken(h: Heap, kind: Kind, opts: seq<ItemOption>): seq<ItemOption> {
    if AllInTable(kind, opts) then Fitting(h, kind, opts) else []
  }

  // What a pointer is after the options, if it was v before.
  function LastParent(opts: seq<ItemOption>, v: Option<Addr>): Option<Addr> {
    if opts == [] then v else LastParent(opts[1..], if opts[0].ParentOpt? then opts[0].p else v)
  }

  function LastSrc(opts: seq<ItemOption>, v: Option<Addr>): Option<Addr> {
    if opts == [] then v else LastSrc(opts[1..], if opts[0].SrcOpt? then Some(opts[0].e) else v)
  }

  function LastDst(opts: seq<ItemOption>, v: Option<Addr>): Option<Addr> {
    if opts == [] then v else LastDst(opts[1..], if opts[0].DstOpt? then Some(opts[0].e) else v)
  }

  // g is s with a new item n, some of whose options have been set.
  ghost predicate Underway(s: MapState, g: Heap, n: Addr, kind: Kind) {
    && Inv(s) && n !in s.heap
    && Wf(g, {}) && Forest(g) && OnlyRefsOf(s.heap[n := Fresh(kind)], g, n)
    && Prune(g, {n}) == s.heap
  }

  lemma StartUnderway(s: MapState, n: Addr, kind: Kind)
    requires Inv(s) && n !in s.heap
    ensures Underway(s, s.heap[n := Fresh(kind)], n, kind)
  {
    FreshWf(s.heap, n, kind);
    FreshPruned(s, n, kind);
  }

  lemma FreshPruned(s: MapState, n: Addr, kind: Kind)
    requires Inv(s) && n !in s.heap
    ensures Prune(s.heap[n := Fresh(kind)], {n}) == s.heap
  {
    forall y | y in s.heap ensures Pruned(s.heap[y], {n}) == s.heap[y] { Unmentioned(s, n, y); }
  }

  // Nothing mentions an address that is not in use.
  lemma Unmentioned(s: MapState, n: Addr, y: Addr)
    requires Inv(s) && n !in s.heap && y in s.heap
    ensures Pruned(s.heap[y], {n}) == s.heap[y]
  {
    assert TypedRefs(s.heap, y);
    assert Count(s.heap[y].members, n) == One(IsMember(s.heap, {}, n, y));
    assert Count(s.heap[y].links, n) == Ends(s.heap, n, y);
    WithoutAbsentOne(s.heap[y].members, n);
    WithoutAbsentOne(s.heap[y].links, n);
  }

  // Nothing is below an item that is nobody's parent.
  lemma {:induction false} NotAboveIn(h: Heap, n: Addr, p: Addr, k: nat)
    requires p != n && forall y :: y in h ==> h[y].parent != Some(n)
    ensures !AboveIn(h, n, p, k)
    decreases k
  {
    if k > 0 && p in h && h[p].parent.Some? { NotAboveIn(h, n, h[p].parent.value, k - 1); }
  }

  lemma NotAbove(h: Heap, n: Addr, p: Addr)
    requires p != n && forall y :: y in h ==> h[y].parent != Some(n)
    ensures !Above(h, n, p)
  {
    forall k: nat ensures !AboveIn(h, n, p, k) { NotAboveIn(h, n, p, k); }
  }

  // Whether an option of a new item is accepted does not depend on the options before it.
  lemma AcceptsFits(s: MapState, g: Heap, n: Addr, kind: Kind, opt: ItemOption)
    requires Underway(s, g, n, kind)
    ensures Accepts(g, s.list, n, opt) <==> Fits(s.heap, kind, opt)
  {
    ListedIn(s);
    AcceptsNew(s.heap, s.list, g, n, kind, opt);
  }

  lemma AcceptsNew(h: Heap, list: seq<Addr>, g: Heap, n: Addr, kind: Kind, opt: ItemOption)
    requires AllTyped(h) && (forall a :: a in list <==> a in h)
    requires n !in h && Forest(g) && OnlyRefsOf(h[n := Fresh(kind)], g, n)
    ensures Accepts(g, list, n, opt) <==> Fits(h, kind, opt)
  {
    if opt.ParentOpt? && opt.p.Some? && Fits(h, kind, opt) { NewNotAbove(h, g, n, kind, opt.p.value); }
  }

  lemma NewNotAbove(h: Heap, g: Heap, n: Addr, kind: Kind, p: Addr)
    requires AllTyped(h) && n !in h && Forest(g) && OnlyRefsOf(h[n := Fresh(kind)], g, n) && p != n
    ensures !Above(g, n, p)
  {
    NotOwnParent(g, n);
    forall y | y in g ensures g[y].parent != Some(n) {
      if y != n { assert TypedRefs(h, y); }
    }
    NotAbove(g, n, p);
  }

  // The pointers of x after the options t.
  predicate PointsAfter(h: Heap, g: Heap, x: Addr, t: seq<ItemOption>)
    requires x in h
  {
    && x in g && g[x].parent == LastParent(t, h[x].parent)
    && g[x].src == LastSrc(t, h[x].src) && g[x].dst == LastDst(t, h[x].dst)
  }

  lemma ApplyPoints(g: Heap, n: Addr, opt: ItemOption)
    requires n in g
    ensures Prune(Apply(g, n, opt), {n}) == Prune(g, {n}) && PointsAfter(g, Apply(g, n, opt), n, [opt])
  {
    assert [opt][1..] == [];
    match opt
    case ParentOpt(p) =>
      SetParentShape(g, n, p);
      SetParentPruned(g, n, p);
    case SrcOpt(e) =>
      SetSrcShape(g, n, e);
      SetSrcPruned(g, n, e);
    case DstOpt(e) =>
      SetDstShape(g, n, e);
      SetDstPruned(g, n, e);
    case ValueOpt(_, _) =>
  }

  lemma ApplyUnderway(s: MapState, g: Heap, n: Addr, kind: Kind, opt: ItemOption)
    requires Underway(s, g, n, kind) && Fits(s.heap, kind, opt)
    ensures Underway(s, Apply(g, n, opt), n, kind)
  {
    AcceptsFits(s, g, n, kind, opt);
    ApplyKeeps(g, s.list, n, opt);
    ApplyPoints(g, n, opt);
  }

  lemma PointsTwice(h: Heap, g: Heap, f: Heap, x: Addr, opt: ItemOption, t: seq<ItemOption>)
    requires x in h && PointsAfter(h, g, x, [opt]) && PointsAfter(g, f, x, t)
    ensures PointsAfter(h, f, x, [opt] + t)
  {
    LastAfter(opt, t, h[x].parent);
    LastAfter(opt, t, h[x].src);
    LastAfter(opt, t, h[x].dst);
  }

  lemma LastAfter(opt: ItemOption, t: seq<ItemOption>, v: Option<Addr>)
    ensures LastParent([opt] + t, v) == LastParent(t, LastParent([opt], v))
    ensures LastSrc([opt] + t, v) == LastSrc(t, LastSrc([opt], v))
    ensures LastDst([opt] + t, v) == LastDst(t, LastDst([opt], v))
  {
    assert ([opt] + t)[0] == opt && ([opt] + t)[1..] == t;
    assert [opt][0] == opt && [opt][1..] == [];
    assert forall w :: LastParent([], w) == w && LastSrc([], w) == w && LastDst([], w) == w;
  }

  lemma {:induction false} AppliesFitting(s: MapState, g: Heap, n: Addr, kind: Kind, opts: seq<ItemOption>)
    requires Underway(s, g, n, kind)
    ensures var (f, ok) := ApplyAll(g, s.list, n, opts);
            && Underway(s, f, n, kind) && (ok <==> Fitting(s.heap, kind, opts) == opts)
            && PointsAfter(g, f, n, Fitting(s.heap, kind, opts))
    decreases |opts|
  {
    if opts != [] {
      AcceptsFits(s, g, n, kind, opts[0]);
      if Fits(s.heap, kind, opts[0]) {
        var f := Apply(g, n, opts[0]);
        ApplyUnderway(s, g, n, kind, opts[0]);
        ApplyPoints(g, n, opts[0]);
        AppliesFitting(s, f, n, kind, opts[1..]);
        PointsTwice(g, f, ApplyAll(f, s.list, n, opts[1..]).0, n, opts[0], Fitting(s.heap, kind, opts[1..]));
        assert opts == [opts[0]] + opts[1..];
      }
    }
  }

  /** A create with an option that is not in the table sets none; otherwise it sets the options that
      fit, up to the first that does not. These alone decide which pointers the new item has. */
  lemma TakesFitting(s: MapState, n: Addr, kind: Kind, opts: seq<ItemOption>)
    requires Inv(s) && n !in s.heap
    ensures var (f, ok) := Partial(s.heap, s.list, n, kind, opts);
            && Underway(s, f, n, kind) && (ok <==> Taken(s.heap, kind, opts) == opts)
            && PointsAfter(s.heap[n := Fresh(kind)], f, n, Taken(s.heap, kind, opts))
  {
    var g := s.heap[n := Fresh(kind)];
    StartUnderway(s, n, kind);
    AppliesFitting(s, g, n, kind, opts);
    assert opts == [] ==> AllInTable(kind, opts);
  }

  /** A create succeeds if and only if every option fits, a port is given a node, and a link both ends. */
  lemma CreatesExactly(s: MapState, n: Addr, kind: Kind, opts: seq<ItemOption>)
    requires Inv(s) && n !in s.heap
    ensures Creates(s.heap, s.list, n, kind, opts) <==>
              && (forall i :: 0 <= i < |opts| ==> Fits(s.heap, kind, opts[i]))
              && (kind.Port? ==> LastParent(opts, None).Some?)
              && (kind.Link? ==> (exists i :: 0 <= i < |opts| && opts[i].SrcOpt?)
                                 && (exists i :: 0 <= i < |opts| && opts[i].DstOpt?))
  {
    TakesFitting(s, n, kind, opts);
    TakenAll(s.heap, kind, opts);
    EndsSet(opts, None, None);
  }

  lemma TakenAll(h: Heap, kind: Kind, opts: seq<ItemOption>)
    ensures Taken(h, kind, opts) == opts <==> forall i :: 0 <= i < |opts| ==> Fits(h, kind, opts[i])
  {
    FittingAll(h, kind, opts);
    assert forall o :: Fits(h, kind, o) ==> InTable(kind, o);
    assert opts == [] ==> AllInTable(kind, opts);
  }

  lemma {:induction false} FittingAll(h: Heap, kind: Kind, opts: seq<ItemOption>)
    ensures Fitting(h, kind, opts) == opts <==> forall i :: 0 <= i < |opts| ==> Fits(h, kind, opts[i])
  {
    if opts != [] {
      var rest := opts[1..];
      FittingAll(h, kind, rest);
      assert forall i :: 0 <= i < |rest| ==> rest[i] == opts[i + 1];
      assert (forall i :: 0 <= i < |opts| ==> Fits(h, kind, opts[i]))
             <==> Fits(h, kind, opts[0]) && forall i :: 0 <= i < |rest| ==> Fits(h, kind, rest[i]);
      assert opts == [opts[0]] + rest;
    }
  }

  lemma {:induction false} EndsSet(opts: seq<ItemOption>, s: Option<Addr>, d: Option<Addr>)
    ensures LastSrc(opts, s).Some? <==> s.Some? || exists i :: 0 <= i < |opts| && opts[i].SrcOpt?
    ensures LastDst(opts, d).Some? <==> d.Some? || exists i :: 0 <= i < |opts| && opts[i].DstOpt?
    decreases |opts|
  {
    if opts != [] {
      var o, rest := opts[0], opts[1..];
      EndsSet(rest, if o.SrcOpt? then Some(o.e) else s, if o.DstOpt? then Some(o.e) else d);
      assert forall i :: 0 <= i < |rest| ==> rest[i] == opts[i + 1];
      assert forall i :: 0 < i < |opts| ==> opts[i] == rest[i - 1];
    }
  }

  // The options set before a refusal give no end, and the last parent among them is none.
  predicate NothingAttached(h: Heap, kind: Kind, opts: seq<ItemOption>) {
    var t := Taken(h, kind, opts);
    LastParent(t, None).None? && forall i :: 0 <= i < |t| ==> !t[i].SrcOpt? && !t[i].DstOpt?
  }

  /** A refused create frees the new item n and undoes none of its options. If none of those taken
      is left attached the map is as before, otherwise it is unsound: what is wrong then is that the
      vectors of the items n was attached to still mention it, and nothing else. */
  lemma FailedCreateSound(s: MapState, n: Addr, kind: Kind, opts: seq<ItemOption>)
    requires Inv(s) && n !in s.heap && !Creates(s.heap, s.list, n, kind, opts)
    ensures var h := Partial(s.heap, s.list, n, kind, opts).0 - {n};
            && (Inv(s.(heap := h)) <==> NothingAttached(s.heap, kind, opts))
            && (NothingAttached(s.heap, kind, opts) ==> h == s.heap)
            && Prune(h, {n}) == s.heap
  {
    TakesFitting(s, n, kind, opts);
    EndsSet(Taken(s.heap, kind, opts), None, None);
    FreedSound(s, Partial(s.heap, s.list, n, kind, opts).0, n, kind);
  }

  lemma FreedSound(s: MapState, g: Heap, n: Addr, kind: Kind)
    requires Underway(s, g, n, kind)
    ensures Prune(g - {n}, {n}) == s.heap
    ensures if g[n].parent.None? && g[n].src.None? && g[n].dst.None? then g - {n} == s.heap else !Wf(g - {n}, {})
  {
    assert Prune(g - {n}, {n}) == Prune(g, {n});
    if g[n].parent.None? && g[n].src.None? && g[n].dst.None? {
      forall y | y in g && y != n ensures g[y].parent != Some(n) { assert TypedRefs(s.heap, y); }
      FreedSame(g, n);
    } else {
      FreedDangles(g, n);
    }
  }

  lemma FreedSame(g: Heap, n: Addr)
    requires Wf(g, {}) && n in g && g[n].parent.None? && g[n].src.None? && g[n].dst.None?
    requires forall y :: y in g ==> g[y].parent != Some(n)
    ensures g - {n} == Prune(g, {n})
  {
    forall y | y in g && y != n ensures Pruned(g[y], {n}) == g[y] { Untouched(g, n, y); }
  }

  lemma FreedDangles(g: Heap, n: Addr)
    requires Wf(g, {}) && Forest(g) && n in g && (g[n].parent.Some? || g[n].src.Some? || g[n].dst.Some?)
    ensures !Wf(g - {n}, {})
  {
    var h := g - {n};
    assert TypedRefs(g, n);
    NotOwnParent(g, n);
    if g[n].parent.Some? {
      var p := g[n].parent.value;
      assert Count(g[p].members, n) == One(IsMember(g, {}, n, p)) == 1;
      assert Count(h[p].members, n) != One(IsMember(h, {}, n, p));
    } else {
      var e := if g[n].src.Some? then g[n].src.value else g[n].dst.value;
      assert Count(g[e].links, n) == Ends(g, n, e) >= 1;
      assert Count(h[e].links, n) != Ends(h, n, e);
    }
  }

  lemma Untouched(g: Heap, n: Addr, y: Addr)
    requires Wf(g, {}) && n in g && y in g && g[n].parent.None? && g[n].src.None? && g[n].dst.None?
    requires g[y].parent != Some(n)
    ensures Pruned(g[y], {n}) == g[y]
  {
    assert Count(g[y].members, n) == One(IsMember(g, {}, n, y));
    assert Count(g[y].links, n) == Ends(g, n, y);
    WithoutAbsentOne(g[y].members, n);
    WithoutAbsentOne(g[y].links, n);
  }

  /** A port created with a good node and then an unknown one is freed, but the node keeps naming it. */
  lemma FailedCreateDangles()
    ensures var h: Heap := map[1 := Fresh(Node)];
            var (g, ok) := Partial(h, [1], 2, Port, [ParentOpt(Some(1)), ParentOpt(Some(3))]);
            !ok && 2 !in g - {2} && (g - {2})[1].members == [2] && !Wf(g - {2}, {})
  {
    var h: Heap := map[1 := Fresh(Node)];
    var opts := [ParentOpt(Some(1)), ParentOpt(Some(3))];
    var f := h[2 := Fresh(Port)];
    assert !Above(f, 2, 1) by { AboveUnfold(f, 2, 1); }
    assert opts[1..] == [ParentOpt(Some(3))] && AllInTable(Port, opts);
    var g := SetParent(f, 2, Some(1));
    assert ApplyAll(g, [1], 2, opts[1..]) == (g, false);
    assert g[1].members == [] + [2] && Count((g - {2})[1].members, 2) == 1;
    assert !IsMember(g - {2}, {}, 2, 1);
  }

  /** A node given a group and then an end, which nodes do not have, is refused before the group is set. */
  lemma UnknownOptionHarmless(h: Heap, list: seq<Addr>, n: Addr, g: Addr, e: Addr)
    requires n !in h
    ensures Partial(h, list, n, Node, [ParentOpt(Some(g)), SrcOpt(e)]) == (h[n := Fresh(Node)], false)
    ensures NothingAttached(h, Node, [ParentOpt(Some(g)), SrcOpt(e)])
  {
    assert !InTable(Node, [ParentOpt(Some(g)), SrcOpt(e)][1]);
  }
}
