/**
 Graphs of entries with a parent, two link ends, and the reverse vectors members and links.
 Both the map items of Tnm and the objects of the Tkined editor are such graphs; K is their type.
 Entries live in a map from addresses to records, an explicit heap: freeing an entry removes its
 address, so a read through a dangling pointer would be a verification error.
 */
module Graphs {
  import opened Vectors

  type Addr = nat

  datatype Entry<K> = Entry(
    kind: K,
    parent: Option<Addr>,
    members: seq<Addr>,
    links: seq<Addr>,
    src: Option<Addr>,
    dst: Option<Addr>)

  type Graph<K> = map<Addr, Entry<K>>

  // What an entry points to.
  function Refs<K>(i: Entry<K>): set<Addr> {
    (if i.parent.Some? then {i.parent.value} else {})
    + (if i.src.Some? then {i.src.value} else {})
    + (if i.dst.Some? then {i.dst.value} else {})
  }

  function Fresh<K>(k: K): Entry<K> {
    Entry(k, None, [], [], None, None)
  }

  function One(b: bool): nat {
    if b then 1 else 0
  }

  // ----- Matching vectors -----

  // x has parent p and has not left its vector.
  ghost predicate IsMember<K>(h: Graph<K>, det: set<Addr>, x: Addr, p: Addr) {
    x in h && x !in det && h[x].parent == Some(p)
  }

  // How many ends of link l are e.
  function Ends<K>(h: Graph<K>, l: Addr, e: Addr): nat {
    if l in h then One(h[l].src == Some(e)) + One(h[l].dst == Some(e)) else 0
  }

  ghost predicate MembersMatch<K>(h: Graph<K>, det: set<Addr>) {
    forall p, x :: p in h ==> Count(h[p].members, x) == One(IsMember(h, det, x, p))
  }

  ghost predicate LinksMatch<K>(h: Graph<K>) {
    forall e, l :: e in h ==> Count(h[e].links, l) == Ends(h, l, e)
  }

  // ----- Parent chains -----

  // The parent chain of x ends after exactly n steps.
  ghost predicate DepthIs<K>(h: Graph<K>, x: Addr, n: nat)
    decreases n
  {
    && x in h
    && if h[x].parent.None? then n == 0 else n > 0 && DepthIs(h, h[x].parent.value, n - 1)
  }

  ghost predicate Rooted<K>(h: Graph<K>, x: Addr) {
    exists n: nat :: DepthIs(h, x, n)
  }

  ghost predicate Forest<K>(h: Graph<K>) {
    forall x :: x in h ==> Rooted(h, x)
  }

  // a is x or one of the at most n items above x.
  ghost predicate AboveIn<K>(h: Graph<K>, a: Addr, x: Addr, n: nat)
    decreases n
  {
    a == x || (n > 0 && x in h && h[x].parent.Some? && AboveIn(h, a, h[x].parent.value, n - 1))
  }

  ghost predicate Above<K>(h: Graph<K>, a: Addr, x: Addr) {
    exists n: nat :: AboveIn(h, a, x, n)
  }

  lemma AboveUnfold<K>(h: Graph<K>, a: Addr, x: Addr)
    requires x in h
    ensures Above(h, a, x) <==> a == x || (h[x].parent.Some? && Above(h, a, h[x].parent.value))
  {
    if n: nat :| AboveIn(h, a, x, n) {
      assert a == x || AboveIn(h, a, h[x].parent.value, n - 1);
    }
    if a == x {
      assert AboveIn(h, a, x, 0);
    } else if h[x].parent.Some? && Above(h, a, h[x].parent.value) {
      var n: nat :| AboveIn(h, a, h[x].parent.value, n);
      assert AboveIn(h, a, x, n + 1);
    }
  }

  lemma {:induction false} DepthUnique<K>(h: Graph<K>, x: Addr, m: nat, n: nat)
    requires DepthIs(h, x, m) && DepthIs(h, x, n)
    ensures m == n
    decreases m
  {
    if h[x].parent.Some? { DepthUnique(h, h[x].parent.value, m - 1, n - 1); }
  }

  lemma NotOwnParent<K>(h: Graph<K>, x: Addr)
    requires Forest(h) && x in h
    ensures h[x].parent != Some(x)
  {
    var n: nat :| DepthIs(h, x, n);
    if h[x].parent == Some(x) { DepthUnique(h, x, n, n - 1); }
  }

  // ----- Removing a set of entries -----

  /** What is left of an entry once the items of r are gone. */
  function Pruned<K>(i: Entry<K>, r: set<Addr>): Entry<K> {
    i.(members := Without(i.members, r),
       links := Without(i.links, r),
       parent := if i.parent.Some? && i.parent.value in r then None else i.parent)
  }

  function Prune<K>(h: Graph<K>, r: set<Addr>): Graph<K> {
    map x | x in h && x !in r :: Pruned(h[x], r)
  }

  predicate Touches<K>(i: Entry<K>, c: set<Addr>) {
    (i.src.Some? && i.src.value in c) || (i.dst.Some? && i.dst.value in c)
  }

  // The entries with an end at x.
  function LinksAt<K>(h: Graph<K>, x: Addr): set<Addr> {
    set l | l in h && Touches(h[l], {x})
  }

  // No item outside r has an end in r.
  ghost predicate Closed<K>(h: Graph<K>, r: set<Addr>) {
    forall l :: l in h && l !in r ==> !Touches(h[l], r)
  }

  lemma PruneTwice<K>(h: Graph<K>, a: set<Addr>, b: set<Addr>)
    ensures Prune(Prune(h, a), b) == Prune(h, a + b)
  {
    forall x | x in h && x !in a + b
      ensures Prune(Prune(h, a), b)[x] == Prune(h, a + b)[x]
    {
      WithoutTwice(h[x].members, a, b);
      WithoutTwice(h[x].links, a, b);
    }
  }

  lemma PruneNothing<K>(h: Graph<K>)
    ensures Prune(h, {}) == h
  {
    forall x | x in h ensures Prune(h, {})[x] == h[x] {
      WithoutAbsent(h[x].members, {});
      WithoutAbsent(h[x].links, {});
    }
  }

  lemma ClosedUnion<K>(h: Graph<K>, a: set<Addr>, b: set<Addr>)
    requires Closed(h, a) && Closed(Prune(h, a), b)
    ensures Closed(h, a + b)
  {
    forall l | l in h && l !in a + b ensures !Touches(h[l], a + b) {
      assert !Touches(Prune(h, a)[l], b);
    }
  }

  lemma {:induction false} PruneKeepsDepth<K>(h: Graph<K>, r: set<Addr>, x: Addr, n: nat)
    requires DepthIs(h, x, n) && x !in r
    ensures Rooted(Prune(h, r), x)
    decreases n
  {
    var g := Prune(h, r);
    if g[x].parent.None? {
      assert DepthIs(g, x, 0);
    } else {
      PruneKeepsDepth(h, r, h[x].parent.value, n - 1);
      var m: nat :| DepthIs(g, h[x].parent.value, m);
      assert DepthIs(g, x, m + 1);
    }
  }

  lemma PruneKeepsForest<K>(h: Graph<K>, r: set<Addr>)
    requires Forest(h)
    ensures Forest(Prune(h, r))
  {
    forall x | x in Prune(h, r) ensures Rooted(Prune(h, r), x) {
      var n: nat :| DepthIs(h, x, n);
      PruneKeepsDepth(h, r, x, n);
    }
  }

  // ----- Changing one pointer -----

  // g differs from h in the link vectors at most.
  ghost predicate OnlyLinks<K>(h: Graph<K>, g: Graph<K>) {
    g.Keys == h.Keys && forall y :: y in h ==> g[y] == h[y].(links := g[y].links)
  }

  ghost predicate OnlyMembers<K>(h: Graph<K>, g: Graph<K>) {
    g.Keys == h.Keys && forall y :: y in h ==> g[y] == h[y].(members := g[y].members)
  }

  function DropMember<K>(h: Graph<K>, p: Option<Addr>, x: Addr): Graph<K> {
    if p.Some? && p.value in h then h[p.value := h[p.value].(members := RemoveFirst(h[p.value].members, x))] else h
  }

  function DropLink<K>(h: Graph<K>, e: Option<Addr>, l: Addr): Graph<K> {
    if e.Some? && e.value in h then h[e.value := h[e.value].(links := RemoveFirst(h[e.value].links, l))] else h
  }

  function AddMember<K>(h: Graph<K>, p: Option<Addr>, x: Addr): Graph<K> {
    if p.Some? && p.value in h then h[p.value := h[p.value].(members := h[p.value].members + [x])] else h
  }

  function AddLink<K>(h: Graph<K>, e: Addr, l: Addr): Graph<K> {
    if e in h then h[e := h[e].(links := h[e].links + [l])] else h
  }

  function SetParent<K>(h: Graph<K>, x: Addr, p: Option<Addr>): Graph<K>
    requires x in h
  {
    var g := AddMember(DropMember(h, h[x].parent, x), p, x);
    g[x := g[x].(parent := p)]
  }

  function SetSrc<K>(h: Graph<K>, x: Addr, e: Addr): Graph<K>
    requires x in h
  {
    var g := AddLink(DropLink(h, h[x].src, x), e, x);
    g[x := g[x].(src := Some(e))]
  }

  function SetDst<K>(h: Graph<K>, x: Addr, e: Addr): Graph<K>
    requires x in h
  {
    var g := AddLink(DropLink(h, h[x].dst, x), e, x);
    g[x := g[x].(dst := Some(e))]
  }

  /** g differs from h in the pointers of x at most: the vectors of g then follow from Wf(g). */
  ghost predicate OnlyRefsOf<K>(h: Graph<K>, g: Graph<K>, x: Addr) {
    && g.Keys == h.Keys
    && (forall y :: y in h ==> g[y].kind == h[y].kind)
    && (forall y :: y in h && y != x ==> g[y].parent == h[y].parent && g[y].src == h[y].src && g[y].dst == h[y].dst)
  }

  lemma MoveMember<K>(h: Graph<K>, o: Option<Addr>, p: Option<Addr>, x: Addr)
    ensures OnlyMembers(h, AddMember(DropMember(h, o, x), p, x))
  {
    assert OnlyMembers(h, DropMember(h, o, x));
  }

  lemma MoveLink<K>(h: Graph<K>, o: Option<Addr>, e: Addr, l: Addr)
    ensures OnlyLinks(h, AddLink(DropLink(h, o, l), e, l))
  {
    assert OnlyLinks(h, DropLink(h, o, l));
  }

  lemma SetParentShape<K>(h: Graph<K>, x: Addr, p: Option<Addr>)
    requires x in h
    ensures var g := SetParent(h, x, p);
            && g.Keys == h.Keys
            && forall y :: y in h ==>
                 g[y] == h[y].(members := g[y].members, parent := if y == x then p else h[y].parent)
  {
    MoveMember(h, h[x].parent, p, x);
  }

  lemma SetSrcShape<K>(h: Graph<K>, x: Addr, e: Addr)
    requires x in h
    ensures var g := SetSrc(h, x, e);
            && g.Keys == h.Keys
            && forall y :: y in h ==> g[y] == h[y].(links := g[y].links, src := if y == x then Some(e) else h[y].src)
  {
    MoveLink(h, h[x].src, e, x);
  }

  lemma SetDstShape<K>(h: Graph<K>, x: Addr, e: Addr)
    requires x in h
    ensures var g := SetDst(h, x, e);
            && g.Keys == h.Keys
            && forall y :: y in h ==> g[y] == h[y].(links := g[y].links, dst := if y == x then Some(e) else h[y].dst)
  {
    MoveLink(h, h[x].dst, e, x);
  }

  // Whether x is in the vectors of others does not show once x is gone.
  lemma DropMemberPruned<K>(h: Graph<K>, p: Option<Addr>, x: Addr)
    ensures Prune(DropMember(h, p, x), {x}) == Prune(h, {x})
  {
    if p.Some? && p.value in h { WithoutMoved(h[p.value].members, x); }
  }

  lemma AddMemberPruned<K>(h: Graph<K>, p: Option<Addr>, x: Addr)
    ensures Prune(AddMember(h, p, x), {x}) == Prune(h, {x})
  {
    if p.Some? && p.value in h { WithoutMoved(h[p.value].members, x); }
  }

  lemma DropLinkPruned<K>(h: Graph<K>, e: Option<Addr>, x: Addr)
    ensures Prune(DropLink(h, e, x), {x}) == Prune(h, {x})
  {
    if e.Some? && e.value in h { WithoutMoved(h[e.value].links, x); }
  }

  lemma AddLinkPruned<K>(h: Graph<K>, e: Addr, x: Addr)
    ensures Prune(AddLink(h, e, x), {x}) == Prune(h, {x})
  {
    if e in h { WithoutMoved(h[e].links, x); }
  }

  lemma SetPruned<K>(h: Graph<K>, x: Addr, i: Entry<K>)
    ensures Prune(h[x := i], {x}) == Prune(h, {x})
  {
  }

  lemma SetParentPruned<K>(h: Graph<K>, x: Addr, p: Option<Addr>)
    requires x in h
    ensures Prune(SetParent(h, x, p), {x}) == Prune(h, {x})
  {
    DropMemberPruned(h, h[x].parent, x);
    var f := DropMember(h, h[x].parent, x);
    AddMemberPruned(f, p, x);
    var g := AddMember(f, p, x);
    SetPruned(g, x, g[x].(parent := p));
  }

  lemma SetSrcPruned<K>(h: Graph<K>, x: Addr, e: Addr)
    requires x in h
    ensures Prune(SetSrc(h, x, e), {x}) == Prune(h, {x})
  {
    DropLinkPruned(h, h[x].src, x);
    var f := DropLink(h, h[x].src, x);
    AddLinkPruned(f, e, x);
    var g := AddLink(f, e, x);
    SetPruned(g, x, g[x].(src := Some(e)));
  }

  lemma SetDstPruned<K>(h: Graph<K>, x: Addr, e: Addr)
    requires x in h
    ensures Prune(SetDst(h, x, e), {x}) == Prune(h, {x})
  {
    DropLinkPruned(h, h[x].dst, x);
    var f := DropLink(h, h[x].dst, x);
    AddLinkPruned(f, e, x);
    var g := AddLink(f, e, x);
    SetPruned(g, x, g[x].(dst := Some(e)));
  }

  lemma LinksStay<K>(h: Graph<K>, g: Graph<K>)
    requires LinksMatch(h) && g.Keys == h.Keys
    requires forall y :: y in h ==> g[y].links == h[y].links && g[y].src == h[y].src && g[y].dst == h[y].dst
    ensures LinksMatch(g)
  {
    forall e, l | e in g ensures Count(g[e].links, l) == Ends(g, l, e) {
      assert Count(h[e].links, l) == Ends(h, l, e);
    }
  }

  lemma MembersStay<K>(h: Graph<K>, g: Graph<K>)
    requires MembersMatch(h, {}) && g.Keys == h.Keys
    requires forall y :: y in h ==> g[y].members == h[y].members && g[y].parent == h[y].parent
    ensures MembersMatch(g, {})
  {
    forall p, x | p in g ensures Count(g[p].members, x) == One(IsMember(g, {}, x, p)) {
      assert Count(h[p].members, x) == One(IsMember(h, {}, x, p));
    }
  }

  lemma SetParentMembers<K>(h: Graph<K>, x: Addr, p: Option<Addr>)
    requires MembersMatch(h, {}) && x in h
    requires h[x].parent.Some? ==> h[x].parent.value in h
    requires p.Some? ==> p.value in h
    ensures MembersMatch(SetParent(h, x, p), {})
  {
    var g := SetParent(h, x, p);
    forall q, y | q in g ensures Count(g[q].members, y) == One(IsMember(g, {}, y, q)) {
      assert Count(h[q].members, y) == One(IsMember(h, {}, y, q));
      assert Count(h[q].members, x) == One(IsMember(h, {}, x, q));
      var m := if h[x].parent == Some(q) then RemoveFirst(h[q].members, x) else h[q].members;
      assert g[q].members == if p == Some(q) then m + [x] else m;
      CountRemoveFirst(h[q].members, x, y);
      CountAppend(m, [x], y);
    }
  }

  lemma SetSrcLinks<K>(h: Graph<K>, x: Addr, e: Addr)
    requires LinksMatch(h) && x in h && e in h
    ensures LinksMatch(SetSrc(h, x, e))
  {
    var g := SetSrc(h, x, e);
    forall f, l | f in g ensures Count(g[f].links, l) == Ends(g, l, f) {
      assert Count(h[f].links, x) == Ends(h, x, f);
      assert Count(h[f].links, l) == Ends(h, l, f);
      MovedLinkCount(h, x, h[x].src, e, f, l);
    }
  }

  lemma SetDstLinks<K>(h: Graph<K>, x: Addr, e: Addr)
    requires LinksMatch(h) && x in h && e in h
    ensures LinksMatch(SetDst(h, x, e))
  {
    var g := SetDst(h, x, e);
    forall f, l | f in g ensures Count(g[f].links, l) == Ends(g, l, f) {
      assert Count(h[f].links, x) == Ends(h, x, f);
      assert Count(h[f].links, l) == Ends(h, l, f);
      MovedLinkCount(h, x, h[x].dst, e, f, l);
    }
  }

  // Moving one end of x from o to e changes the count of x in the vectors of o and e only.
  lemma MovedLinkCount<K>(h: Graph<K>, x: Addr, o: Option<Addr>, e: Addr, f: Addr, l: Addr)
    requires f in h && e in h
    requires o == Some(f) ==> Count(h[f].links, x) > 0
    ensures Count(AddLink(DropLink(h, o, x), e, x)[f].links, l)
         == Count(h[f].links, l) - One(l == x && o == Some(f)) + One(l == x && f == e)
  {
    var m := if o == Some(f) then RemoveFirst(h[f].links, x) else h[f].links;
    CountRemoveFirst(h[f].links, x, l);
    CountAppend(m, [x], l);
  }

  // Two heaps with the same parent pointers have the same chains.
  lemma {:induction false} SameParentsSameDepth<K>(h: Graph<K>, g: Graph<K>, x: Addr, n: nat)
    requires DepthIs(h, x, n)
    requires h.Keys == g.Keys && forall y :: y in h ==> g[y].parent == h[y].parent
    ensures DepthIs(g, x, n)
    decreases n
  {
    if h[x].parent.Some? { SameParentsSameDepth(h, g, h[x].parent.value, n - 1); }
  }

  lemma SameParentsForest<K>(h: Graph<K>, g: Graph<K>)
    requires Forest(h) && h.Keys == g.Keys && forall y :: y in h ==> g[y].parent == h[y].parent
    ensures Forest(g)
  {
    forall x | x in g ensures Rooted(g, x) {
      var n: nat :| DepthIs(h, x, n);
      SameParentsSameDepth(h, g, x, n);
    }
  }

  // The chain of y does not change when x, which is not on it, gets a new parent.
  lemma {:induction false} ChainOffX<K>(h: Graph<K>, g: Graph<K>, x: Addr, y: Addr, n: nat)
    requires OnlyRefsOf(h, g, x) && DepthIs(h, y, n) && !Above(h, x, y)
    ensures DepthIs(g, y, n)
    decreases n
  {
    AboveUnfold(h, x, y);
    if h[y].parent.Some? { ChainOffX(h, g, x, h[y].parent.value, n - 1); }
  }

  lemma {:induction false} ChainThroughX<K>(h: Graph<K>, g: Graph<K>, x: Addr, y: Addr, n: nat)
    requires OnlyRefsOf(h, g, x) && DepthIs(h, y, n) && Rooted(g, x)
    ensures Rooted(g, y)
    decreases n
  {
    if y != x {
      if h[y].parent.None? {
        assert DepthIs(g, y, 0);
      } else {
        ChainThroughX(h, g, x, h[y].parent.value, n - 1);
        var m: nat :| DepthIs(g, h[y].parent.value, m);
        assert DepthIs(g, y, m + 1);
      }
    }
  }

  /** The loop check is exactly right: giving x the parent p keeps the forest if and only if
      x is not p and not above p. */
  lemma SetParentForest<K>(h: Graph<K>, x: Addr, p: Addr)
    requires Forest(h) && x in h && p in h
    ensures Forest(SetParent(h, x, Some(p))) <==> !Above(h, x, p)
  {
    var g := SetParent(h, x, Some(p));
    SetParentShape(h, x, Some(p));
    if !Above(h, x, p) {
      var n: nat :| DepthIs(h, p, n);
      ChainOffX(h, g, x, p, n);
      assert DepthIs(g, x, n + 1);
      forall y | y in g ensures Rooted(g, y) {
        var m: nat :| DepthIs(h, y, m);
        ChainThroughX(h, g, x, y, m);
      }
    } else if Forest(g) {
      var k: nat :| AboveIn(h, x, p, k);
      var n: nat :| DepthIs(g, p, n);
      var m := ChainDown(h, g, x, p, k, n);
      assert DepthIs(g, x, n + 1);
      DepthUnique(g, x, m, n + 1);
    }
  }

  // If x is above p then x is no deeper than p, also after x alone changed its parent.
  lemma {:induction false} ChainDown<K>(h: Graph<K>, g: Graph<K>, x: Addr, p: Addr, k: nat, n: nat) returns (m: nat)
    requires OnlyRefsOf(h, g, x) && AboveIn(h, x, p, k) && DepthIs(g, p, n)
    ensures DepthIs(g, x, m) && m <= n
    decreases k
  {
    if p == x {
      m := n;
    } else {
      m := ChainDown(h, g, x, h[p].parent.value, k - 1, n - 1);
    }
  }

  lemma ClearParentForest<K>(h: Graph<K>, x: Addr)
    requires Forest(h) && x in h
    ensures Forest(SetParent(h, x, None))
  {
    var g := SetParent(h, x, None);
    SetParentShape(h, x, None);
    assert DepthIs(g, x, 0);
    forall y | y in g ensures Rooted(g, y) {
      var m: nat :| DepthIs(h, y, m);
      ChainThroughX(h, g, x, y, m);
    }
  }

  lemma PruneKeepsMatch<K>(h: Graph<K>, det: set<Addr>, r: set<Addr>)
    requires MembersMatch(h, det) && LinksMatch(h)
    ensures MembersMatch(Prune(h, r), det) && LinksMatch(Prune(h, r))
  {
    var g := Prune(h, r);
    forall p, x | p in g ensures Count(g[p].members, x) == One(IsMember(g, det, x, p)) {
      CountWithout(h[p].members, r, x);
      assert Count(h[p].members, x) == One(IsMember(h, det, x, p));
    }
    forall e, l | e in g ensures Count(g[e].links, l) == Ends(g, l, e) {
      CountWithout(h[e].links, r, l);
      assert Count(h[e].links, l) == Ends(h, l, e);
    }
  }

  // The entries ms lose their parent.
  function Orphan<K>(h: Graph<K>, ms: seq<Addr>): Graph<K> {
    map y | y in h :: if y in ms then h[y].(parent := None) else h[y]
  }

  // ----- A new entry -----

  // No pointer leads out of the graph.
  ghost predicate RefsInside<K>(h: Graph<K>) {
    forall x :: x in h ==> Refs(h[x]) <= h.Keys
  }

  lemma FreshKeeps<K>(h: Graph<K>, n: Addr, kind: K)
    requires MembersMatch(h, {}) && LinksMatch(h) && Forest(h) && n !in h
    requires forall x :: x in h ==> h[x].parent != Some(n) && h[x].src != Some(n) && h[x].dst != Some(n)
    ensures var g := h[n := Fresh(kind)]; MembersMatch(g, {}) && LinksMatch(g) && Forest(g)
  {
    var g := h[n := Fresh(kind)];
    forall p, x | p in g ensures Count(g[p].members, x) == One(IsMember(g, {}, x, p)) {
      if p != n { assert Count(h[p].members, x) == One(IsMember(h, {}, x, p)); }
    }
    forall e, l | e in g ensures Count(g[e].links, l) == Ends(g, l, e) {
      if e != n { assert Count(h[e].links, l) == Ends(h, l, e); }
    }
    forall x | x in g ensures Rooted(g, x) {
      if x == n {
        assert DepthIs(g, n, 0);
      } else {
        var m: nat :| DepthIs(h, x, m);
        DepthInMore(h, g, x, m);
      }
    }
  }

  lemma {:induction false} DepthInMore<K>(h: Graph<K>, g: Graph<K>, x: Addr, m: nat)
    requires DepthIs(h, x, m) && forall y :: y in h ==> y in g && g[y].parent == h[y].parent
    ensures DepthIs(g, x, m)
    decreases m
  {
    if h[x].parent.Some? { DepthInMore(h, g, h[x].parent.value, m - 1); }
  }
}
