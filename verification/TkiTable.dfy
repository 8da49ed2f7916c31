/**
 The editor's object table at work (tkiMethods.c): m_delete and its helpers, m_link_create,
 m_member and m_ungroup, and the runs of these operations.
 */
module TkiTables {
  import opened Vectors
  import opened Graphs
  import opened TkiGraph

  // ----- Operations as functions -----

  // Ends that are not in the table stay unset.
  function LinkCreated(h: Table, n: Addr, s: Addr, d: Addr): Table {
    var g := h[n := Fresh(Link)];
    var g' := if s in h then SetSrc(g, n, s) else g;
    if d in h && n in g' then SetDst(g', n, d) else g'
  }

  // All members leave the group.
  function Released(h: Table, g: Addr): Table
    requires g in h
  {
    var f := Orphan(h, h[g].members);
    f[g := f[g].(members := [])]
  }

  // An object that is in no group joins g.
  function Adopted(h: Table, g: Addr, c: Addr): Table {
    if c in h && h[c].parent.None? then SetParent(h, c, Some(g)) else h
  }

  function AdoptedAll(h: Table, g: Addr, cs: seq<Addr>): Table
    decreases |cs|
  {
    if cs == [] then h else AdoptedAll(Adopted(h, g, cs[0]), g, cs[1..])
  }

  function Regrouped(h: Table, g: Addr, cs: seq<Addr>): Table
    requires g in h
  {
    AdoptedAll(Released(h, g), g, cs)
  }

  // ----- Links -----

  /** Whatever its ends are, a new link is listed at those it found and nothing dangles. */
  lemma LinkCreateMatched(h: Table, n: Addr, s: Addr, d: Addr)
    requires Matched(h) && n !in h
    ensures var g := LinkCreated(h, n, s, d);
            && Matched(g) && OnlyRefsOf(h[n := Fresh(Link)], g, n) && g[n].parent.None?
            && g[n].src == (if s in h then Some(s) else None) && g[n].dst == (if d in h then Some(d) else None)
  {
    NewMatched(h, n, Link);
    var g := h[n := Fresh(Link)];
    var f := if s in h then SetSrc(g, n, s) else g;
    SrcFound(h, g, n, s);
    DstFound(h, f, n, d);
  }

  lemma SrcFound(h: Table, g: Table, n: Addr, s: Addr)
    requires Matched(g) && n in g && g[n].kind.Link? && (s in h ==> s in g)
    ensures var f := if s in h then SetSrc(g, n, s) else g;
            && Matched(f) && OnlyRefsOf(g, f, n) && f[n].parent == g[n].parent
            && f[n].src == (if s in h then Some(s) else g[n].src) && f[n].dst == g[n].dst
  {
    if s in h { SrcKeeps(g, n, s); }
  }

  lemma DstFound(h: Table, g: Table, n: Addr, d: Addr)
    requires Matched(g) && n in g && g[n].kind.Link? && (d in h ==> d in g)
    ensures var f := if d in h then SetDst(g, n, d) else g;
            && Matched(f) && OnlyRefsOf(g, f, n) && f[n].parent == g[n].parent
            && f[n].dst == (if d in h then Some(d) else g[n].dst) && f[n].src == g[n].src
  {
    if d in h { DstKeeps(g, n, d); }
  }

  lemma NewMatched(h: Table, n: Addr, kind: Kind)
    requires Matched(h) && n !in h
    ensures Matched(h[n := Fresh(kind)])
  {
    var g := h[n := Fresh(kind)];
    forall x | x in h ensures InGroup(g, x) && EndsOf(g[x]) <= g.Keys && n !in EndsOf(h[x]) && h[x].parent != Some(n) {
      assert InGroup(h, x) && EndsOf(h[x]) <= h.Keys;
    }
    FreshKeeps(h, n, kind);
  }

  lemma NewLinkSound(h: Table, n: Addr, s: Addr, d: Addr)
    requires Sound(h) && n !in h && (s in h ==> CanEnd(h, s)) && (d in h ==> CanEnd(h, d))
    ensures Sound(LinkCreated(h, n, s, d))
  {
    SoundMatched(h);
    LinkCreateMatched(h, n, s, d);
    var g := LinkCreated(h, n, s, d);
    forall y | y in g ensures Typed(g, y) { if y != n { assert Typed(h, y); } }
  }

  // Setting an end of a link keeps everything.
  lemma SrcKeeps(h: Table, n: Addr, e: Addr)
    requires Matched(h) && n in h && h[n].kind.Link? && e in h
    ensures var g := SetSrc(h, n, e);
            && Matched(g) && OnlyRefsOf(h, g, n)
            && g[n].parent == h[n].parent && g[n].src == Some(e) && g[n].dst == h[n].dst
  {
    SetSrcShape(h, n, e);
    EndSet(h, SetSrc(h, n, e), n);
    MembersStay(h, SetSrc(h, n, e));
    SetSrcLinks(h, n, e);
    SameParentsForest(h, SetSrc(h, n, e));
  }

  lemma DstKeeps(h: Table, n: Addr, e: Addr)
    requires Matched(h) && n in h && h[n].kind.Link? && e in h
    ensures var g := SetDst(h, n, e);
            && Matched(g) && OnlyRefsOf(h, g, n)
            && g[n].parent == h[n].parent && g[n].src == h[n].src && g[n].dst == Some(e)
  {
    SetDstShape(h, n, e);
    EndSet(h, SetDst(h, n, e), n);
    MembersStay(h, SetDst(h, n, e));
    SetDstLinks(h, n, e);
    SameParentsForest(h, SetDst(h, n, e));
  }

  lemma EndSet(h: Table, g: Table, n: Addr)
    requires Shaped(h) && EndsInside(h) && OnlyRefsOf(h, g, n) && n in h && h[n].kind.Link?
    requires g[n].parent == h[n].parent && EndsOf(g[n]) <= h.Keys
    ensures Shaped(g) && EndsInside(g)
  {
    forall y | y in g ensures InGroup(g, y) && EndsOf(g[y]) <= g.Keys {
      assert InGroup(h, y) && EndsOf(h[y]) <= h.Keys;
    }
  }

  // An object 1 and a link 2 from it to nothing.
  function LinkedFrom(kind: Kind): Table {
    LinkCreated(map[1 := Fresh(kind)], 2, 1, 4)
  }

  lemma LinkedFromMatched(kind: Kind)
    ensures var h := LinkedFrom(kind);
            && Matched(h) && h.Keys == {1, 2} && h[1].kind == kind && h[2].kind.Link?
            && EndsOf(h[1]) == {} && h[2].src == Some(1) && h[2].dst.None?
  {
    var h0: Table := map[1 := Fresh(kind)];
    assert DepthIs(h0, 1, 0);
    LinkCreateMatched(h0, 2, 1, 4);
  }

  /** When a text is deleted, a link from it outlives it and keeps pointing to it. */
  lemma TextWithLink()
    ensures var h := LinkedFrom(Other);
            var g := Prune(h, Dropped(h, 1));
            Matched(h) && g.Keys == {2} && g[2].src == Some(1) && !EndsInside(g)
  {
    var h := LinkedFrom(Other);
    LinkedFromMatched(Other);
    BelowLeaf(h, 1);
    assert EndsOf(Prune(h, {1})[2]) == {1};
  }

  // A node 1, a link 2 at it, and a link 3 that ends at link 2.
  lemma LinkedLinkMatched()
    ensures var h := LinkCreated(LinkedFrom(Node), 3, 2, 4);
            && Matched(h) && h.Keys == {1, 2, 3} && h[1].kind.Node? && EndsOf(h[1]) == {} && EndsOf(h[2]) == {1}
            && h[3].src == Some(2) && h[3].dst.None?
  {
    LinkedFromMatched(Node);
    LinkCreateMatched(LinkedFrom(Node), 3, 2, 4);
  }

  lemma TouchesEnds(i: Entry<Kind>, e: Addr)
    ensures Touches(i, {e}) <==> e in EndsOf(i)
  {
  }

  /** When node 1 is deleted, link 2 goes with it and link 3 keeps pointing to link 2. */
  lemma LinkOnLink()
    ensures var h := LinkCreated(LinkedFrom(Node), 3, 2, 4);
            var g := Prune(h, Dropped(h, 1));
            Matched(h) && g.Keys == {3} && g[3].src == Some(2) && !EndsInside(g)
  {
    var h := LinkCreated(LinkedFrom(Node), 3, 2, 4);
    LinkedLinkMatched();
    BelowLeaf(h, 1);
    forall l | l in h ensures l in LinksAt(h, 1) <==> l == 2 { TouchesEnds(h[l], 1); }
    assert Dropped(h, 1) == {1, 2};
    assert EndsOf(Prune(h, {1, 2})[3]) == {2};
  }

  // ----- Groups -----

  // g with its members released: only their parents and the vector of g have changed.
  ghost predicate IsReleased(h: Table, f: Table, g: Addr) {
    && f.Keys == h.Keys
    && forall y :: y in h ==>
         f[y] == h[y].(parent := if h[y].parent == Some(g) then None else h[y].parent,
                       members := if y == g then [] else h[y].members)
  }

  lemma ReleasedShape(h: Table, g: Addr)
    requires MembersMatch(h, {}) && g in h
    ensures IsReleased(h, Released(h, g), g)
  {
    forall y | y in h ensures y in h[g].members <==> h[y].parent == Some(g) {
      CountIn(h[g].members, y);
      assert Count(h[g].members, y) == One(IsMember(h, {}, y, g));
    }
  }

  lemma ReleasedSound(h: Table, f: Table, g: Addr)
    requires Sound(h) && g in h && IsReleased(h, f, g)
    ensures Sound(f)
  {
    SoundMatched(h);
    ReleasedTidy(h, f, g);
    forall y | y in f ensures Typed(f, y) { assert Typed(h, y); }
  }

  lemma ReleasedTidy(h: Table, f: Table, g: Addr)
    requires Tidy(h) && g in h && IsReleased(h, f, g)
    ensures Tidy(f)
  {
    forall y | y in f ensures InGroup(f, y) { assert InGroup(h, y); }
    forall p, y | p in f ensures Count(f[p].members, y) == One(IsMember(f, {}, y, p)) {
      assert Count(h[p].members, y) == One(IsMember(h, {}, y, p));
    }
    LinksStay(h, f);
    forall y | y in f ensures Rooted(f, y) {
      var n: nat :| DepthIs(h, y, n);
      ReleasedDepth(h, f, g, y, n);
    }
  }

  lemma {:induction false} ReleasedDepth(h: Table, f: Table, g: Addr, y: Addr, n: nat)
    requires IsReleased(h, f, g) && DepthIs(h, y, n)
    ensures Rooted(f, y)
    decreases n
  {
    if f[y].parent.None? {
      assert DepthIs(f, y, 0);
    } else {
      ReleasedDepth(h, f, g, h[y].parent.value, n - 1);
      var m: nat :| DepthIs(f, h[y].parent.value, m);
      assert DepthIs(f, y, m + 1);
    }
  }

  // m holds, once each and in the order of their first places in cs, the objects of cs that are free.
  ghost predicate FreeInOrder(free: set<Addr>, cs: seq<Addr>, m: seq<Addr>) {
    && (forall y :: Count(m, y) == One(y in free && y in cs))
    && (forall i, j, p :: 0 <= i < j < |m| && 0 <= p < |cs| && cs[p] == m[j] ==> m[i] in cs[..p])
  }

  // The objects that are in no group or in g.
  ghost function FreeFor(h: Table, g: Addr): set<Addr> {
    set y | y in h && (h[y].parent.None? || h[y].parent == Some(g))
  }

  /** f is h with the objects of cs that were free as the members of g. All other members have left g,
      and nothing else has changed. */
  ghost predicate Joined(h: Table, g: Addr, cs: seq<Addr>, f: Table) {
    && g in h && f.Keys == h.Keys && FreeInOrder(FreeFor(h, g), cs, f[g].members)
    && forall y :: y in h ==>
         f[y] == h[y].(parent := if y !in FreeFor(h, g) then h[y].parent else if y in cs then Some(g) else None,
                       members := if y == g then f[g].members else h[y].members)
  }

  lemma ReleasedJoined(h: Table, f: Table, g: Addr)
    requires g in h && IsReleased(h, f, g)
    ensures Joined(h, g, [], f)
  {
  }

  lemma OrderSnoc(free: set<Addr>, cs: seq<Addr>, m: seq<Addr>, c: Addr)
    requires FreeInOrder(free, cs, m)
    ensures FreeInOrder(free, cs + [c], if c in free && c !in cs then m + [c] else m)
  {
    var t := cs + [c];
    var n := if c in free && c !in cs then m + [c] else m;
    forall y ensures Count(n, y) == One(y in free && y in t) {
      assert Count(m, y) == One(y in free && y in cs);
      CountAppend(m, [c], y);
    }
    forall i, j, p | 0 <= i < j < |n| && 0 <= p < |t| && t[p] == n[j] ensures n[i] in t[..p] {
      CountIn(m, n[i]);
      assert Count(m, n[i]) == One(n[i] in free && n[i] in cs);
      if p < |cs| {
        assert t[..p] == cs[..p] && cs[p] in cs;
      } else {
        assert t[..p] == cs;
      }
    }
  }

  lemma AdoptedJoined(h: Table, g: Addr, cs: seq<Addr>, f: Table, c: Addr)
    requires Joined(h, g, cs, f)
    ensures Joined(h, g, cs + [c], Adopted(f, g, c))
  {
    OrderSnoc(FreeFor(h, g), cs, f[g].members, c);
    if c in f && f[c].parent.None? { SetParentShape(f, c, Some(g)); }
    assert forall y :: y in cs + [c] <==> y in cs || y == c;
  }

  lemma {:induction false} AdoptedAllJoined(h: Table, g: Addr, done: seq<Addr>, f: Table, cs: seq<Addr>, all: seq<Addr>)
    requires Joined(h, g, done, f) && all == done + cs
    ensures Joined(h, g, all, AdoptedAll(f, g, cs))
    decreases |cs|
  {
    if cs == [] {
      assert all == done;
    } else {
      assert all == done + [cs[0]] + cs[1..];
      AdoptedJoined(h, g, done, f, cs[0]);
      AdoptedAllJoined(h, g, done + [cs[0]], Adopted(f, g, cs[0]), cs[1..], all);
    }
  }

  /** The members of a group after they are set: exactly the listed objects that were in no group or in
      this one, once each, in the order of the list. They alone have it as their parent, those that
      left have none, and every other parent and list is as before. */
  lemma RegroupMembers(h: Table, g: Addr, cs: seq<Addr>)
    requires MembersMatch(h, {}) && g in h
    ensures Joined(h, g, cs, Regrouped(h, g, cs))
  {
    ReleasedShape(h, g);
    ReleasedJoined(h, Released(h, g), g);
    AdoptedAllJoined(h, g, [], Released(h, g), cs, cs);
  }

  lemma AdoptedKeeps(h: Table, g: Addr, c: Addr)
    requires Consistent(h) && g in h && h[g].kind.Group?
    ensures var f := Adopted(h, g, c);
            && Consistent(f) && f.Keys == h.Keys
            && (forall y :: y in h ==> f[y].kind == h[y].kind)
            && (forall y :: y in h && y != c ==> f[y].parent == h[y].parent)
            && (c in h ==> f[c].parent == if h[c].parent.None? then Some(g) else h[c].parent)
  {
    if c in h && h[c].parent.None? {
      var f := SetParent(h, c, Some(g));
      SetParentShape(h, c, Some(g));
      SetParentMembers(h, c, Some(g));
      LinksStay(h, f);
      forall y | y in f ensures Typed(f, y) { assert Typed(h, y); }
    }
  }

  // c is in no group, and is g or a group around g.
  ghost predicate RootAbove(h: Table, c: Addr, g: Addr) {
    c in h && h[c].parent.None? && Above(h, c, g)
  }

  // A chain that ends after a root was adopted ended before.
  lemma {:induction false} RootedBefore(h: Table, f: Table, y: Addr, n: nat)
    requires f.Keys == h.Keys && DepthIs(f, y, n)
    requires forall z :: z in h ==> f[z].parent == h[z].parent || h[z].parent.None?
    ensures Rooted(h, y)
    decreases n
  {
    if h[y].parent.None? {
      assert DepthIs(h, y, 0);
    } else {
      RootedBefore(h, f, h[y].parent.value, n - 1);
      var m: nat :| DepthIs(h, h[y].parent.value, m);
      assert DepthIs(h, y, m + 1);
    }
  }

  // The roots above g stay the same as long as they are not adopted themselves.
  lemma RootsStay(h: Table, g: Addr, c: Addr, d: Addr)
    requires Sound(h) && g in h && h[g].kind.Group? && !RootAbove(h, c, g)
    ensures RootAbove(Adopted(h, g, c), d, g) <==> RootAbove(h, d, g)
  {
    AdoptedKeeps(h, g, c);
    var f := Adopted(h, g, c);
    if c in h && h[c].parent.None? {
      forall n: nat ensures AboveIn(f, d, g, n) <==> AboveIn(h, d, g, n) { AboveStays(h, f, c, d, g, n); }
      if d == c {
        assert !Above(h, c, g);
      }
    }
  }

  lemma {:induction false} AboveStays(h: Table, f: Table, c: Addr, d: Addr, y: Addr, n: nat)
    requires f.Keys == h.Keys && y in h && !Above(h, c, y) && RefsInside(h)
    requires forall z :: z in h && z != c ==> f[z].parent == h[z].parent
    ensures AboveIn(f, d, y, n) <==> AboveIn(h, d, y, n)
    decreases n
  {
    AboveUnfold(h, c, y);
    if n > 0 && h[y].parent.Some? { AboveStays(h, f, c, d, h[y].parent.value, n - 1); }
  }

  lemma {:induction false} AdoptedAllForest(h: Table, g: Addr, cs: seq<Addr>)
    requires Sound(h) && g in h && h[g].kind.Group?
    ensures Consistent(AdoptedAll(h, g, cs)) && AdoptedAll(h, g, cs).Keys == h.Keys
    ensures Forest(AdoptedAll(h, g, cs)) <==> forall i :: 0 <= i < |cs| ==> !RootAbove(h, cs[i], g)
    decreases |cs|
  {
    if cs != [] {
      var c := cs[0];
      var f := Adopted(h, g, c);
      AdoptedKeeps(h, g, c);
      if RootAbove(h, c, g) {
        SetParentForest(h, c, g);
        LoopStays(f, g, cs[1..]);
      } else {
        if c in h && h[c].parent.None? { SetParentForest(h, c, g); }
        AdoptedAllForest(f, g, cs[1..]);
        forall d ensures RootAbove(f, d, g) <==> RootAbove(h, d, g) { RootsStay(h, g, c, d); }
        assert forall i :: 0 <= i < |cs[1..]| ==> cs[1..][i] == cs[i + 1];
        assert (forall i :: 0 <= i < |cs| ==> !RootAbove(h, cs[i], g))
               <==> forall i :: 0 <= i < |cs[1..]| ==> !RootAbove(f, cs[1..][i], g);
      }
    }
  }

  // A loop, once made, is never undone by further adoptions.
  lemma {:induction false} LoopStays(h: Table, g: Addr, cs: seq<Addr>)
    requires Consistent(h) && !Forest(h) && g in h && h[g].kind.Group?
    ensures Consistent(AdoptedAll(h, g, cs)) && !Forest(AdoptedAll(h, g, cs)) && AdoptedAll(h, g, cs).Keys == h.Keys
    decreases |cs|
  {
    if cs != [] {
      var f := Adopted(h, g, cs[0]);
      AdoptedKeeps(h, g, cs[0]);
      if Forest(f) {
        forall y | y in h ensures Rooted(h, y) {
          var n: nat :| DepthIs(f, y, n);
          RootedBefore(h, f, y, n);
        }
      }
      LoopStays(f, g, cs[1..]);
    }
  }

  /** Setting the members of a group keeps the table consistent, and keeps the groups a forest if and
      only if the outermost group around g (or g itself, if it is in none) is not among the new
      members: the code does not check for loops. */
  lemma RegroupForest(h: Table, g: Addr, cs: seq<Addr>)
    requires Sound(h) && g in h && h[g].kind.Group?
    ensures Consistent(Regrouped(h, g, cs))
    ensures Forest(Regrouped(h, g, cs)) <==> forall i :: 0 <= i < |cs| ==> !RootAbove(h, cs[i], g)
  {
    ReleasedShape(h, g);
    var f := Released(h, g);
    ReleasedSound(h, f, g);
    AdoptedAllForest(f, g, cs);
    forall d ensures RootAbove(f, d, g) <==> RootAbove(h, d, g) { ReleaseRoots(h, f, g, d); }
  }

  // A group made its own member is inside itself.
  lemma OwnMemberLoops(h: Table, g: Addr)
    requires Sound(h) && g in h && h[g].kind.Group? && h[g].parent.None?
    ensures !Forest(Regrouped(h, g, [g]))
  {
    RegroupForest(h, g, [g]);
    assert AboveIn(h, g, g, 0);
    assert RootAbove(h, [g][0], g);
  }

  lemma ReleaseRoots(h: Table, f: Table, g: Addr, d: Addr)
    requires Sound(h) && g in h && IsReleased(h, f, g)
    ensures RootAbove(f, d, g) <==> RootAbove(h, d, g)
  {
    assert RefsInside(h) by { assert forall x :: x in h ==> Typed(h, x); }
    var k: nat :| DepthIs(h, g, k);
    forall n: nat ensures AboveIn(f, d, g, n) <==> AboveIn(h, d, g, n) {
      AboveReleased(h, f, g, d, g, k, k, n);
    }
    if d in h && h[d].parent == Some(g) { InsideNotAround(h, g, d, k); }
  }

  lemma InsideNotAround(h: Table, g: Addr, d: Addr, k: nat)
    requires DepthIs(h, g, k) && d in h && h[d].parent == Some(g)
    ensures !Above(h, d, g)
  {
    var deeper := k + 1;
    assert DepthIs(h, d, deeper);
    forall n: nat ensures !AboveIn(h, d, g, n) {
      if AboveIn(h, d, g, n) {
        var m := DepthAbove(h, d, g, n, k);
        DepthUnique(h, d, m, deeper);
      }
    }
  }

  // The chain upwards from g has no member of g on it.
  lemma {:induction false} AboveReleased(h: Table, f: Table, g: Addr, d: Addr, y: Addr, j: nat, k: nat, n: nat)
    requires IsReleased(h, f, g) && RefsInside(h) && DepthIs(h, g, k) && DepthIs(h, y, j) && j <= k
    ensures AboveIn(f, d, y, n) <==> AboveIn(h, d, y, n)
    decreases n
  {
    if h[y].parent.Some? {
      if h[y].parent == Some(g) { DepthUnique(h, g, j - 1, k); }
      if n > 0 { AboveReleased(h, f, g, d, h[y].parent.value, j - 1, k, n - 1); }
    }
  }

  // ----- Runs -----

  datatype Op =
    | NewObject(n: Addr, kind: Kind)
    | NewLink(n: Addr, s: Addr, d: Addr)
    | Regroup(g: Addr, cs: seq<Addr>)
    | Ungroup(g: Addr)
    | Remove(x: Addr)

  /** The uses that stay within what the code checks or its callers respect: links connect nodes and
      networks, and no group is put inside itself. */
  ghost predicate Step(h: Table, op: Op, t: Table) {
    match op
    case NewObject(n, kind) => n !in h && !kind.Link? && t == h[n := Fresh(kind)]
    case NewLink(n, s, d) =>
      n !in h && (s in h ==> CanEnd(h, s)) && (d in h ==> CanEnd(h, d)) && t == LinkCreated(h, n, s, d)
    case Regroup(g, cs) =>
      && g in h && h[g].kind.Group? && (forall i :: 0 <= i < |cs| ==> !RootAbove(h, cs[i], g))
      && t == Regrouped(h, g, cs)
    case Ungroup(g) => g in h && h[g].kind.Group? && t == Prune(h, {g})
    case Remove(x) => x in h && t == Prune(h, Gone(h, x))
  }

  lemma NewKeepsSound(h: Table, n: Addr, kind: Kind)
    requires Sound(h) && n !in h
    ensures Sound(h[n := Fresh(kind)])
  {
    var g := h[n := Fresh(kind)];
    SoundMatched(h);
    NewMatched(h, n, kind);
    forall x | x in g ensures Typed(g, x) { if x != n { assert Typed(h, x); } }
  }

  lemma UngroupKeepsSound(h: Table, g: Addr)
    requires Sound(h) && g in h && h[g].kind.Group?
    ensures Sound(Prune(h, {g}))
  {
    assert forall x :: x in h ==> Typed(h, x);
    PruneKeepsSound(h, {g});
  }

  lemma StepKeepsSound(h: Table, op: Op, t: Table)
    requires Sound(h) && Step(h, op, t)
    ensures Sound(t)
  {
    match op
    case NewObject(n, kind) => NewKeepsSound(h, n, kind);
    case NewLink(n, s, d) => NewLinkSound(h, n, s, d);
    case Regroup(g, cs) => RegroupForest(h, g, cs);
    case Ungroup(g) => UngroupKeepsSound(h, g);
    case Remove(x) =>
      GoneClosed(h, x);
      PruneKeepsSound(h, Gone(h, x));
  }

  ghost predicate IsRun(hs: seq<Table>, ops: seq<Op>) {
    |hs| == |ops| + 1 && hs[0] == map[] && forall i :: 0 <= i < |ops| ==> Step(hs[i], ops[i], hs[i + 1])
  }

  lemma {:induction false} RunsKeepSound(hs: seq<Table>, ops: seq<Op>, k: nat)
    requires IsRun(hs, ops) && k < |hs|
    ensures Sound(hs[k])
    decreases k
  {
    if k > 0 {
      RunsKeepSound(hs, ops, k - 1);
      StepKeepsSound(hs[k - 1], ops[k - 1], hs[k]);
    }
  }

  // ----- The table -----

  class ObjectTable {
    var objects: Table

    // Whether the list of an object that was already freed has been edited.
    var stale: bool

    constructor ()
      ensures objects == map[] && !stale
    {
      objects, stale := map[], false;
    }

    /** Terminates, and removes exactly the object, its members recursively and the links at the nodes
        and networks among these; every other object keeps its own pointers. If the removed links are
        anchored, no freed object is looked at; in a sound table they are, and it stays sound. */
    method Delete(x: Addr)
      requires Tidy(objects) && x in objects
      modifies this
      ensures objects == Prune(old(objects), Dropped(old(objects), x)) && Tidy(objects)
      ensures Anchored(old(objects), x) ==> stale == old(stale)
      ensures Sound(old(objects)) ==> Step(old(objects), Remove(x), objects) && Sound(objects) && stale == old(stale)
      decreases Rank(objects[x].kind), Below(objects, x), 2
    {
      ghost var h := objects;
      FinishDelete(h, x);
      PruneKeepsTidy(h, Dropped(h, x));
      DeleteDependents(x);
      LastEnds(h, x);
      UnhookObject(x);
      objects := objects - {x};
      if Sound(h) { RemovedSound(h, x); }
    }

    // The part of m_delete that depends on the type.
    method DeleteDependents(x: Addr)
      requires Tidy(objects) && x in objects
      modifies this
      ensures objects == Prune(old(objects), Dropped(old(objects), x) - {x}) && x in objects
      ensures Anchored(old(objects), x) ==> stale == old(stale)
      decreases Rank(objects[x].kind), Below(objects, x), 1
    {
      LeafDropped(objects, x);
      PruneNothing(objects);
      match objects[x].kind {
        case Node => DeleteLinks(x);
        case Network => DeleteLinks(x);
        case Group => DeleteMembers(x);
        case Link =>
        case Other =>
      }
    }

    // m_linked_delete: goes through a copy of the list of links and skips what is already gone.
    method DeleteLinks(x: Addr)
      requires Tidy(objects) && x in objects && CanEnd(objects, x)
      modifies this
      ensures objects == Prune(old(objects), LinksAt(old(objects), x)) && x in objects
      ensures Anchored(old(objects), x) ==> stale == old(stale)
      decreases Rank(objects[x].kind), Below(objects, x), 0
    {
      ghost var h := objects;
      var links := objects[x].links;
      FirstLinks(h, x);
      for i := 0 to |links|
        invariant LinksAway(h, x, i, objects)
        invariant Anchored(h, x) ==> stale == old(stale)
      {
        DeleteLink(links[i], h, x, i);
      }
      LastLinks(h, x, objects);
    }

    // A link that connects x with itself is listed twice and found once.
    method DeleteLink(l: Addr, ghost h: Table, ghost x: Addr, ghost i: nat)
      requires Tidy(h) && CanEnd(h, x) && i < |h[x].links| && l == h[x].links[i] && LinksAway(h, x, i, objects)
      modifies this
      ensures LinksAway(h, x, i + 1, objects)
      ensures Anchored(h, x) ==> stale == old(stale)
      decreases 0, Below(objects, l), 3
    {
      NextLink(h, x, i);
      if l in objects { Delete(l); }
    }

    // m_group_delete: deletes the first member until there is none.
    method DeleteMembers(x: Addr)
      requires Tidy(objects) && x in objects && objects[x].kind.Group?
      modifies this
      ensures objects == Prune(old(objects), Dropped(old(objects), x) - {x}) && x in objects
      ensures Anchored(old(objects), x) ==> stale == old(stale)
      decreases Rank(objects[x].kind), Below(objects, x), 0
    {
      ghost var h := objects;
      ghost var done: set<Addr> := {};
      PruneNothing(h);
      while |objects[x].members| > 0
        invariant Partly(h, x, done) && objects == Prune(h, done) && x in objects && Tidy(objects)
        invariant Anchored(h, x) ==> stale == old(stale)
        decreases Dropped(h, x) - done
      {
        var y := objects[x].members[0];
        FirstMember(objects, x);
        ghost var r := Dropped(objects, y);
        MemberDropped(h, x, done, y);
        if Anchored(h, x) { AnchoredRest(h, x, done, y); }
        Delete(y);
        PruneTwice(h, done, r);
        done := done + r;
      }
      GroupEmptied(h, x, done);
    }

    method UnhookObject(x: Addr)
      requires x in objects && InGroup(objects, x)
      modifies this
      ensures objects == Unhook(old(objects), x)
      ensures !old(objects)[x].kind.Link? || EndsOf(old(objects)[x]) <= old(objects).Keys ==> stale == old(stale)
    {
      var o := objects[x];
      if o.kind.Link? {
        if o.src.Some? { CutEnd(o.src.value, x); }
        if o.dst.Some? { CutEnd(o.dst.value, x); }
      }
      if o.parent.Some? {
        var p := o.parent.value;
        objects := objects[p := objects[p].(members := Without(objects[p].members, {x}))];
      }
    }

    // The list of an end that was freed is beyond the model; editing it is recorded.
    method CutEnd(e: Addr, l: Addr)
      modifies this
      ensures objects == CutLink(old(objects), e, l)
      ensures stale == (old(stale) || e !in old(objects))
    {
      if e in objects {
        objects := objects[e := objects[e].(links := Without(objects[e].links, {l}))];
      } else {
        stale := true;
      }
    }

    method CreateLink(n: Addr, s: Addr, d: Addr)
      requires n !in objects
      modifies this
      ensures objects == LinkCreated(old(objects), n, s, d)
    {
      var hasSrc, hasDst := s in objects, d in objects;
      var link := Fresh(Link).(src := if hasSrc then Some(s) else None, dst := if hasDst then Some(d) else None);
      objects := objects[n := link];
      if hasSrc { objects := objects[s := objects[s].(links := objects[s].links + [n])]; }
      if hasDst { objects := objects[d := objects[d].(links := objects[d].links + [n])]; }
    }

    method SetMembers(g: Addr, cs: seq<Addr>)
      requires MembersMatch(objects, {}) && g in objects
      modifies this
      ensures objects == Regrouped(old(objects), g, cs) && Joined(old(objects), g, cs, objects)
      ensures stale == old(stale)
    {
      RegroupMembers(objects, g, cs);
      ReleaseMembers(g);
      ghost var h := objects;
      var i := 0;
      assert cs[0..] == cs;
      while i < |cs|
        invariant 0 <= i <= |cs| && g in objects && stale == old(stale)
        invariant AdoptedAll(h, g, cs) == AdoptedAll(objects, g, cs[i..])
      {
        assert cs[i..][0] == cs[i] && cs[i..][1..] == cs[i + 1..];
        var c := cs[i];
        if c in objects && objects[c].parent.None? {
          objects := objects[g := objects[g].(members := objects[g].members + [c])];
          objects := objects[c := objects[c].(parent := Some(g))];
        }
        i := i + 1;
      }
    }

    method ReleaseMembers(g: Addr)
      requires MembersMatch(objects, {}) && g in objects
      modifies this
      ensures objects == Released(old(objects), g) && stale == old(stale)
    {
      ghost var h := objects;
      var ms := objects[g].members;
      MembersExist(h, g);
      var i := 0;
      assert objects == Orphan(h, ms[..0]);
      while i < |ms|
        invariant 0 <= i <= |ms| && objects == Orphan(h, ms[..i]) && stale == old(stale)
      {
        assert ms[i] in ms;
        objects := objects[ms[i] := objects[ms[i]].(parent := None)];
        i := i + 1;
      }
      assert ms[..i] == ms;
      objects := objects[g := objects[g].(members := [])];
    }

    // The members leave the group before it is deleted, so nothing else goes with it.
    method UngroupObject(g: Addr)
      requires Tidy(objects) && g in objects && objects[g].kind.Group?
      modifies this
      ensures objects == Prune(old(objects), {g}) && Tidy(objects) && stale == old(stale)
      ensures Sound(old(objects)) ==> Step(old(objects), Ungroup(g), objects) && Sound(objects)
    {
      ghost var h := objects;
      ReleaseMembers(g);
      ReleasedShape(h, g);
      ReleasedTidy(h, objects, g);
      EmptyGroup(h, objects, g);
      Delete(g);
      if Sound(h) { UngroupKeepsSound(h, g); }
    }
  }

  lemma MembersExist(h: Table, g: Addr)
    requires MembersMatch(h, {}) && g in h
    ensures forall y :: y in h[g].members ==> y in h
  {
    forall y | y in h[g].members ensures y in h {
      CountIn(h[g].members, y);
      assert Count(h[g].members, y) == One(IsMember(h, {}, y, g));
    }
  }

  // A group without members goes alone.
  lemma EmptyGroup(h: Table, f: Table, g: Addr)
    requires Tidy(f) && g in h && h[g].kind.Group? && IsReleased(h, f, g)
    ensures Dropped(f, g) == {g} && Anchored(f, g) && Prune(f, {g}) == Prune(h, {g})
  {
    assert AboveIn(f, g, g, 0);
    forall y | y in Below(f, g) ensures y == g {
      var n: nat :| AboveIn(f, g, y, n);
      if y != g { BelowCovered(f, g, {}, y, n); }
    }
    assert f[g].src.None? && f[g].dst.None?;
  }

  lemma RemovedSound(h: Table, x: Addr)
    requires Sound(h) && x in h
    ensures Step(h, Remove(x), Prune(h, Dropped(h, x))) && Sound(Prune(h, Dropped(h, x))) && Anchored(h, x)
  {
    NothingForgotten(h, x);
    SoundAnchored(h, x);
    StepKeepsSound(h, Remove(x), Prune(h, Dropped(h, x)));
  }

  lemma LeafDropped(h: Table, x: Addr)
    requires Tidy(h) && x in h
    ensures CanEnd(h, x) ==> Dropped(h, x) - {x} == LinksAt(h, x)
    ensures h[x].kind.Link? || h[x].kind.Other? ==> Dropped(h, x) - {x} == {}
  {
    if !h[x].kind.Group? { BelowLeaf(h, x); }
  }

  // A link is still there with the table as it was when its own ends are looked up.
  lemma LastEnds(h: Table, x: Addr)
    requires Tidy(h) && x in h
    ensures var g := Prune(h, Dropped(h, x) - {x});
            && x in g && InGroup(g, x)
            && (Anchored(h, x) ==> !g[x].kind.Link? || EndsOf(g[x]) <= g.Keys)
  {
    PruneKeepsTidy(h, Dropped(h, x) - {x});
    if h[x].kind.Link? { BelowLeaf(h, x); }
  }

  // The first i links of x are gone.
  ghost predicate LinksAway(h: Table, x: Addr, i: nat, g: Table) {
    x in h && i <= |h[x].links| && g == Prune(h, Elements(h[x].links[..i])) && Tidy(g)
  }

  lemma FirstLinks(h: Table, x: Addr)
    requires Tidy(h) && x in h
    ensures LinksAway(h, x, 0, h)
  {
    PruneNothing(h);
    assert Elements(h[x].links[..0]) == {};
  }

  lemma LastLinks(h: Table, x: Addr, g: Table)
    requires Tidy(h) && CanEnd(h, x) && LinksAway(h, x, |h[x].links|, g)
    ensures g == Prune(h, LinksAt(h, x)) && x in g
  {
    var links := h[x].links;
    assert links[..|links|] == links;
    LinksListed(h, x);
    assert Elements(links) == LinksAt(h, x);
  }

  lemma NextLink(h: Table, x: Addr, i: nat)
    requires Tidy(h) && CanEnd(h, x) && i < |h[x].links| && LinksAway(h, x, i, Prune(h, Elements(h[x].links[..i])))
    ensures var g, l := Prune(h, Elements(h[x].links[..i])), h[x].links[i];
            && l in h && h[l].kind.Link?
            && (if l in g then Dropped(g, l) == {l} && LinksAway(h, x, i + 1, Prune(g, {l}))
                else LinksAway(h, x, i + 1, g))
            && (l in g && Anchored(h, x) ==> Anchored(g, l))
  {
    var links := h[x].links;
    var done, l := Elements(links[..i]), links[i];
    LinksListed(h, x);
    assert l in links && forall k :: k in links[..i] ==> k in links;
    ElementsSnoc(links, i);
    LinkStep(h, x, done, l);
    PruneKeepsTidy(h, done + {l});
  }

  lemma LinkStep(h: Table, x: Addr, done: set<Addr>, l: Addr)
    requires Tidy(h) && CanEnd(h, x) && l in LinksAt(h, x) && done <= LinksAt(h, x)
    ensures h[l].kind.Link? && Prune(Prune(h, done), {l}) == Prune(h, done + {l})
    ensures l in Prune(h, done) ==> Dropped(Prune(h, done), l) == {l}
    ensures l in Prune(h, done) && Anchored(h, x) ==> Anchored(Prune(h, done), l)
    ensures l !in Prune(h, done) ==> done + {l} == done
  {
    PruneTwice(h, done, {l});
    PruneKeepsTidy(h, done);
    BelowLeaf(h, x);
    if l in Prune(h, done) {
      BelowLeaf(Prune(h, done), l);
      assert Joints(h, done) == {};
      if Anchored(h, x) { AnchoredRest(h, x, done, l); }
    }
  }
}
