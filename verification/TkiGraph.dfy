/**
 The object table of the Tkined editor (tkiMethods.c): groups and their members, links and
 the nodes and networks they connect, and what deleting an object removes.
 */
module TkiGraph {
  import opened Vectors
  import opened Graphs

  // Other stands for the types that neither contain nor connect objects.
  datatype Kind = Node | Network | Group | Link | Other

  type Table = Graph<Kind>

  // ----- Consistency -----

  predicate CanEnd(h: Table, e: Addr) {
    e in h && (h[e].kind.Node? || h[e].kind.Network?)
  }

  predicate Typed(h: Table, x: Addr)
    requires x in h
  {
    && (h[x].parent.Some? ==> h[x].parent.value in h && h[h[x].parent.value].kind.Group?)
    && (h[x].src.Some? ==> h[x].kind.Link? && CanEnd(h, h[x].src.value))
    && (h[x].dst.Some? ==> h[x].kind.Link? && CanEnd(h, h[x].dst.value))
  }

  ghost predicate AllTyped(h: Table) {
    forall x :: x in h ==> Typed(h, x)
  }

  /** Group and member, link and end refer to each other exactly once, nothing dangles. */
  ghost predicate Consistent(h: Table) {
    AllTyped(h) && MembersMatch(h, {}) && LinksMatch(h)
  }

  predicate InGroup(h: Table, x: Addr)
    requires x in h
  {
    h[x].parent.Some? ==> h[x].parent.value in h && h[h[x].parent.value].kind.Group?
  }

  // Parents are groups, and only links have ends.
  ghost predicate Shaped(h: Table) {
    && (forall x :: x in h ==> InGroup(h, x))
    && (forall x :: x in h && !h[x].kind.Link? ==> h[x].src.None? && h[x].dst.None?)
  }

  /** What holds whatever links end at: groups are a forest, and members and links are listed exactly
      where they belong. An end may be an object that is no longer there. */
  ghost predicate Tidy(h: Table) {
    Shaped(h) && MembersMatch(h, {}) && LinksMatch(h) && Forest(h)
  }

  function EndsOf(i: Entry<Kind>): set<Addr> {
    (if i.src.Some? then {i.src.value} else {}) + (if i.dst.Some? then {i.dst.value} else {})
  }

  // No end dangles.
  ghost predicate EndsInside(h: Table) {
    forall l :: l in h ==> EndsOf(h[l]) <= h.Keys
  }

  ghost predicate Matched(h: Table) {
    Tidy(h) && EndsInside(h)
  }

  lemma SoundMatched(h: Table)
    requires Sound(h)
    ensures Matched(h)
  {
    assert forall x :: x in h ==> Typed(h, x);
  }

  ghost predicate Sound(h: Table) {
    Consistent(h) && Forest(h)
  }

  // ----- What goes with an object -----

  // x and everything inside it, at any depth.
  ghost function Below(h: Table, x: Addr): set<Addr> {
    set y | y in h && Above(h, x, y)
  }

  /** x, its members recursively, and all links with an end among these. */
  ghost function Gone(h: Table, x: Addr): set<Addr> {
    Below(h, x) + set l | l in h && Touches(h[l], Below(h, x))
  }

  // The objects of r whose links go with them.
  function Joints(h: Table, r: set<Addr>): set<Addr> {
    set e | e in r && CanEnd(h, e)
  }

  /** What m_delete removes: x, its members recursively, and the links at the nodes and networks among
      these. Links at other objects are not looked at. */
  ghost function Dropped(h: Table, x: Addr): set<Addr> {
    Below(h, x) + set l | l in h && Touches(h[l], Joints(h, Below(h, x)))
  }

  // With a group in r, its members are in r.
  ghost predicate DownClosed(h: Table, r: set<Addr>) {
    forall y :: y in h && h[y].parent.Some? && h[y].parent.value in r ==> y in r
  }

  // With a node or network in r, its links are in r.
  ghost predicate JointClosed(h: Table, r: set<Addr>) {
    forall l :: l in h && Touches(h[l], Joints(h, r)) ==> l in r
  }

  // How far a deletion can cascade by type.
  function Rank(k: Kind): nat {
    match k
    case Group => 2
    case Node => 1
    case Network => 1
    case Link => 0
    case Other => 0
  }

  lemma PruneKeepsTidy(h: Table, r: set<Addr>)
    requires Tidy(h)
    ensures Tidy(Prune(h, r))
  {
    PruneKeepsMatch(h, {}, r);
    PruneKeepsForest(h, r);
    var g := Prune(h, r);
    forall x | x in g ensures InGroup(g, x) { assert InGroup(h, x); }
  }

  lemma PruneKeepsSound(h: Table, r: set<Addr>)
    requires Sound(h) && Closed(h, r)
    ensures Sound(Prune(h, r))
  {
    PruneKeepsMatch(h, {}, r);
    PruneKeepsForest(h, r);
    var g := Prune(h, r);
    forall x | x in g ensures Typed(g, x) { assert Typed(h, x) && !Touches(h[x], r); }
  }

  // Nothing is below an object that is not a group.
  lemma {:induction false} AboveLeaf(h: Table, x: Addr, y: Addr, n: nat)
    requires Shaped(h) && x in h && !h[x].kind.Group? && y in h && AboveIn(h, x, y, n)
    ensures x == y
    decreases n
  {
    if x != y {
      assert InGroup(h, y);
      AboveLeaf(h, x, h[y].parent.value, n - 1);
    }
  }

  lemma BelowLeaf(h: Table, x: Addr)
    requires Shaped(h) && x in h && !h[x].kind.Group?
    ensures Below(h, x) == {x} && Dropped(h, x) == {x} + if CanEnd(h, x) then LinksAt(h, x) else {}
  {
    assert AboveIn(h, x, x, 0);
    forall y | y in Below(h, x) ensures y == x {
      var n: nat :| AboveIn(h, x, y, n);
      AboveLeaf(h, x, y, n);
    }
  }

  lemma GoneClosed(h: Table, x: Addr)
    requires AllTyped(h) && x in h
    ensures Closed(h, Gone(h, x)) && DownClosed(h, Gone(h, x)) && x in Gone(h, x)
  {
    assert AboveIn(h, x, x, 0);
    forall l | l in h && l !in Gone(h, x) ensures !Touches(h[l], Gone(h, x)) {
      assert Typed(h, l);
      assert forall e | e in Gone(h, x) - Below(h, x) :: Typed(h, e) && h[e].kind.Link?;
      assert !Touches(h[l], Below(h, x));
    }
    forall y | y in h && h[y].parent.Some? && h[y].parent.value in Gone(h, x) ensures y in Gone(h, x) {
      assert Typed(h, y);
      var p := h[y].parent.value;
      assert Typed(h, p);
      assert p in Below(h, x);
      AboveUnfold(h, x, y);
    }
  }

  /** Where links connect nodes and networks only, no link is forgotten. */
  lemma NothingForgotten(h: Table, x: Addr)
    requires AllTyped(h) && x in h
    ensures Dropped(h, x) == Gone(h, x)
  {
    forall l | l in h && Touches(h[l], Below(h, x)) ensures l in Dropped(h, x) { assert Typed(h, l); }
  }

  lemma DroppedClosed(h: Table, x: Addr)
    requires Shaped(h) && x in h
    ensures JointClosed(h, Dropped(h, x)) && DownClosed(h, Dropped(h, x)) && x in Dropped(h, x)
  {
    assert AboveIn(h, x, x, 0);
    assert forall e :: e in Dropped(h, x) && e !in Below(h, x) ==> h[e].kind.Link?;
    assert Joints(h, Dropped(h, x)) == Joints(h, Below(h, x));
    forall y | y in h && h[y].parent.Some? && h[y].parent.value in Dropped(h, x) ensures y in Dropped(h, x) {
      assert InGroup(h, y);
      AboveUnfold(h, x, y);
    }
  }

  // Removing a set that contains the members of its groups changes no other parent chain.
  lemma {:induction false} PruneAbove(h: Table, r: set<Addr>, a: Addr, y: Addr, n: nat)
    requires DownClosed(h, r) && y in h && y !in r
    ensures AboveIn(Prune(h, r), a, y, n) <==> AboveIn(h, a, y, n)
    decreases n
  {
    if n > 0 && h[y].parent.Some? && h[y].parent.value in h {
      PruneAbove(h, r, a, h[y].parent.value, n - 1);
    }
  }

  lemma BelowPruned(h: Table, r: set<Addr>, y: Addr)
    requires DownClosed(h, r) && y in h && y !in r
    ensures Below(Prune(h, r), y) == Below(h, y) - r
  {
    forall z | z in h && z !in r ensures z in Below(Prune(h, r), y) <==> z in Below(h, y) {
      forall n: nat ensures AboveIn(Prune(h, r), y, z, n) <==> AboveIn(h, y, z, n) { PruneAbove(h, r, y, z, n); }
    }
  }

  // The members of x come with everything below them.
  lemma BelowMember(h: Table, x: Addr, y: Addr)
    requires Forest(h) && x in h && y in h && h[y].parent == Some(x)
    ensures Below(h, y) < Below(h, x) && x !in Below(h, y)
  {
    assert AboveIn(h, x, x, 0);
    forall z | z in Below(h, y) ensures z in Below(h, x) && z != x {
      var n: nat :| AboveIn(h, y, z, n);
      AboveThrough(h, x, y, z, n);
      if z == x {
        var d: nat :| DepthIs(h, y, d);
        var m := DepthAbove(h, y, x, n, d - 1);
        DepthUnique(h, y, m, d);
      }
    }
    assert x in Below(h, x) && x !in Below(h, y);
  }

  lemma {:induction false} AboveThrough(h: Table, x: Addr, y: Addr, z: Addr, n: nat)
    requires y in h && h[y].parent == Some(x) && AboveIn(h, y, z, n)
    ensures AboveIn(h, x, z, n + 1)
    decreases n
  {
    if z != y { AboveThrough(h, x, y, h[z].parent.value, n - 1); }
  }

  lemma {:induction false} DepthAbove(h: Table, a: Addr, z: Addr, n: nat, d: nat) returns (m: nat)
    requires AboveIn(h, a, z, n) && DepthIs(h, z, d)
    ensures DepthIs(h, a, m) && m <= d
    decreases n
  {
    if z == a { m := d; } else { m := DepthAbove(h, a, h[z].parent.value, n - 1, d - 1); }
  }

  // ----- Steps of a group deletion -----

  // done is gone from x, with all members of its groups and all links at its nodes and networks.
  ghost predicate Partly(h: Table, x: Addr, done: set<Addr>) {
    x in h && done <= Dropped(h, x) - {x} && DownClosed(h, done) && JointClosed(h, done)
  }

  lemma ClosedTogether(h: Table, a: set<Addr>, b: set<Addr>)
    requires DownClosed(h, a) && JointClosed(h, a) && DownClosed(Prune(h, a), b) && JointClosed(Prune(h, a), b)
    ensures DownClosed(h, a + b) && JointClosed(h, a + b)
  {
    var g := Prune(h, a);
    forall y | y in h && h[y].parent.Some? && h[y].parent.value in a + b ensures y in a + b {
      if y !in a { assert g[y].parent == h[y].parent; }
    }
    forall l | l in h && Touches(h[l], Joints(h, a + b)) ensures l in a + b {
      if l !in a && !Touches(h[l], Joints(h, a)) { assert Touches(g[l], Joints(g, b)); }
    }
  }

  lemma MemberDropped(h: Table, x: Addr, done: set<Addr>, y: Addr)
    requires Tidy(h) && Partly(h, x, done) && h[x].kind.Group?
    requires y in h && y !in done && h[y].parent == Some(x)
    ensures var g := Prune(h, done);
            && Tidy(g) && Dropped(g, y) !! done && y in Dropped(g, y) && Below(g, y) < Below(h, x)
            && Partly(h, x, done + Dropped(g, y))
  {
    var g := Prune(h, done);
    PruneKeepsTidy(h, done);
    BelowPruned(h, done, y);
    BelowMember(h, x, y);
    DroppedClosed(g, y);
    ClosedTogether(h, done, Dropped(g, y));
    forall l | l in Dropped(g, y) ensures l in Dropped(h, x) - {x} && l !in done {
      if l !in Below(g, y) { assert Touches(h[l], Joints(h, Below(h, x))); }
    }
  }

  lemma {:induction false} BelowCovered(h: Table, x: Addr, done: set<Addr>, z: Addr, n: nat)
    requires Shaped(h) && DownClosed(h, done) && z in h && AboveIn(h, x, z, n) && z != x
    requires forall c :: c in h && h[c].parent == Some(x) ==> c in done
    ensures z in done
    decreases n
  {
    var p := h[z].parent.value;
    assert InGroup(h, z);
    if p != x { BelowCovered(h, x, done, p, n - 1); }
  }

  lemma GroupEmptied(h: Table, x: Addr, done: set<Addr>)
    requires Tidy(h) && Partly(h, x, done) && h[x].kind.Group? && Prune(h, done)[x].members == []
    ensures done == Dropped(h, x) - {x}
  {
    var g := Prune(h, done);
    PruneKeepsTidy(h, done);
    forall c | c in h && h[c].parent == Some(x) ensures c in done {
      assert Count(g[x].members, c) == One(IsMember(g, {}, c, x));
    }
    forall z | z in Below(h, x) - {x} ensures z in done {
      var n: nat :| AboveIn(h, x, z, n);
      BelowCovered(h, x, done, z, n);
    }
    assert forall e :: e in Joints(h, Below(h, x)) ==> e in Joints(h, done);
  }

  lemma FirstMember(h: Table, x: Addr)
    requires MembersMatch(h, {}) && x in h && h[x].members != []
    ensures var y := h[x].members[0]; y in h && h[y].parent == Some(x)
  {
    var y := h[x].members[0];
    assert Count(h[x].members, y) == One(IsMember(h, {}, y, x));
  }

  lemma LinksListed(h: Table, x: Addr)
    requires LinksMatch(h) && x in h
    ensures forall l :: l in h[x].links <==> l in LinksAt(h, x)
  {
    forall l ensures l in h[x].links <==> l in LinksAt(h, x) {
      CountIn(h[x].links, l);
      assert Count(h[x].links, l) == Ends(h, l, x);
    }
  }

  // ----- The last step of a deletion -----

  // Removes every mention of a link x from the vectors of its ends, and of x from that of its parent
  // (ldelete and RemoveObject).
  function Unhook(h: Table, x: Addr): Table
    requires x in h
  {
    var a := if h[x].kind.Link? && h[x].src.Some? then CutLink(h, h[x].src.value, x) else h;
    var b := if h[x].kind.Link? && h[x].dst.Some? then CutLink(a, h[x].dst.value, x) else a;
    if h[x].parent.Some? then CutMember(b, h[x].parent.value, x) else b
  }

  function CutLink(h: Table, e: Addr, l: Addr): Table {
    if e in h then h[e := h[e].(links := Without(h[e].links, {l}))] else h
  }

  function CutMember(h: Table, p: Addr, x: Addr): Table {
    if p in h then h[p := h[p].(members := Without(h[p].members, {x}))] else h
  }

  // Only the parent and the ends of x list it.
  lemma Unlisted(h: Table, x: Addr, y: Addr)
    requires MembersMatch(h, {}) && LinksMatch(h) && x in h && y in h
    ensures h[x].parent != Some(y) ==> Without(h[y].members, {x}) == h[y].members
    ensures h[x].src != Some(y) && h[x].dst != Some(y) ==> Without(h[y].links, {x}) == h[y].links
    ensures Without(Without(h[y].links, {x}), {x}) == Without(h[y].links, {x})
  {
    assert Count(h[y].members, x) == One(IsMember(h, {}, x, y));
    assert Count(h[y].links, x) == Ends(h, x, y);
    if Count(h[y].members, x) == 0 { WithoutAbsent(h[y].members, {x}); }
    if Count(h[y].links, x) == 0 { WithoutAbsent(h[y].links, {x}); }
    WithoutTwice(h[y].links, {x}, {x});
    assert {x} + {x} == {x};
  }

  lemma UnhookAt(h: Table, x: Addr, y: Addr)
    requires Tidy(h) && x in h && y in h
    ensures Unhook(h, x).Keys == h.Keys
    ensures Unhook(h, x)[y] == h[y].(members := Without(h[y].members, {x}), links := Without(h[y].links, {x}))
  {
    Unlisted(h, x, y);
    UnhookKeys(h, x);
    assert !h[x].kind.Link? ==> h[x].src.None? && h[x].dst.None?;
  }

  lemma UnhookKeys(h: Table, x: Addr)
    requires x in h
    ensures Unhook(h, x).Keys == h.Keys
  {
  }

  lemma FreeIsPrune(h: Table, x: Addr)
    requires Tidy(h) && x in h && forall y :: y in h ==> h[y].parent != Some(x)
    ensures Unhook(h, x) - {x} == Prune(h, {x})
  {
    UnhookAt(h, x, x);
    forall y | y in h && y != x ensures Unhook(h, x)[y] == Prune(h, {x})[y] { UnhookAt(h, x, y); }
  }

  /** Once everything that goes with x is gone, freeing x finishes the job. */
  lemma FinishDelete(h: Table, x: Addr)
    requires Tidy(h) && x in h
    ensures var g := Prune(h, Dropped(h, x) - {x});
            x in g && Tidy(g) && Unhook(g, x) - {x} == Prune(h, Dropped(h, x))
  {
    var done := Dropped(h, x) - {x};
    PruneKeepsTidy(h, done);
    NoChildLeft(h, x);
    FreeIsPrune(Prune(h, done), x);
    PruneTwice(h, done, {x});
    DroppedClosed(h, x);
    assert done + {x} == Dropped(h, x);
  }

  lemma NoChildLeft(h: Table, x: Addr)
    requires Forest(h) && x in h
    ensures var g := Prune(h, Dropped(h, x) - {x}); forall y :: y in g ==> g[y].parent != Some(x)
  {
    NotOwnParent(h, x);
    assert AboveIn(h, x, x, 0);
    forall y | y in h && h[y].parent == Some(x) ensures y in Dropped(h, x) { AboveUnfold(h, x, y); }
  }

  // ----- What a deletion leaves behind -----

  // The objects that go without their links.
  ghost function Loose(h: Table, x: Addr): set<Addr> {
    set e | e in Dropped(h, x) && !CanEnd(h, e)
  }

  /** After a deletion no end dangles if and only if every link that ends at one of the removed objects
      which are neither nodes nor networks is removed as well. */
  lemma DanglesExactly(h: Table, x: Addr)
    requires Matched(h) && x in h
    ensures EndsInside(Prune(h, Dropped(h, x))) <==>
              forall l :: l in h && Touches(h[l], Loose(h, x)) ==> l in Dropped(h, x)
  {
    var d := Dropped(h, x);
    var g := Prune(h, d);
    DroppedClosed(h, x);
    if EndsInside(g) {
      forall l | l in h && l !in d ensures !Touches(h[l], Loose(h, x)) { assert EndsOf(g[l]) <= g.Keys; }
    }
    if forall l :: l in h && Touches(h[l], Loose(h, x)) ==> l in d {
      forall l | l in g ensures EndsOf(g[l]) <= g.Keys {
        assert EndsOf(h[l]) <= h.Keys && !Touches(h[l], Joints(h, d)) && !Touches(h[l], Loose(h, x));
      }
    }
  }

  // The removed links end at live objects, and among the removed ones at nodes and networks only.
  ghost predicate Anchored(h: Table, x: Addr) {
    forall l :: l in Dropped(h, x) && l in h ==> EndsOf(h[l]) <= h.Keys && EndsOf(h[l]) !! Loose(h, x)
  }

  lemma SoundAnchored(h: Table, x: Addr)
    requires Sound(h)
    ensures Anchored(h, x)
  {
    assert forall l :: l in h ==> Typed(h, l);
  }

  // What is left to do is anchored as well.
  lemma AnchoredRest(h: Table, x: Addr, done: set<Addr>, y: Addr)
    requires Tidy(h) && Anchored(h, x) && done <= Dropped(h, x) && JointClosed(h, done)
    requires Dropped(Prune(h, done), y) <= Dropped(h, x)
    ensures Anchored(Prune(h, done), y)
  {
    var g := Prune(h, done);
    forall l | l in Dropped(g, y) && l in g ensures EndsOf(g[l]) <= g.Keys && EndsOf(g[l]) !! Loose(g, y) {
      assert !Touches(h[l], Joints(h, done)) && EndsOf(h[l]) !! Loose(h, x);
      assert forall e :: e in done ==> e in Joints(h, done) || e in Loose(h, x) || e !in h;
    }
  }
}
