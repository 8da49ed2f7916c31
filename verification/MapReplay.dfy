/**
 Replaying a dump: which item a dumped name stands for, and when a replay makes a copy of the map.
 */
module MapReplay {
  import opened Vectors
  import opened Graphs
  import opened MapGraph
  import opened MapRuns
  import opened MapCreates
  import opened MapDump
  import opened MapNames
  import opened MapScripts

  // ----- What a replay does -----

  // The name of record o now belongs to p, one of the first i new items; without a record, p is none.
  predicate LooksUp(script: seq<Record>, gs: seq<Handle>, i: nat, o: Option<nat>, p: Option<Addr>) {
    if o.None? then p.None? else
    p.Some? && p.value < i <= |gs| && o.value < |script| && gs[p.value] == script[o.value].name
  }

  ghost predicate Found(script: seq<Record>, gs: seq<Handle>, i: nat, o: Option<nat>) {
    exists p :: LooksUp(script, gs, i, o, p)
  }

  // The new item i: its source is the right one, parent and destination are what their names stand for.
  predicate Remade(script: seq<Record>, gs: seq<Handle>, i: nat, y: Item)
    requires i < |script|
  {
    && y.kind == script[i].name.kind && y.src == script[i].src
    && LooksUp(script, gs, i, script[i].parent, y.parent) && LooksUp(script, gs, i, script[i].dst, y.dst)
  }

  ghost predicate CommandsUpTo(gs: seq<Handle>, i: nat, commands: map<Handle, Addr>)
    requires i <= |gs|
  {
    && (forall c :: c in commands ==> commands[c] < i && c == gs[commands[c]])
    && forall a :: 0 <= a < i ==> gs[a] in commands && commands[gs[a]] == a
  }

  ghost predicate VarsUpTo(script: seq<Record>, gs: seq<Handle>, i: nat, vars: map<Handle, Handle>)
    requires i <= |script| == |gs|
  {
    forall a :: 0 <= a < i ==> script[a].name in vars && vars[script[a].name] == gs[a]
  }

  ghost predicate HeapUpTo(script: seq<Record>, gs: seq<Handle>, i: nat, h: Heap)
    requires i <= |script|
  {
    (forall a: nat :: a in h <==> a < i) && forall a: nat :: a < i ==> Remade(script, gs, a, h[a])
  }

  ghost predicate ItemsUpTo(script: seq<Record>, gs: seq<Handle>, i: nat, m: MapState)
    requires i <= |script|
  {
    Inv(m) && |m.list| == i && HeapUpTo(script, gs, i, m.heap)
  }

  lemma ResolveName(script: seq<Record>, gs: seq<Handle>, i: nat, s: Shell, o: nat)
    requires i <= |gs| && CommandsUpTo(gs, i, s.commands) && o < |script|
    ensures var r := Resolve(s, Name(script[o].name));
            (r.Some? <==> Found(script, gs, i, Some(o))) && (r.Some? ==> LooksUp(script, gs, i, Some(o), r))
  {
    var r := Resolve(s, Name(script[o].name));
    if r.Some? { assert LooksUp(script, gs, i, Some(o), r); }
  }

  lemma ParentResolves(script: seq<Record>, gs: seq<Handle>, i: nat, s: Shell, o: Option<nat>) returns (p: Option<Addr>)
    requires i <= |gs| && CommandsUpTo(gs, i, s.commands) && (o.Some? ==> o.value < |script|)
    ensures var c := OptionOf(s, ParentSetting(script, o));
            && (c.Some? <==> Found(script, gs, i, o))
            && (c.Some? ==> LooksUp(script, gs, i, o, p) && c.value == ParentOpt(p))
  {
    if o.None? {
      p := None;
      assert LooksUp(script, gs, i, o, None);
    } else {
      p := Resolve(s, Name(script[o.value].name));
      ResolveName(script, gs, i, s, o.value);
    }
  }

  lemma OptionsAre(s: Shell, a: Setting, b: Setting, c: Setting)
    ensures OptionsOf(s, [a]).Some? <==> OptionOf(s, a).Some?
    ensures OptionOf(s, a).Some? ==> OptionsOf(s, [a]).value == [OptionOf(s, a).value]
    ensures OptionsOf(s, [a, b, c]).Some? <==> OptionOf(s, a).Some? && OptionOf(s, b).Some? && OptionOf(s, c).Some?
    ensures OptionOf(s, a).Some? && OptionOf(s, b).Some? && OptionOf(s, c).Some? ==>
              OptionsOf(s, [a, b, c]).value == [OptionOf(s, a).value, OptionOf(s, b).value, OptionOf(s, c).value]
  {
    assert [a][1..] == [] && [c][1..] == [] && OptionsOf(s, []) == Some([]);
    assert [a, b, c][1..] == [b, c] && [b, c][1..] == [c];
    assert OptionsOf(s, [c]).Some? ==> OptionsOf(s, [c]).value == [OptionOf(s, c).value];
    assert OptionsOf(s, [b, c]).Some? ==> OptionsOf(s, [b, c]).value == [OptionOf(s, b).value, OptionOf(s, c).value];
  }

  // The options of a new item with parent p, destination t and source f.
  function Options(kind: Kind, p: Option<Addr>, t: Option<Addr>, f: Option<Addr>): seq<ItemOption> {
    if kind.Link? && t.Some? && f.Some? then [DstOpt(t.value), ParentOpt(p), SrcOpt(f.value)] else [ParentOpt(p)]
  }

  // The settings of record i stand for options if and only if its names are found.
  lemma RecordOptions(script: seq<Record>, gs: seq<Handle>, i: nat, s: Shell)
    returns (p: Option<Addr>, t: Option<Addr>)
    requires i < |script| == |gs| && RecordAt(script, i)
    requires CommandsUpTo(gs, i, s.commands) && VarsUpTo(script, gs, i, s.vars)
    ensures var x := script[i];
            var opts := OptionsOf(s, Rewritten(Configured(script, i)));
            && (opts.Some? <==> Found(script, gs, i, x.parent) && Found(script, gs, i, x.dst))
            && (opts.Some? ==> LooksUp(script, gs, i, x.parent, p) && LooksUp(script, gs, i, x.dst, t)
                               && opts.value == Options(x.name.kind, p, t, x.src))
  {
    var x := script[i];
    var c := ParentSetting(script, x.parent);
    p := ParentResolves(script, gs, i, s, x.parent);
    t := None;
    if x.name.kind.Link? {
      var a, b := Name(script[x.dst.value].name), Name(script[x.src.value].name);
      t := Resolve(s, a);
      ResolveName(script, gs, i, s, x.dst.value);
      OnlySourceRewritten(a, c, b);
      OptionsAre(s, DstIs(a), c, SrcIs(Value(b.h)));
    } else {
      assert LooksUp(script, gs, i, x.dst, None);
      OnlySourceRewritten(Name(x.name), c, Name(x.name));
      OptionsAre(s, c, c, c);
    }
  }

  // The pointers an item of this type can be created with.
  predicate Pointable(h: Heap, kind: Kind, p: Option<Addr>, t: Option<Addr>, f: Option<Addr>) {
    && Fits(h, kind, ParentOpt(p))
    && if kind.Link? then t.Some? && f.Some? && Fits(h, kind, DstOpt(t.value)) && Fits(h, kind, SrcOpt(f.value))
       else t.None? && f.None?
  }

  lemma LastOne(c: ItemOption, v: Option<Addr>)
    ensures LastParent([c], v) == if c.ParentOpt? then c.p else v
    ensures LastSrc([c], v) == if c.SrcOpt? then Some(c.e) else v
    ensures LastDst([c], v) == if c.DstOpt? then Some(c.e) else v
  {
    assert [c][1..] == [];
  }

  lemma LinkOptions(p: Option<Addr>, t: Addr, f: Addr)
    ensures var o := [DstOpt(t), ParentOpt(p), SrcOpt(f)];
            LastParent(o, None) == p && LastSrc(o, None) == Some(f) && LastDst(o, None) == Some(t)
  {
    var rest := [ParentOpt(p)] + [SrcOpt(f)];
    assert [DstOpt(t), ParentOpt(p), SrcOpt(f)] == [DstOpt(t)] + rest;
    LastAfter(DstOpt(t), rest, None);
    LastOne(DstOpt(t), None);
    LastAfter(ParentOpt(p), [SrcOpt(f)], None);
    LastAfter(ParentOpt(p), [SrcOpt(f)], Some(t));
    LastOne(ParentOpt(p), None);
    LastOne(ParentOpt(p), Some(t));
    LastOne(SrcOpt(f), p);
    LastOne(SrcOpt(f), None);
    LastOne(SrcOpt(f), Some(t));
  }

  lemma OptionsTaken(h: Heap, kind: Kind, p: Option<Addr>, t: Option<Addr>, f: Option<Addr>)
    requires Pointable(h, kind, p, t, f)
    ensures var o := Options(kind, p, t, f);
            && Taken(h, kind, o) == o
            && LastParent(o, None) == p && LastSrc(o, None) == f && LastDst(o, None) == t
  {
    TakenAll(h, kind, Options(kind, p, t, f));
    if kind.Link? {
      LinkOptions(p, t.value, f.value);
    } else {
      LastOne(ParentOpt(p), None);
    }
  }

  // An item with such pointers is created, unless it is a port without a node.
  lemma PointedCreate(m: MapState, n: Addr, kind: Kind, p: Option<Addr>, t: Option<Addr>, f: Option<Addr>)
    requires Inv(m) && n !in m.heap && Pointable(m.heap, kind, p, t, f)
    ensures var o := Options(kind, p, t, f);
            var g := Partial(m.heap, m.list, n, kind, o).0;
            && (Creates(m.heap, m.list, n, kind, o) <==> (kind.Port? ==> p.Some?))
            && OnlyRefsOf(m.heap[n := Fresh(kind)], g, n)
            && g[n].parent == p && g[n].dst == t && g[n].src == f
            && (Creates(m.heap, m.list, n, kind, o) ==> Inv(MapState(g, [n] + m.list, m.num + 1)))
  {
    var o := Options(kind, p, t, f);
    OptionsTaken(m.heap, kind, p, t, f);
    TakesFitting(m, n, kind, o);
    if Creates(m.heap, m.list, n, kind, o) {
      var g := Partial(m.heap, m.list, n, kind, o).0;
      StepKeepsInv(m, DoCreate(n, kind, o), MapState(g, [n] + m.list, m.num + 1));
    }
  }

  lemma ItemAdded(script: seq<Record>, gs: seq<Handle>, i: nat, h: Heap, g: Heap, kind: Kind)
    requires i < |script| && HeapUpTo(script, gs, i, h)
    requires OnlyRefsOf(h[i := Fresh(kind)], g, i) && Remade(script, gs, i, g[i])
    ensures HeapUpTo(script, gs, i + 1, g)
  {
    forall a: nat | a < i + 1 ensures a in g && Remade(script, gs, a, g[a]) {
      if a < i { assert Remade(script, gs, a, h[a]); }
    }
  }

  ghost predicate CountersAt(script: seq<Record>, e: Place, i: nat, next: map<Kind, nat>)
    requires i <= |script|
  {
    forall k :: NextOf(next, k) == Counter(script, e, i, k)
  }

  ghost predicate ReplayedTo(script: seq<Record>, e: Place, i: nat, s: Shell)
    requires i <= |script|
  {
    var gs := AllGiven(script, e);
    && ItemsUpTo(script, gs, i, s.m) && CommandsUpTo(gs, i, s.commands) && VarsUpTo(script, gs, i, s.vars)
    && CountersAt(script, e, i, s.next)
  }

  /** Command i is accepted: the names of its parent and its destination belong to items created
      before, whichever these are, and a port has a node. */
  ghost predicate CanReplay(script: seq<Record>, gs: seq<Handle>, i: nat)
    requires i < |script|
  {
    var x := script[i];
    && (x.name.kind.Port? ==> x.parent.Some?)
    && Found(script, gs, i, x.parent) && Found(script, gs, i, x.dst)
  }

  // The items created so far do not get in the way of the next name.
  lemma NameIsGiven(script: seq<Record>, e: Place, i: nat, s: Shell)
    requires i < |script| && CommandsUpTo(AllGiven(script, e), i, s.commands)
    requires CountersAt(script, e, i, s.next)
    ensures NewName(s, e.other, script[i].name.kind) == Given(script, e, i)
  {
    var k := script[i].name.kind;
    var mine, other := NumbersOf(s.commands.Keys, k), NumbersOf(e.other, k);
    forall n | n in mine ensures n < Counter(script, e, i, k) {
      var c :| c in s.commands.Keys && c.kind == k && c.num == n;
      CounterPast(script, e, i, s.commands[c]);
    }
    FreeBelow(other, mine, Counter(script, e, i, k));
    assert NumbersOf(s.commands.Keys + e.other, k) == other + mine;
  }

  lemma CommandsAdded(gs: seq<Handle>, i: nat, commands: map<Handle, Addr>)
    requires i < |gs| && CommandsUpTo(gs, i, commands) && forall j :: 0 <= j < i ==> gs[j] != gs[i]
    ensures CommandsUpTo(gs, i + 1, commands[gs[i] := i])
  {
  }

  lemma VarsAdded(script: seq<Record>, gs: seq<Handle>, i: nat, vars: map<Handle, Handle>)
    requires i < |script| == |gs| && VarsUpTo(script, gs, i, vars)
    requires forall j :: 0 <= j < i ==> script[j].name != script[i].name
    ensures VarsUpTo(script, gs, i + 1, vars[script[i].name := gs[i]])
  {
  }

  lemma CounterAdded(script: seq<Record>, e: Place, i: nat, next: map<Kind, nat>)
    requires i < |script| && CountersAt(script, e, i, next)
    ensures CountersAt(script, e, i + 1, next[script[i].name.kind := Given(script, e, i).num + 1])
  {
    var k := script[i].name.kind;
    var more := next[k := Given(script, e, i).num + 1];
    forall j ensures NextOf(more, j) == Counter(script, e, i + 1, j) {
      assert NextOf(next, j) == Counter(script, e, i, j);
    }
  }

  lemma ItemCreated(script: seq<Record>, gs: seq<Handle>, i: nat, m: MapState, p: Option<Addr>, t: Option<Addr>)
    requires i < |script| == |gs| && RecordAt(script, i) && ItemsUpTo(script, gs, i, m)
    requires forall j :: 0 <= j < i ==> gs[j].kind == script[j].name.kind
    requires LooksUp(script, gs, i, script[i].parent, p) && LooksUp(script, gs, i, script[i].dst, t)
    ensures var k := script[i].name.kind;
            var o := Options(k, p, t, script[i].src);
            && (Creates(m.heap, m.list, i, k, o) <==> (k.Port? ==> script[i].parent.Some?))
            && (Creates(m.heap, m.list, i, k, o) ==> ItemsUpTo(script, gs, i + 1,
                  MapState(Partial(m.heap, m.list, i, k, o).0, [i] + m.list, m.num + 1)))
  {
    var k, f := script[i].name.kind, script[i].src;
    PointedCreate(m, i, k, p, t, f);
    var g := Partial(m.heap, m.list, i, k, Options(k, p, t, f)).0;
    ItemAdded(script, gs, i, m.heap, g, k);
  }

  // Command i finds its names and creates its item, for whatever names are given.
  lemma ItemMade(script: seq<Record>, gs: seq<Handle>, i: nat, s: Shell)
    requires i < |script| == |gs| && RecordAt(script, i)
    requires ItemsUpTo(script, gs, i, s.m) && CommandsUpTo(gs, i, s.commands) && VarsUpTo(script, gs, i, s.vars)
    requires forall j :: 0 <= j < i ==> gs[j].kind == script[j].name.kind
    ensures var k := script[i].name.kind;
            var opts := OptionsOf(s, Rewritten(Configured(script, i)));
            && (opts.Some? && Creates(s.m.heap, s.m.list, i, k, opts.value) <==> CanReplay(script, gs, i))
            && (CanReplay(script, gs, i) ==> ItemsUpTo(script, gs, i + 1,
                  MapState(Partial(s.m.heap, s.m.list, i, k, opts.value).0, [i] + s.m.list, s.m.num + 1)))
  {
    var p, t := RecordOptions(script, gs, i, s);
    if Found(script, gs, i, script[i].parent) && Found(script, gs, i, script[i].dst) {
      ItemCreated(script, gs, i, s.m, p, t);
    }
  }

  lemma EvalWith(script: seq<Record>, gs: seq<Handle>, i: nat, s: Shell, other: set<Handle>)
    requires i < |script| == |gs| && RecordAt(script, i) && NewName(s, other, script[i].name.kind) == gs[i]
    requires ItemsUpTo(script, gs, i, s.m) && CommandsUpTo(gs, i, s.commands) && VarsUpTo(script, gs, i, s.vars)
    requires forall j :: 0 <= j < i ==> gs[j].kind == script[j].name.kind
    ensures var k := script[i].name.kind;
            var r := Eval(s, other, script[i].name, Rewritten(Configured(script, i)));
            && (r.Some? <==> CanReplay(script, gs, i))
            && (r.Some? ==> && ItemsUpTo(script, gs, i + 1, r.value.m)
                            && r.value.commands == s.commands[gs[i] := i]
                            && r.value.vars == s.vars[script[i].name := gs[i]]
                            && r.value.next == s.next[k := gs[i].num + 1])
  {
    ItemMade(script, gs, i, s);
  }

  lemma EvalAt(script: seq<Record>, e: Place, i: nat, s: Shell)
    requires IsScript(script) && i < |script| && RecordAt(script, i) && ReplayedTo(script, e, i, s)
    ensures var r := Eval(s, e.other, script[i].name, Rewritten(Configured(script, i)));
            && (r.Some? <==> CanReplay(script, AllGiven(script, e), i))
            && (r.Some? ==> ReplayedTo(script, e, i + 1, r.value))
  {
    var gs := AllGiven(script, e);
    forall j | 0 <= j < i ensures gs[j] != gs[i] && gs[j].kind == script[j].name.kind {
      GivenTwice(script, e, i, j);
    }
    NameIsGiven(script, e, i, s);
    EvalWith(script, gs, i, s, e.other);
    CommandsAdded(gs, i, s.commands);
    VarsAdded(script, gs, i, s.vars);
    CounterAdded(script, e, i, s.next);
  }

  // The first k commands are evaluated if and only if each of them can be, and do what they should.
  ghost predicate ReplaysTo(script: seq<Record>, e: Place, k: nat)
    requires IsScript(script) && k <= |script|
  {
    var r := ReplayTo(script, e, k);
    && (r.Some? <==> forall i :: 0 <= i < k ==> CanReplay(script, AllGiven(script, e), i))
    && (r.Some? ==> ReplayedTo(script, e, k, r.value))
  }

  lemma ReplayNext(script: seq<Record>, e: Place, k: nat)
    requires IsScript(script) && 0 < k <= |script| && ReplaysTo(script, e, k - 1)
    ensures ReplaysTo(script, e, k)
  {
    assert RecordAt(script, k - 1);
    var s := ReplayTo(script, e, k - 1);
    if s.Some? { EvalAt(script, e, k - 1, s.value); }
  }

  lemma {:induction false} ReplayExact(script: seq<Record>, e: Place, k: nat)
    requires IsScript(script) && k <= |script|
    ensures ReplaysTo(script, e, k)
  {
    if k == 0 {
      ReplayStarts(script, e);
    } else {
      ReplayExact(script, e, k - 1);
      ReplayNext(script, e, k);
    }
  }

  lemma ReplayStarts(script: seq<Record>, e: Place)
    ensures ReplayedTo(script, e, 0, Shell(MapState(map[], [], 0), map[], map[], e.next))
  {
    EmptyInv();
  }

  // ----- When a replay restores the map -----

  // The new item i is what record i was written for.
  predicate RestoredAt(script: seq<Record>, i: nat, y: Item)
    requires i < |script|
  {
    var x := script[i];
    y.kind == x.name.kind && y.parent == x.parent && y.dst == x.dst && y.src == x.src
  }

  ghost predicate Restored(script: seq<Record>, h: Heap) {
    (forall a: nat :: a in h <==> a < |script|) && forall i: nat :: i < |script| ==> RestoredAt(script, i, h[i])
  }

  predicate KeepsName(script: seq<Record>, gs: seq<Handle>, r: Option<nat>) {
    r.Some? ==> r.value < |script| == |gs| && gs[r.value] == script[r.value].name
  }

  // Record i has the node it needs, and its parent and its destination get their old names again.
  predicate RestorableAt(script: seq<Record>, gs: seq<Handle>, i: nat)
    requires i < |script|
  {
    var x := script[i];
    (x.name.kind.Port? ==> x.parent.Some?) && KeepsName(script, gs, x.parent) && KeepsName(script, gs, x.dst)
  }

  // An item is found under its own name if and only if it has kept it.
  lemma OwnName(script: seq<Record>, e: Place, i: nat, r: Option<nat>, p: Option<Addr>)
    requires i <= |script| && (r.Some? ==> r.value < i) && LooksUp(script, AllGiven(script, e), i, r, p)
    ensures p == r <==> KeepsName(script, AllGiven(script, e), r)
  {
    if r.Some? && KeepsName(script, AllGiven(script, e), r) { GivenOnce(script, e, p.value, r.value); }
  }

  lemma RestoredExactly(script: seq<Record>, e: Place, i: nat, y: Item)
    requires i < |script| && RecordAt(script, i) && Remade(script, AllGiven(script, e), i, y)
    requires script[i].name.kind.Port? ==> script[i].parent.Some?
    ensures RestoredAt(script, i, y) <==> RestorableAt(script, AllGiven(script, e), i)
  {
    OwnName(script, e, i, script[i].parent, y.parent);
    OwnName(script, e, i, script[i].dst, y.dst);
  }

  lemma RestorableReplays(script: seq<Record>, gs: seq<Handle>, i: nat)
    requires i < |script| == |gs| && RecordAt(script, i) && RestorableAt(script, gs, i)
    ensures CanReplay(script, gs, i)
  {
    assert LooksUp(script, gs, i, script[i].parent, script[i].parent);
    assert LooksUp(script, gs, i, script[i].dst, script[i].dst);
  }

  /** A script is accepted if and only if each parent and each destination is named like some item
      created before, and it restores the map if and only if these are given their own names again;
      every port needs a node. Sources are not affected. */
  lemma ScriptReplays(script: seq<Record>, e: Place)
    requires IsScript(script)
    ensures var r := ReplayTo(script, e, |script|);
            var gs := AllGiven(script, e);
            && (r.Some? <==> forall i :: 0 <= i < |script| ==> CanReplay(script, gs, i))
            && (r.Some? && Restored(script, r.value.m.heap) <==>
                  forall i :: 0 <= i < |script| ==> RestorableAt(script, gs, i))
  {
    var gs := AllGiven(script, e);
    var r := ReplayTo(script, e, |script|);
    ReplayExact(script, e, |script|);
    if forall i :: 0 <= i < |script| ==> RestorableAt(script, gs, i) {
      forall i | 0 <= i < |script| ensures CanReplay(script, gs, i) { RestorableReplays(script, gs, i); }
    }
    if r.Some? {
      var h := r.value.m.heap;
      forall i: nat | i < |script| ensures RestoredAt(script, i, h[i]) <==> RestorableAt(script, gs, i) {
        assert CanReplay(script, gs, i) && RecordAt(script, i) && Remade(script, gs, i, h[i]);
        RestoredExactly(script, e, i, h[i]);
      }
    }
  }

  // ----- The script of a map -----

  function PlaceOf(order: seq<Addr>, a: Addr): (i: nat)
    requires a in order
    ensures i < |order| && order[i] == a
  {
    if order[0] == a then 0 else 1 + PlaceOf(order[1..], a)
  }

  function PlaceOfRef(order: seq<Addr>, r: Option<Addr>): Option<nat> {
    if r.Some? && r.value in order then Some(PlaceOf(order, r.value)) else None
  }

  function RecordOf(h: Heap, num: map<Addr, nat>, order: seq<Addr>, x: Addr): Record
    requires x in h && x in num
  {
    Record(HandleOf(h, num, x),
           PlaceOfRef(order, h[x].parent), PlaceOfRef(order, h[x].dst), PlaceOfRef(order, h[x].src))
  }

  function ScriptOf(h: Heap, num: map<Addr, nat>, order: seq<Addr>): (script: seq<Record>)
    requires forall a :: a in order ==> a in h && a in num
    ensures |script| == |order| && forall i :: 0 <= i < |order| ==> script[i] == RecordOf(h, num, order, order[i])
  {
    seq(|order|, i requires 0 <= i < |order| => RecordOf(h, num, order, order[i]))
  }

  // A dump of the whole map, as MapDumper.Dump makes it.
  ghost predicate IsDump(m: MapState, num: map<Addr, nat>, order: seq<Addr>) {
    && Inv(m) && Named(m.heap, num)
    && Replayable(m.heap, {}, order) && forall a :: a in order <==> a in m.heap
  }

  lemma LaterDiffers(h: Heap, order: seq<Addr>, i: nat, j: nat)
    requires Replayable(h, {}, order) && j < i < |order|
    ensures order[j] != order[i]
  {
    assert ReplayableAt(h, {}, order, i) && order[..i][j] == order[j];
  }

  lemma OnceInOrder(h: Heap, order: seq<Addr>, i: nat, j: nat)
    requires Replayable(h, {}, order) && i < |order| && j < |order|
    ensures order[i] == order[j] ==> i == j
  {
    if i < j { LaterDiffers(h, order, j, i); }
    if j < i { LaterDiffers(h, order, i, j); }
  }

  lemma RefPlace(h: Heap, order: seq<Addr>, i: nat, r: Addr)
    requires Replayable(h, {}, order) && i < |order| && order[i] in h && r in Refs(h[order[i]])
    ensures r in order && PlaceOf(order, r) < i
  {
    assert ReplayableAt(h, {}, order, i);
    var j :| 0 <= j < i && order[..i][j] == r;
    OnceInOrder(h, order, j, PlaceOf(order, r));
  }

  lemma RecordIsTyped(m: MapState, num: map<Addr, nat>, order: seq<Addr>, i: nat)
    requires IsDump(m, num, order) && i < |order|
    ensures RecordAt(ScriptOf(m.heap, num, order), i)
  {
    var x := m.heap[order[i]];
    assert TypedRefs(m.heap, order[i]);
    if x.parent.Some? { RefPlace(m.heap, order, i, x.parent.value); }
    if x.kind.Link? {
      RefPlace(m.heap, order, i, x.dst.value);
      RefPlace(m.heap, order, i, x.src.value);
    }
  }

  lemma DumpIsScript(m: MapState, num: map<Addr, nat>, order: seq<Addr>)
    requires IsDump(m, num, order)
    ensures IsScript(ScriptOf(m.heap, num, order))
  {
    var script := ScriptOf(m.heap, num, order);
    forall i | 0 <= i < |script| ensures RecordAt(script, i) { RecordIsTyped(m, num, order, i); }
    forall i, j | 0 <= i < |script| && 0 <= j < |script| && script[i].name == script[j].name ensures i == j {
      OnceInOrder(m.heap, order, i, j);
    }
  }

  // g is a copy of h: the item at i is the copy of order[i].
  ghost predicate IsCopy(h: Heap, order: seq<Addr>, g: Heap) {
    && (forall a: nat :: a in g <==> a < |order|)
    && forall i: nat :: i < |order| ==> CopiedAt(h, order, i, g[i])
  }

  ghost predicate CopiedAt(h: Heap, order: seq<Addr>, i: nat, y: Item)
    requires i < |order|
  {
    && order[i] in h && y.kind == h[order[i]].kind && PointsAlike(order, h[order[i]].parent, y.parent)
    && PointsAlike(order, h[order[i]].src, y.src) && PointsAlike(order, h[order[i]].dst, y.dst)
  }

  predicate PointsAlike(order: seq<Addr>, o: Option<Addr>, p: Option<Addr>) {
    if o.None? then p.None? else p.Some? && p.value < |order| && order[p.value] == o.value
  }

  lemma PlaceAlike(h: Heap, order: seq<Addr>, o: Option<Addr>, p: Option<Addr>)
    requires Replayable(h, {}, order) && (o.Some? ==> o.value in order)
    ensures PointsAlike(order, o, p) <==> p == PlaceOfRef(order, o)
  {
    if o.Some? && PointsAlike(order, o, p) { OnceInOrder(h, order, p.value, PlaceOf(order, o.value)); }
  }

  lemma CopiedIsRestored(m: MapState, num: map<Addr, nat>, order: seq<Addr>, i: nat, y: Item)
    requires IsDump(m, num, order) && i < |order|
    ensures CopiedAt(m.heap, order, i, y) <==> RestoredAt(ScriptOf(m.heap, num, order), i, y)
  {
    var x := m.heap[order[i]];
    assert TypedRefs(m.heap, order[i]);
    PlaceAlike(m.heap, order, x.parent, y.parent);
    PlaceAlike(m.heap, order, x.src, y.src);
    PlaceAlike(m.heap, order, x.dst, y.dst);
  }

  // The name the copy of y gets.
  ghost function NewNameOf(m: MapState, num: map<Addr, nat>, order: seq<Addr>, e: Place, y: Addr): Handle
    requires IsDump(m, num, order) && y in m.heap
  {
    Given(ScriptOf(m.heap, num, order), e, PlaceOf(order, y))
  }

  ghost predicate KeepsOld(m: MapState, num: map<Addr, nat>, order: seq<Addr>, e: Place, o: Option<Addr>)
    requires IsDump(m, num, order)
  {
    o.Some? ==> o.value in m.heap && NewNameOf(m, num, order, e, o.value) == HandleOf(m.heap, num, o.value)
  }

  // The parent and the destination of x get their old names again, and x has a node if it is a port.
  ghost predicate Restorable(m: MapState, num: map<Addr, nat>, order: seq<Addr>, e: Place, x: Addr)
    requires IsDump(m, num, order) && x in m.heap
  {
    && (m.heap[x].kind.Port? ==> m.heap[x].parent.Some?)
    && KeepsOld(m, num, order, e, m.heap[x].parent) && KeepsOld(m, num, order, e, m.heap[x].dst)
  }

  lemma KeepsSame(m: MapState, num: map<Addr, nat>, order: seq<Addr>, e: Place, r: Option<Addr>)
    requires IsDump(m, num, order) && (r.Some? ==> r.value in m.heap)
    ensures var script := ScriptOf(m.heap, num, order);
            KeepsOld(m, num, order, e, r) <==> KeepsName(script, AllGiven(script, e), PlaceOfRef(order, r))
  {
  }

  lemma RestorableSame(m: MapState, num: map<Addr, nat>, order: seq<Addr>, e: Place, i: nat)
    requires IsDump(m, num, order) && i < |order|
    ensures var script := ScriptOf(m.heap, num, order);
            Restorable(m, num, order, e, order[i]) <==> RestorableAt(script, AllGiven(script, e), i)
  {
    var x := order[i];
    assert TypedRefs(m.heap, x);
    KeepsSame(m, num, order, e, m.heap[x].parent);
    KeepsSame(m, num, order, e, m.heap[x].dst);
  }

  lemma EveryItem(m: MapState, num: map<Addr, nat>, order: seq<Addr>, e: Place)
    requires IsDump(m, num, order)
    ensures var script := ScriptOf(m.heap, num, order);
            (forall x :: x in m.heap ==> Restorable(m, num, order, e, x)) <==>
              forall i :: 0 <= i < |script| ==> RestorableAt(script, AllGiven(script, e), i)
  {
    var script := ScriptOf(m.heap, num, order);
    var gs := AllGiven(script, e);
    if forall x :: x in m.heap ==> Restorable(m, num, order, e, x) {
      forall i | 0 <= i < |script| ensures RestorableAt(script, gs, i) { RestorableSame(m, num, order, e, i); }
    }
    if forall i :: 0 <= i < |script| ==> RestorableAt(script, gs, i) {
      forall x | x in m.heap ensures Restorable(m, num, order, e, x) {
        RestorableSame(m, num, order, e, PlaceOf(order, x));
      }
    }
  }

  lemma CopyIsRestored(m: MapState, num: map<Addr, nat>, order: seq<Addr>, g: Heap)
    requires IsDump(m, num, order) && IsCopy(m.heap, order, g)
    ensures Restored(ScriptOf(m.heap, num, order), g)
  {
    var script := ScriptOf(m.heap, num, order);
    forall i: nat | i < |script| ensures RestoredAt(script, i, g[i]) { CopiedIsRestored(m, num, order, i, g[i]); }
  }

  lemma RestoredIsCopy(m: MapState, num: map<Addr, nat>, order: seq<Addr>, g: Heap)
    requires IsDump(m, num, order) && Restored(ScriptOf(m.heap, num, order), g)
    ensures IsCopy(m.heap, order, g)
  {
    forall i: nat | i < |order| ensures CopiedAt(m.heap, order, i, g[i]) { CopiedIsRestored(m, num, order, i, g[i]); }
  }

  /** Replaying the dump of a map copies it if and only if every item that is a parent or a destination
      is given its old name again, and every port has a node. */
  lemma DumpReplays(m: MapState, num: map<Addr, nat>, order: seq<Addr>, e: Place)
    requires IsDump(m, num, order)
    ensures IsScript(ScriptOf(m.heap, num, order))
    ensures var r := ReplayTo(ScriptOf(m.heap, num, order), e, |order|);
            r.Some? && IsCopy(m.heap, order, r.value.m.heap) <==>
              forall x :: x in m.heap ==> Restorable(m, num, order, e, x)
  {
    var script := ScriptOf(m.heap, num, order);
    DumpIsScript(m, num, order);
    ScriptReplays(script, e);
    var r := ReplayTo(script, e, |order|);
    if r.Some? && Restored(script, r.value.m.heap) { RestoredIsCopy(m, num, order, r.value.m.heap); }
    if r.Some? && IsCopy(m.heap, order, r.value.m.heap) { CopyIsRestored(m, num, order, r.value.m.heap); }
    EveryItem(m, num, order, e);
  }

  // An item that refers to no other.
  predicate Standalone(i: Item) {
    i.parent.None? && !i.kind.Port? && !i.kind.Link?
  }

  /** Where the items of the dumped map still exist, none of their names is free: a dump is accepted
      there if and only if no item has a parent and there are no ports and no links. */
  lemma ReplayBesideOriginal(m: MapState, num: map<Addr, nat>, order: seq<Addr>, e: Place)
    requires IsDump(m, num, order) && forall x :: x in m.heap ==> HandleOf(m.heap, num, x) in e.other
    ensures IsScript(ScriptOf(m.heap, num, order))
    ensures ReplayTo(ScriptOf(m.heap, num, order), e, |order|).Some? <==>
              forall x :: x in m.heap ==> Standalone(m.heap[x])
  {
    var script := ScriptOf(m.heap, num, order);
    DumpIsScript(m, num, order);
    ScriptReplays(script, e);
    forall i | 0 <= i < |script|
      ensures CanReplay(script, AllGiven(script, e), i) <==> Standalone(m.heap[order[i]])
    {
      BesideOriginal(m, num, order, e, i);
    }
  }

  // No name of the script belongs to a new item.
  lemma NothingFound(script: seq<Record>, e: Place, i: nat, o: Option<nat>)
    requires i <= |script| && (o.Some? ==> o.value < |script| && script[o.value].name in e.other)
    ensures Found(script, AllGiven(script, e), i, o) <==> o.None?
  {
    if o.None? {
      assert LooksUp(script, AllGiven(script, e), i, o, None);
    } else {
      forall p: Option<Addr> ensures !LooksUp(script, AllGiven(script, e), i, o, p) {
        if p.Some? && p.value < i { GivenIsNew(script, e, p.value); }
      }
    }
  }

  lemma BesideOriginal(m: MapState, num: map<Addr, nat>, order: seq<Addr>, e: Place, i: nat)
    requires IsDump(m, num, order) && i < |order| && forall x :: x in m.heap ==> HandleOf(m.heap, num, x) in e.other
    ensures var script := ScriptOf(m.heap, num, order);
            CanReplay(script, AllGiven(script, e), i) <==> Standalone(m.heap[order[i]])
  {
    var script := ScriptOf(m.heap, num, order);
    RecordIsTyped(m, num, order, i);
    assert TypedRefs(m.heap, order[i]);
    NothingFound(script, e, i, script[i].parent);
    NothingFound(script, e, i, script[i].dst);
  }
}
