/**
 The names of map items: the command names TnmGetHandle makes (tnmUtil.c) and their numbers over
 the runs of a map.
 */
module MapNames {
  import opened Graphs
  import opened MapGraph
  import opened MapRuns

  // The name of an item's command: its type and a number.
  datatype Handle = Handle(kind: Kind, num: nat)

  function NumbersOf(names: set<Handle>, k: Kind): set<nat> {
    set a | a in names && a.kind == k :: a.num
  }

  // The first number from n on that is not taken.
  function FirstFree(taken: set<nat>, n: nat): (r: nat)
    ensures n <= r && r !in taken && forall k :: n <= k < r ==> k in taken
    decreases taken
  {
    if n in taken then FirstFree(taken - {n}, n + 1) else n
  }

  // TnmGetHandle: numbers are tried from the type's counter on until the name is unused.
  method GetHandle(taken: set<nat>, id: nat) returns (num: nat, next: nat)
    ensures num == FirstFree(taken, id) && next == num + 1
  {
    num, next := id, id + 1;
    ghost var left := taken;
    while num in taken
      invariant next == num + 1 && FirstFree(left, num) == FirstFree(taken, id)
      invariant left <= taken && forall k :: k in taken && num <= k ==> k in left
      decreases left
    {
      left := left - {num};
      num, next := next, next + 1;
    }
  }

  function NextOf(next: map<Kind, nat>, k: Kind): nat {
    if k in next then next[k] else 0
  }

  // Every item has a number, and no two items of a type have the same.
  ghost predicate Named(h: Heap, num: map<Addr, nat>) {
    num.Keys == h.Keys && forall x :: x in h ==> NamedAlone(h, num, x)
  }

  ghost predicate NamedAlone(h: Heap, num: map<Addr, nat>, x: Addr)
    requires num.Keys == h.Keys && x in h
  {
    forall y :: y in h && h[y].kind == h[x].kind && num[y] == num[x] ==> y == x
  }

  function HandleOf(h: Heap, num: map<Addr, nat>, x: Addr): Handle
    requires x in h && x in num
  {
    Handle(h[x].kind, num[x])
  }

  // A map with the numbers of its items and the counters of the types.
  datatype Session = Session(m: MapState, num: map<Addr, nat>, next: map<Kind, nat>)

  function Numbers(h: Heap, num: map<Addr, nat>, k: Kind): set<nat> {
    set x | x in h && x in num && h[x].kind == k :: num[x]
  }

  // A step of the map, in an interpreter that has the commands other besides the items.
  ghost predicate SessionStep(s: Session, op: Op, other: set<Handle>, t: Session) {
    && Step(s.m, op, t.m)
    && match op
       case DoCreate(n, kind, _) =>
         var k := FirstFree(Numbers(s.m.heap, s.num, kind) + NumbersOf(other, kind), NextOf(s.next, kind));
         t.num == s.num[n := k] && t.next == s.next[kind := k + 1]
       case DoConfigure(_, _) => t.num == s.num && t.next == s.next
       case DoDestroy(_) =>
         t.num == (map x | x in t.m.heap && x in s.num :: s.num[x]) && t.next == s.next
  }

  lemma CreateShape(m: MapState, n: Addr, kind: Kind, opts: seq<ItemOption>)
    requires Inv(m) && n !in m.heap
    ensures OnlyRefsOf(m.heap[n := Fresh(kind)], Partial(m.heap, m.list, n, kind, opts).0, n)
  {
    FreshWf(m.heap, n, kind);
    ApplyAllKeeps(m.heap[n := Fresh(kind)], m.list, n, opts);
  }

  lemma CreateKeepsNamed(m: MapState, num: map<Addr, nat>, n: Addr, kind: Kind, opts: seq<ItemOption>, k: nat)
    requires Inv(m) && Named(m.heap, num) && n !in m.heap && k !in Numbers(m.heap, num, kind)
    ensures Named(Partial(m.heap, m.list, n, kind, opts).0, num[n := k])
  {
    CreateShape(m, n, kind, opts);
    CreateNames(m.heap, num, n, kind, Partial(m.heap, m.list, n, kind, opts).0, k);
  }

  lemma ConfigureKeepsNamed(h: Heap, list: seq<Addr>, x: Addr, opts: seq<ItemOption>, num: map<Addr, nat>)
    requires Wf(h, {}) && Forest(h) && x in h && Named(h, num)
    ensures Named(SetConfig(h, list, x, opts).0, num)
  {
    ApplyAllKeeps(h, list, x, opts);
  }

  lemma CreateNames(h: Heap, num: map<Addr, nat>, n: Addr, kind: Kind, g: Heap, k: nat)
    requires Named(h, num) && n !in h && g.Keys == h.Keys + {n} && k !in Numbers(h, num, kind)
    requires g[n].kind == kind && forall y :: y in h ==> g[y].kind == h[y].kind
    ensures Named(g, num[n := k])
  {
    forall x | x in h && h[x].kind == kind ensures num[x] != k { assert num[x] in Numbers(h, num, kind); }
  }

  lemma EmptyInv()
    ensures Inv(MapState(map[], [], 0))
  {
  }

  ghost predicate IsSession(ss: seq<Session>, ops: seq<Op>, others: seq<set<Handle>>) {
    && |ss| == |ops| + 1 == |others| + 1 && ss[0] == Session(MapState(map[], [], 0), map[], map[])
    && forall i :: 0 <= i < |ops| ==> SessionStep(ss[i], ops[i], others[i], ss[i + 1])
  }

  lemma {:induction false} SessionsKeepInv(ss: seq<Session>, ops: seq<Op>, others: seq<set<Handle>>, k: nat)
    requires IsSession(ss, ops, others) && k < |ss|
    ensures Inv(ss[k].m)
    decreases k
  {
    if k == 0 {
      EmptyInv();
    } else {
      SessionsKeepInv(ss, ops, others, k - 1);
      assert SessionStep(ss[k - 1], ops[k - 1], others[k - 1], ss[k]);
      StepKeepsInv(ss[k - 1].m, ops[k - 1], ss[k].m);
    }
  }

  // One step of a session at a time.
  lemma SessionCreates(ss: seq<Session>, ops: seq<Op>, others: seq<set<Handle>>, k: nat)
    requires IsSession(ss, ops, others) && k < |ops| && ops[k].DoCreate? && Named(ss[k].m.heap, ss[k].num)
    ensures Named(ss[k + 1].m.heap, ss[k + 1].num)
  {
    SessionsKeepInv(ss, ops, others, k);
    assert SessionStep(ss[k], ops[k], others[k], ss[k + 1]);
    CreateKeepsNamed(ss[k].m, ss[k].num, ops[k].n, ops[k].kind, ops[k].opts, ss[k + 1].num[ops[k].n]);
  }

  lemma SessionConfigures(ss: seq<Session>, ops: seq<Op>, others: seq<set<Handle>>, k: nat)
    requires IsSession(ss, ops, others) && k < |ops| && ops[k].DoConfigure? && Named(ss[k].m.heap, ss[k].num)
    ensures Named(ss[k + 1].m.heap, ss[k + 1].num)
  {
    SessionsKeepInv(ss, ops, others, k);
    assert SessionStep(ss[k], ops[k], others[k], ss[k + 1]);
    ConfigureKeepsNamed(ss[k].m.heap, ss[k].m.list, ops[k].x, ops[k].opts, ss[k].num);
  }

  lemma SessionDestroys(ss: seq<Session>, ops: seq<Op>, others: seq<set<Handle>>, k: nat)
    requires IsSession(ss, ops, others) && k < |ops| && ops[k].DoDestroy? && Named(ss[k].m.heap, ss[k].num)
    ensures Named(ss[k + 1].m.heap, ss[k + 1].num)
  {
    assert SessionStep(ss[k], ops[k], others[k], ss[k + 1]);
  }

  /** In every run, whatever other commands come and go, items of one type have different names. */
  lemma {:induction false} RunsKeepNames(ss: seq<Session>, ops: seq<Op>, others: seq<set<Handle>>, k: nat)
    requires IsSession(ss, ops, others) && k < |ss|
    ensures Named(ss[k].m.heap, ss[k].num)
    decreases k
  {
    if k > 0 {
      RunsKeepNames(ss, ops, others, k - 1);
      match ops[k - 1]
      case DoCreate(_, _, _) => SessionCreates(ss, ops, others, k - 1);
      case DoConfigure(_, _) => SessionConfigures(ss, ops, others, k - 1);
      case DoDestroy(_) => SessionDestroys(ss, ops, others, k - 1);
    }
  }
}
