/**
 The commands DumpMapProc writes (tnmMap.c, tnmMapUtil.c), their evaluation while an empty map is
 loaded, and the names the items get that they create.
 */
module MapScripts {
  import opened Vectors
  import opened Graphs
  import opened MapGraph
  import opened MapRuns
  import opened MapNames

  // ----- What is written -----

  // A dumped item: its name, and the places of its parent, destination and source in the dump.
  datatype Record = Record(name: Handle, parent: Option<nat>, dst: Option<nat>, src: Option<nat>)

  predicate EndAt(script: seq<Record>, i: nat, r: Option<nat>) {
    r.Some? && r.value < i < |script|
    && (script[r.value].name.kind.Network? || script[r.value].name.kind.Port?)
  }

  // References lead back to items of the right type.
  predicate RecordAt(script: seq<Record>, i: nat)
    requires i < |script|
  {
    var x := script[i];
    && (x.parent.Some? ==> x.parent.value < i && script[x.parent.value].name.kind == ParentKind(x.name.kind))
    && if x.name.kind.Link? then EndAt(script, i, x.dst) && EndAt(script, i, x.src) else x.dst.None? && x.src.None?
  }

  ghost predicate IsScript(script: seq<Record>) {
    && (forall i :: 0 <= i < |script| ==> RecordAt(script, i))
    && forall i, j :: 0 <= i < |script| && 0 <= j < |script| && script[i].name == script[j].name ==> i == j
  }

  // An item is written as its name, or as the value of the variable of that name.
  datatype Ref = Name(h: Handle) | Value(h: Handle)

  datatype Setting = ParentIs(p: Option<Ref>) | SrcIs(r: Ref) | DstIs(r: Ref)

  function ParentSetting(script: seq<Record>, r: Option<nat>): Setting
    requires r.Some? ==> r.value < |script|
  {
    ParentIs(if r.None? then None else Some(Name(script[r.value].name)))
  }

  // The settings in the order of the option tables, which list -dst, the parent and -src in this order.
  function Configured(script: seq<Record>, i: nat): seq<Setting>
    requires i < |script| && RecordAt(script, i)
  {
    var x := script[i];
    if x.name.kind.Link? then
      [DstIs(Name(script[x.dst.value].name)), ParentSetting(script, x.parent), SrcIs(Name(script[x.src.value].name))]
    else [ParentSetting(script, x.parent)]
  }

  function FirstSrc(cs: seq<Setting>): (i: nat)
    ensures i <= |cs| && (i < |cs| ==> cs[i].SrcIs?)
  {
    if cs == [] || cs[0].SrcIs? then 0 else 1 + FirstSrc(cs[1..])
  }

  function DstRewritten(cs: seq<Setting>): seq<Setting> {
    if cs == [] then []
    else if cs[0].DstIs? then [DstIs(Value(cs[0].r.h))] + cs[1..]
    else [cs[0]] + DstRewritten(cs[1..])
  }

  // The source is made a variable, and then the destination, if it comes behind the source.
  function Rewritten(cs: seq<Setting>): seq<Setting> {
    var i := FirstSrc(cs);
    if i < |cs| then cs[..i] + [SrcIs(Value(cs[i].r.h))] + DstRewritten(cs[i + 1..]) else DstRewritten(cs)
  }

  // The destination of a link is never behind its source, so only the source becomes a variable.
  lemma OnlySourceRewritten(a: Ref, p: Setting, b: Ref)
    requires p.ParentIs?
    ensures Rewritten([DstIs(a), p, SrcIs(b)]) == [DstIs(a), p, SrcIs(Value(b.h))]
    ensures Rewritten([p]) == [p]
  {
    var cs := [DstIs(a), p, SrcIs(b)];
    assert cs[1..] == [p, SrcIs(b)] && cs[1..][1..] == [SrcIs(b)];
    assert FirstSrc(cs[1..][1..]) == 0 && FirstSrc(cs[1..]) == 1;
    assert FirstSrc(cs) == 2 && cs[3..] == [];
    assert [p][1..] == [] && FirstSrc([p]) == 1;
  }

  // ----- Evaluation -----

  // The map being made, its item commands, the variables of the script, and the counters.
  datatype Shell = Shell(m: MapState, commands: map<Handle, Addr>, vars: map<Handle, Handle>, next: map<Kind, nat>)

  // Where a dump is replayed: the other commands there, and the counters at the start.
  datatype Place = Place(other: set<Handle>, next: map<Kind, nat>)

  function Resolve(s: Shell, r: Ref): Option<Addr> {
    match r
    case Name(a) => if a in s.commands then Some(s.commands[a]) else None
    case Value(a) => if a in s.vars && s.vars[a] in s.commands then Some(s.commands[s.vars[a]]) else None
  }

  function OptionOf(s: Shell, c: Setting): Option<ItemOption> {
    match c
    case ParentIs(None) => Some(ParentOpt(None))
    case ParentIs(Some(r)) => var a := Resolve(s, r); if a.None? then None else Some(ParentOpt(a))
    case SrcIs(r) => var a := Resolve(s, r); if a.None? then None else Some(SrcOpt(a.value))
    case DstIs(r) => var a := Resolve(s, r); if a.None? then None else Some(DstOpt(a.value))
  }

  // The options a list of settings stands for, if all its names are known.
  function OptionsOf(s: Shell, cs: seq<Setting>): Option<seq<ItemOption>> {
    if cs == [] then Some([]) else
    var o, os := OptionOf(s, cs[0]), OptionsOf(s, cs[1..]);
    if o.None? || os.None? then None else Some([o.value] + os.value)
  }

  // The name a new item of type k gets.
  function NewName(s: Shell, other: set<Handle>, k: Kind): Handle {
    Handle(k, FirstFree(NumbersOf(s.commands.Keys + other, k), NextOf(s.next, k)))
  }

  /** One create command: the item gets the next address and the next free name of its type, and the
      variable v keeps that name. */
  ghost function Eval(s: Shell, other: set<Handle>, v: Handle, cs: seq<Setting>): Option<Shell> {
    var n := |s.m.list|;
    var opts := OptionsOf(s, cs);
    if opts.None? || n in s.m.heap || !Creates(s.m.heap, s.m.list, n, v.kind, opts.value) then None else
    var name := NewName(s, other, v.kind);
    Some(Shell(
      MapState(Partial(s.m.heap, s.m.list, n, v.kind, opts.value).0, [n] + s.m.list, s.m.num + 1),
      s.commands[name := n], s.vars[v := name], s.next[v.kind := name.num + 1]))
  }

  // The first k commands of a dump, evaluated with an empty map until one is refused.
  ghost function ReplayTo(script: seq<Record>, e: Place, k: nat): Option<Shell>
    requires k <= |script| && forall i :: 0 <= i < |script| ==> RecordAt(script, i)
  {
    if k == 0 then Some(Shell(MapState(map[], [], 0), map[], map[], e.next)) else
    var s := ReplayTo(script, e, k - 1);
    if s.None? then None else
    Eval(s.value, e.other, script[k - 1].name, Rewritten(Configured(script, k - 1)))
  }

  // ----- The names items get -----

  // The counter of type k before the item i is created.
  function Counter(script: seq<Record>, e: Place, i: nat, k: Kind): nat
    requires i <= |script|
    decreases i, 0
  {
    if i == 0 then NextOf(e.next, k)
    else if script[i - 1].name.kind == k then Given(script, e, i - 1).num + 1
    else Counter(script, e, i - 1, k)
  }

  /** The name item i gets: the next number of its type that is not taken by another command. */
  function Given(script: seq<Record>, e: Place, i: nat): Handle
    requires i < |script|
    decreases i, 1
  {
    var k := script[i].name.kind;
    Handle(k, FirstFree(NumbersOf(e.other, k), Counter(script, e, i, k)))
  }

  function AllGiven(script: seq<Record>, e: Place): (gs: seq<Handle>)
    ensures |gs| == |script| && forall i :: 0 <= i < |gs| ==> gs[i] == Given(script, e, i)
  {
    seq(|script|, i requires 0 <= i < |script| => Given(script, e, i))
  }

  lemma {:induction false} CounterPast(script: seq<Record>, e: Place, i: nat, j: nat)
    requires j < i <= |script|
    ensures Given(script, e, j).num < Counter(script, e, i, script[j].name.kind)
    decreases i
  {
    if j < i - 1 { CounterPast(script, e, i - 1, j); }
  }

  lemma GivenTwice(script: seq<Record>, e: Place, i: nat, j: nat)
    requires j < i < |script|
    ensures Given(script, e, j) != Given(script, e, i)
  {
    CounterPast(script, e, i, j);
  }

  lemma GivenOnce(script: seq<Record>, e: Place, i: nat, j: nat)
    requires i < |script| && j < |script|
    ensures Given(script, e, i) == Given(script, e, j) ==> i == j
  {
    if j < i { GivenTwice(script, e, i, j); }
    if i < j { GivenTwice(script, e, j, i); }
  }

  lemma GivenIsNew(script: seq<Record>, e: Place, i: nat)
    requires i < |script|
    ensures Given(script, e, i) !in e.other
  {
  }

  lemma FreeBelow(taken: set<nat>, more: set<nat>, n: nat)
    requires forall k :: k in more && k >= n ==> k in taken
    ensures FirstFree(taken + more, n) == FirstFree(taken, n)
  {
    var a, b := FirstFree(taken + more, n), FirstFree(taken, n);
    assert a >= b ==> b !in taken + more;
  }

  // ----- A new process -----

  // How many of the first i records are of type k.
  function CountKind(script: seq<Record>, i: nat, k: Kind): nat
    requires i <= |script|
  {
    if i == 0 then 0 else One(script[i - 1].name.kind == k) + CountKind(script, i - 1, k)
  }

  /** In a new process the items of a type are numbered from 0 in the order of the dump. */
  lemma NewProcessNames(script: seq<Record>, i: nat)
    requires i < |script|
    ensures var k := script[i].name.kind; Given(script, Place({}, map[]), i) == Handle(k, CountKind(script, i, k))
  {
    NewProcessCounter(script, i, script[i].name.kind);
    assert NumbersOf({}, script[i].name.kind) == {};
  }

  lemma {:induction false} NewProcessCounter(script: seq<Record>, i: nat, k: Kind)
    requires i <= |script|
    ensures Counter(script, Place({}, map[]), i, k) == CountKind(script, i, k)
    decreases i
  {
    if i > 0 {
      NewProcessCounter(script, i - 1, k);
      assert NumbersOf({}, k) == {};
    }
  }
}
