/**
 The ined protocol between a tool (tnmIned.c) and the editor (receive in tkiObjects.c,
 m_send in tkiMethods.c) as a transition system over every interleaving of tool calls, editor
 replies, editor pushes, reads and queue flushes.
 */
module InedProtocol {
  import opened Vectors
  import opened InedLines

  datatype Reply = Reply(ok: bool, text: string)

  // What the editor writes for a reply.
  function Text(r: Reply): string {
    (if r.ok then "ined ok " else "ined error ") + r.text
  }

  // White space as isspace knows it.
  predicate IsSpace(c: char) {
    c == ' ' || '\t' <= c <= '\r'
  }

  /** t is s from its first character on that is not white space: what comes before it is all white
      space, and nothing else is lost. */
  ghost predicate Trimmed(s: string, t: string) {
    && |t| <= |s| && t == s[|s| - |t|..]
    && (forall i :: 0 <= i < |s| - |t| ==> s[i] == ' ' || '\t' <= s[i] <= '\r')
    && (t != [] ==> t[0] != ' ' && !('\t' <= t[0] <= '\r'))
  }

  function TrimLeft(s: string): string {
    if s != [] && IsSpace(s[0]) then TrimLeft(s[1..]) else s
  }

  lemma TrimmedCons(s: string, t: string)
    requires s != [] && IsSpace(s[0]) && Trimmed(s[1..], t)
    ensures Trimmed(s, t)
  {
    assert forall i :: 0 < i < |s| ==> s[i] == s[1..][i - 1];
  }

  lemma {:induction false} TrimLeftTrims(s: string)
    ensures Trimmed(s, TrimLeft(s))
  {
    if s != [] && IsSpace(s[0]) {
      TrimLeftTrims(s[1..]);
      TrimmedCons(s, TrimLeft(s[1..]));
    } else {
      assert s[0..] == s;
    }
  }

  // How the tool reads a line while it waits.
  function Parse(line: string): Option<Reply> {
    if "ined ok" <= line then Some(Reply(true, TrimLeft(line[7..])))
    else if "ined error" <= line then Some(Reply(false, TrimLeft(line[10..])))
    else None
  }

  // The result a call returns for a reply: leading white space is lost.
  function Result(r: Reply): Reply {
    r.(text := TrimLeft(r.text))
  }

  // A line that starts like a reply, and what it says; the error prefix counts only without the other.
  ghost predicate Says(line: string, r: Reply) {
    if "ined ok" <= line then r.ok && Trimmed(line[7..], r.text)
    else "ined error" <= line && !r.ok && Trimmed(line[10..], r.text)
  }

  ghost predicate NoReply(line: string) {
    !("ined ok" <= line) && !("ined error" <= line)
  }

  // One more reply has been returned, and it is what the line says.
  ghost predicate Returns(line: string, before: seq<Reply>, after: seq<Reply>) {
    |after| == |before| + 1 && after[..|before|] == before && Says(line, after[|before|])
  }

  lemma ParseSays(line: string)
    ensures match Parse(line) case None => NoReply(line) case Some(r) => Says(line, r)
  {
    if "ined ok" <= line {
      TrimLeftTrims(line[7..]);
    } else if "ined error" <= line {
      TrimLeftTrims(line[10..]);
    }
  }

  /** What is read back of a reply: its code, and its text from the first character on that is not white
      space; a text that does not start with white space is read back unchanged. */
  ghost predicate ReadsBack(r: Reply, back: Reply) {
    && back.ok == r.ok && Trimmed(r.text, back.text)
    && (r.text == [] || (r.text[0] != ' ' && !('\t' <= r.text[0] <= '\r')) ==> back == r)
  }

  lemma ResultReadsBack(r: Reply)
    ensures ReadsBack(r, Result(r))
  {
    TrimLeftTrims(r.text);
  }

  lemma ParseText(r: Reply)
    ensures Parse(Text(r)) == Some(Result(r)) && Text(r) != []
  {
    var t := Text(r);
    if r.ok {
      assert "ined ok " == "ined ok" + " ";
      assert t[..7] == "ined ok" && t[7..] == " " + r.text;
    } else {
      assert "ined error " == "ined error" + " ";
      assert t[4] == ' ' && t[5] == 'e' && "ined ok"[5] == 'o';
      assert t[..10] == "ined error" && t[10..] == " " + r.text;
    }
    assert (" " + r.text)[1..] == r.text;
  }

  // ----- The tool -----

  // pos is the place of a running flush in the queue.
  datatype Tool = Tool(
    waiting: bool,
    queue: seq<string>,
    pos: Option<nat>,
    evaluated: seq<string>,
    returned: seq<Reply>)

  // Call and queue-length messages to the editor; only calls are answered.
  datatype Up = Call(id: nat) | QueueLength(len: nat)

  // InedAppendQueue: the editor is told unless the queue was empty.
  function Append(t: Tool, line: string): Tool {
    t.(queue := t.queue + [line])
  }

  function AppendNotes(t: Tool): seq<Up> {
    if t.queue == [] then [] else [QueueLength(|t.queue| + 1)]
  }

  // One turn of the reply loop of Tnm_InedObjCmd.
  function ReadWaiting(t: Tool, line: string): Tool {
    if line == [] then t
    else match Parse(line)
         case Some(r) => t.(waiting := false, returned := t.returned + [r])
         case None => Append(t, line)
  }

  lemma TurnSays(t: Tool, line: string)
    requires t.waiting
    ensures var u := ReadWaiting(t, line);
            if u.waiting then NoReply(line) && u.returned == t.returned else Returns(line, t.returned, u.returned)
  {
    ParseSays(line);
  }

  class InedTool {
    var waiting: bool
    var queue: seq<string>
    var evaluated: seq<string>
    var returned: seq<Reply>

    constructor ()
      ensures State() == Tool(false, [], None, [], [])
    {
      waiting, queue, evaluated, returned := false, [], [], [];
    }

    ghost function State(): Tool
      reads this
    {
      Tool(waiting, queue, None, evaluated, returned)
    }

    // One turn of the reply loop.
    method TakeLine(line: string)
      requires waiting
      modifies this
      ensures State() == ReadWaiting(old(State()), line)
      ensures if waiting then NoReply(line) && returned == old(returned) else Returns(line, old(returned), returned)
    {
      TurnSays(State(), line);
      if line == [] { return; }
      if "ined ok" <= line {
        returned := returned + [Reply(true, TrimLeft(line[7..]))];
        waiting := false;
      } else if "ined error" <= line {
        returned := returned + [Reply(false, TrimLeft(line[10..]))];
        waiting := false;
      } else {
        queue := queue + [line];
      }
    }

    /** The reply loop of a call: reads lines up to the first reply and queues the pushes before it.
        used counts the lines taken; without a reply the loop would read on. */
    method AwaitReply(lines: seq<string>) returns (used: nat)
      requires waiting
      modifies this
      ensures used <= |lines| && State() == ReadAll(old(State()), lines[..used])
      ensures waiting ==> used == |lines|
      ensures !waiting ==> used > 0 && Returns(lines[used - 1], old(returned), returned)
      ensures forall i :: 0 <= i < used && (waiting || i < used - 1) ==> NoReply(lines[i])
    {
      used := 0;
      while used < |lines| && waiting
        invariant 0 <= used <= |lines| && State() == ReadAll(old(State()), lines[..used])
        invariant waiting ==> returned == old(returned)
        invariant !waiting ==> used > 0 && Returns(lines[used - 1], old(returned), returned)
        invariant forall i :: 0 <= i < used && (waiting || i < used - 1) ==> NoReply(lines[i])
      {
        var line := lines[used];
        assert lines[..used + 1] == lines[..used] + [line];
        ReadAllSnoc(old(State()), lines[..used], line);
        TakeLine(line);
        used := used + 1;
      }
    }

    // InedFlushQueue with nothing queued meanwhile.
    method Flush()
      modifies this
      ensures queue == [] && evaluated == old(evaluated) + old(queue)
      ensures waiting == old(waiting) && returned == old(returned)
    {
      var p := 0;
      while p < |queue|
        invariant 0 <= p <= |queue| && queue == old(queue) && evaluated == old(evaluated) + queue[..p]
        invariant waiting == old(waiting) && returned == old(returned)
      {
        evaluated := evaluated + [queue[p]];
        p := p + 1;
      }
      queue := [];
    }
  }

  function ReadAll(t: Tool, lines: seq<string>): Tool
    decreases |lines|
  {
    if lines == [] then t else ReadWaiting(ReadAll(t, lines[..|lines| - 1]), lines[|lines| - 1])
  }

  lemma ReadAllSnoc(t: Tool, lines: seq<string>, line: string)
    ensures ReadAll(t, lines + [line]) == ReadWaiting(ReadAll(t, lines), line)
  {
    assert (lines + [line])[..|lines|] == lines;
  }

  // ----- Both parties -----

  // A reply and the number of the call it answers.
  datatype Answer = Answer(call: nat, reply: Reply)

  // up and down are the lines under way; answers and pushes are what the editor has written so far, and
  // known is the queue length it was last told.
  datatype Sys = Sys(
    tool: Tool,
    calls: nat,
    up: seq<Up>,
    down: seq<string>,
    answers: seq<Answer>,
    pushes: seq<string>,
    known: nat)

  const INIT := Sys(Tool(false, [], None, [], []), 0, [], [], [], [], 0)

  datatype Action =
    | ToolCalls
    | EditorReplies(r: Reply)
    | EditorSkips
    | EditorPushes(text: string)
    | ToolReads
    | ToolReceives
    | FlushStarts
    | FlushEvaluates
    | FlushEnds

  // A push is one line, not empty, and does not look like a reply.
  predicate IsPush(line: string) {
    line != [] && '\n' !in line && Parse(line).None?
  }

  /** Calls are made when none is waiting, also from scripts evaluated by a flush. Replies and pushes
      are single lines. No push is read while a flush is running. */
  ghost predicate Step(s: Sys, a: Action, t: Sys) {
    var k := s.tool;
    match a
    case ToolCalls =>
      && !k.waiting
      && t == s.(tool := k.(waiting := true), calls := s.calls + 1, up := s.up + [Call(s.calls)])
    case EditorReplies(r) =>
      && s.up != [] && s.up[0].Call? && '\n' !in r.text
      && t == s.(up := s.up[1..], down := s.down + Lines(Text(r) + "\n"),
                 answers := s.answers + [Answer(s.up[0].id, r)])
    case EditorSkips =>
      && s.up != [] && s.up[0].QueueLength? && t == s.(up := s.up[1..], known := s.up[0].len)
    case EditorPushes(text) =>
      && IsPush(text) && t == s.(down := s.down + Lines(text + "\n"), pushes := s.pushes + [text])
    case ToolReads =>
      && k.waiting && s.down != [] && (Parse(s.down[0]).Some? || k.pos.None?)
      && var queued := s.down[0] != [] && Parse(s.down[0]).None?;
         t == s.(tool := ReadWaiting(k, s.down[0]), down := s.down[1..],
                 up := s.up + if queued then AppendNotes(k) else [])
    case ToolReceives =>
      && !k.waiting && k.pos.None? && s.down != []
      && t == s.(tool := Append(k, s.down[0]), down := s.down[1..], up := s.up + AppendNotes(k))
    case FlushStarts =>
      && !k.waiting && k.pos.None? && k.queue != []
      && t == s.(tool := k.(pos := Some(0)), up := s.up + [QueueLength(|k.queue|)])
    case FlushEvaluates =>
      && !k.waiting && k.pos.Some? && k.pos.value < |k.queue|
      && t == s.(tool := k.(pos := Some(k.pos.value + 1), evaluated := k.evaluated + [k.queue[k.pos.value]]))
    case FlushEnds =>
      && !k.waiting && k.pos.Some? && k.pos.value == |k.queue|
      && t == s.(tool := k.(pos := None, queue := []), up := s.up + [QueueLength(0)])
  }

  // ----- The invariant -----

  function PushIn(line: string): seq<string> {
    if Parse(line).None? then [line] else []
  }

  function ReplyIn(line: string): seq<Reply> {
    match Parse(line) case Some(r) => [r] case None => []
  }

  function CallIn(u: Up): seq<nat> {
    if u.Call? then [u.id] else []
  }

  function PushesIn(lines: seq<string>): seq<string> {
    Collect(lines, PushIn)
  }

  function RepliesIn(lines: seq<string>): seq<Reply> {
    Collect(lines, ReplyIn)
  }

  function CallsIn(up: seq<Up>): seq<nat> {
    Collect(up, CallIn)
  }

  function Unflushed(t: Tool): seq<string> {
    if t.pos.Some? && t.pos.value <= |t.queue| then t.queue[t.pos.value..] else t.queue
  }

  function Results(made: seq<Answer>): seq<Reply> {
    seq(|made|, i requires 0 <= i < |made| => Result(made[i].reply))
  }

  // Every call is answered once, in turn: returned, on its way down, or on its way up.
  ghost predicate Answered(returned: seq<Reply>, down: seq<Reply>, made: seq<Answer>, up: seq<nat>, calls: nat,
                           waiting: bool)
  {
    && returned + down == Results(made) && (forall i :: 0 <= i < |made| ==> made[i].call == i)
    && up == (if |made| < calls then [|made|] else [])
    && |made| <= calls == |returned| + (if waiting then 1 else 0)
  }

  // Every push is evaluated, in the queue, or on its way down, in the order of arrival.
  ghost predicate Delivered(evaluated: seq<string>, queued: seq<string>, down: seq<string>, sent: seq<string>) {
    evaluated + queued + down == sent
  }

  ghost predicate Shape(s: Sys) {
    (s.tool.pos.Some? ==> s.tool.pos.value <= |s.tool.queue|) && forall l :: l in s.down ==> l != []
  }

  ghost predicate CallsInv(s: Sys) {
    Answered(s.tool.returned, RepliesIn(s.down), s.answers, CallsIn(s.up), s.calls, s.tool.waiting)
  }

  ghost predicate PushesInv(s: Sys) {
    Delivered(s.tool.evaluated, Unflushed(s.tool), PushesIn(s.down), s.pushes)
  }

  ghost predicate Inv(s: Sys) {
    Shape(s) && CallsInv(s) && PushesInv(s)
  }

  // When no call waits, no reply is under way: an idle tool never mistakes a reply for a push.
  lemma AnsweredIdle(returned: seq<Reply>, down: seq<Reply>, made: seq<Answer>, up: seq<nat>, calls: nat)
    requires Answered(returned, down, made, up, calls, false)
    ensures down == [] && up == [] && Answered(returned, down, made, up + [calls], calls + 1, true)
  {
    assert |Results(made)| == |made|;
  }

  lemma AnsweredReply(returned: seq<Reply>, down: seq<Reply>, made: seq<Answer>, id: nat, up: seq<nat>, calls: nat,
                      waiting: bool, r: Reply)
    requires Answered(returned, down, made, [id] + up, calls, waiting)
    ensures Answered(returned, down + [Result(r)], made + [Answer(id, r)], up, calls, waiting)
  {
    assert ([id] + up)[0] == id && up == ([id] + up)[1..] == [];
    assert Results(made + [Answer(id, r)]) == Results(made) + [Result(r)];
    assert returned + (down + [Result(r)]) == (returned + down) + [Result(r)];
  }

  lemma DeliveredPush(evaluated: seq<string>, queued: seq<string>, down: seq<string>, sent: seq<string>, line: string)
    requires Delivered(evaluated, queued, down, sent)
    ensures Delivered(evaluated, queued, down + [line], sent + [line])
  {
    assert evaluated + queued + (down + [line]) == evaluated + queued + down + [line];
  }

  // The reply that came first is returned.
  lemma AnsweredRead(returned: seq<Reply>, r: Reply, down: seq<Reply>, made: seq<Answer>, up: seq<nat>, calls: nat)
    requires Answered(returned, [r] + down, made, up, calls, true)
    ensures Answered(returned + [r], down, made, up, calls, false)
  {
    assert |Results(made)| == |made|;
    assert returned + [r] + down == returned + ([r] + down);
  }

  lemma DeliveredQueue(evaluated: seq<string>, queued: seq<string>, line: string, down: seq<string>, sent: seq<string>)
    requires Delivered(evaluated, queued, [line] + down, sent)
    ensures Delivered(evaluated, queued + [line], down, sent)
  {
    assert evaluated + (queued + [line]) + down == evaluated + queued + ([line] + down);
  }

  lemma DeliveredEvaluate(evaluated: seq<string>, line: string, queued: seq<string>, down: seq<string>,
                          sent: seq<string>)
    requires Delivered(evaluated, [line] + queued, down, sent)
    ensures Delivered(evaluated + [line], queued, down, sent)
  {
    assert evaluated + [line] + queued + down == evaluated + ([line] + queued) + down;
  }

  lemma WrittenLine(text: string)
    requires '\n' !in text
    ensures Lines(text + "\n") == [text]
  {
    OneLine(text, []);
    assert [] + text == text;
  }

  lemma NoteOnly(up: seq<Up>, n: nat)
    ensures CallsIn(up + [QueueLength(n)]) == CallsIn(up)
  {
    CollectAppend(up, [QueueLength(n)], CallIn);
    CollectOne(QueueLength(n), CallIn);
    assert CallsIn(up) + [] == CallsIn(up);
  }

  lemma NotesOnly(up: seq<Up>, t: Tool)
    ensures CallsIn(up + AppendNotes(t)) == CallsIn(up) && CallsIn(up + []) == CallsIn(up)
  {
    NoteOnly(up, |t.queue| + 1);
    assert up + [] == up;
  }

  // A line joins the end of the lines on their way down.
  lemma DownGrows(down: seq<string>, line: string)
    ensures PushesIn(down + [line]) == PushesIn(down) + PushIn(line)
    ensures RepliesIn(down + [line]) == RepliesIn(down) + ReplyIn(line)
  {
    CollectAppend(down, [line], PushIn);
    CollectAppend(down, [line], ReplyIn);
    CollectOne(line, PushIn);
    CollectOne(line, ReplyIn);
  }

  lemma DownShrinks(down: seq<string>)
    requires down != []
    ensures PushesIn(down) == PushIn(down[0]) + PushesIn(down[1..])
    ensures RepliesIn(down) == ReplyIn(down[0]) + RepliesIn(down[1..])
  {
  }

  lemma ShapeShrinks(s: Sys)
    requires Shape(s) && s.down != []
    ensures Shape(s.(down := s.down[1..])) && s.down[0] != []
  {
    assert s.down[0] in s.down && forall l :: l in s.down[1..] ==> l in s.down;
  }

  lemma Nothing<T>(a: seq<T>)
    ensures [] + a == a && a + [] == a
  {
  }

  lemma ReplyLine(s: Sys, r: Reply, t: Sys)
    requires Step(s, EditorReplies(r), t)
    ensures t.down == s.down + [Text(r)] && Text(r) != []
    ensures PushesIn(t.down) == PushesIn(s.down) && RepliesIn(t.down) == RepliesIn(s.down) + [Result(r)]
  {
    ParseText(r);
    WrittenLine(Text(r));
    DownGrows(s.down, Text(r));
    Nothing(PushesIn(s.down));
  }

  lemma ReplyKeepsCalls(s: Sys, r: Reply, t: Sys)
    requires CallsInv(s) && Step(s, EditorReplies(r), t)
    ensures CallsInv(t)
  {
    ReplyLine(s, r, t);
    AnsweredReply(s.tool.returned, RepliesIn(s.down), s.answers, s.up[0].id, CallsIn(s.up[1..]), s.calls,
                  s.tool.waiting, r);
  }

  lemma ReplyKeepsInv(s: Sys, r: Reply, t: Sys)
    requires Inv(s) && Step(s, EditorReplies(r), t)
    ensures Inv(t)
  {
    ReplyKeepsCalls(s, r, t);
    ReplyLine(s, r, t);
  }

  lemma PushLine(s: Sys, text: string, t: Sys)
    requires Step(s, EditorPushes(text), t)
    ensures t.down == s.down + [text] && text != []
    ensures RepliesIn(t.down) == RepliesIn(s.down) && PushesIn(t.down) == PushesIn(s.down) + [text]
  {
    WrittenLine(text);
    DownGrows(s.down, text);
    Nothing(RepliesIn(s.down));
  }

  lemma PushKeepsPushes(s: Sys, text: string, t: Sys)
    requires PushesInv(s) && Step(s, EditorPushes(text), t)
    ensures PushesInv(t)
  {
    PushLine(s, text, t);
    DeliveredPush(s.tool.evaluated, Unflushed(s.tool), PushesIn(s.down), s.pushes, text);
  }

  // One more line on its way down, which is not a reply.
  lemma PushKeepsCalls(s: Sys, text: string, down: seq<string>, pushes: seq<string>)
    requires Shape(s) && CallsInv(s) && down == s.down + [text] && text != [] && RepliesIn(down) == RepliesIn(s.down)
    ensures var t := s.(down := down, pushes := pushes); Shape(t) && CallsInv(t)
  {
  }

  lemma PushKeepsInv(s: Sys, text: string, t: Sys)
    requires Inv(s) && Step(s, EditorPushes(text), t)
    ensures Inv(t)
  {
    PushLine(s, text, t);
    PushKeepsCalls(s, text, t.down, t.pushes);
    PushKeepsPushes(s, text, t);
  }

  lemma SkipKeepsInv(s: Sys, t: Sys)
    requires Inv(s) && Step(s, EditorSkips, t)
    ensures Inv(t)
  {
    assert CallsIn(s.up) == [] + CallsIn(s.up[1..]);
    Nothing(CallsIn(s.up[1..]));
  }

  lemma CallKeepsInv(s: Sys, t: Sys)
    requires Inv(s) && Step(s, ToolCalls, t)
    ensures Inv(t)
  {
    CollectAppend(s.up, [Call(s.calls)], CallIn);
    CollectOne(Call(s.calls), CallIn);
    AnsweredIdle(s.tool.returned, RepliesIn(s.down), s.answers, CallsIn(s.up), s.calls);
  }

  lemma ReadKeepsCalls(s: Sys, t: Sys)
    requires CallsInv(s) && Step(s, ToolReads, t) && s.down[0] != []
    ensures CallsInv(t)
  {
    DownShrinks(s.down);
    NotesOnly(s.up, s.tool);
    if Parse(s.down[0]).Some? {
      AnsweredRead(s.tool.returned, Parse(s.down[0]).value, RepliesIn(s.down[1..]), s.answers, CallsIn(s.up), s.calls);
    } else {
      Nothing(RepliesIn(s.down[1..]));
    }
  }

  lemma ReadKeepsPushes(s: Sys, t: Sys)
    requires PushesInv(s) && Step(s, ToolReads, t) && s.down[0] != []
    ensures PushesInv(t)
  {
    DownShrinks(s.down);
    if Parse(s.down[0]).Some? {
      Nothing(PushesIn(s.down[1..]));
    } else {
      DeliveredQueue(s.tool.evaluated, s.tool.queue, s.down[0], PushesIn(s.down[1..]), s.pushes);
    }
  }

  lemma ReadKeepsInv(s: Sys, t: Sys)
    requires Inv(s) && Step(s, ToolReads, t)
    ensures Inv(t)
  {
    ShapeShrinks(s);
    ReadKeepsCalls(s, t);
    ReadKeepsPushes(s, t);
  }

  lemma ReceiveKeepsCalls(s: Sys, t: Sys)
    requires CallsInv(s) && Step(s, ToolReceives, t)
    ensures CallsInv(t) && Parse(s.down[0]).None?
  {
    DownShrinks(s.down);
    NotesOnly(s.up, s.tool);
    AnsweredIdle(s.tool.returned, RepliesIn(s.down), s.answers, CallsIn(s.up), s.calls);
    Nothing(RepliesIn(s.down[1..]));
  }

  lemma ReceiveKeepsInv(s: Sys, t: Sys)
    requires Inv(s) && Step(s, ToolReceives, t)
    ensures Inv(t)
  {
    ShapeShrinks(s);
    ReceiveKeepsCalls(s, t);
    DownShrinks(s.down);
    DeliveredQueue(s.tool.evaluated, s.tool.queue, s.down[0], PushesIn(s.down[1..]), s.pushes);
  }

  lemma FlushKeepsPushes(s: Sys, a: Action, t: Sys)
    requires Shape(s) && PushesInv(s) && Step(s, a, t) && (a.FlushStarts? || a.FlushEvaluates? || a.FlushEnds?)
    ensures PushesInv(t)
  {
    if a.FlushEvaluates? {
      var p := s.tool.pos.value;
      assert s.tool.queue[p..] == [s.tool.queue[p]] + s.tool.queue[p + 1..];
      DeliveredEvaluate(s.tool.evaluated, s.tool.queue[p], s.tool.queue[p + 1..], PushesIn(s.down), s.pushes);
    } else {
      assert Unflushed(t.tool) == Unflushed(s.tool);
    }
  }

  lemma FlushKeepsInv(s: Sys, a: Action, t: Sys)
    requires Inv(s) && Step(s, a, t) && (a.FlushStarts? || a.FlushEvaluates? || a.FlushEnds?)
    ensures Inv(t)
  {
    NoteOnly(s.up, if a.FlushEnds? then 0 else |s.tool.queue|);
    FlushKeepsPushes(s, a, t);
  }

  lemma StepKeepsInv(s: Sys, a: Action, t: Sys)
    requires Inv(s) && Step(s, a, t)
    ensures Inv(t)
  {
    match a
    case ToolCalls => CallKeepsInv(s, t);
    case EditorReplies(r) => ReplyKeepsInv(s, r, t);
    case EditorSkips => SkipKeepsInv(s, t);
    case EditorPushes(text) => PushKeepsInv(s, text, t);
    case ToolReads => ReadKeepsInv(s, t);
    case ToolReceives => ReceiveKeepsInv(s, t);
    case FlushStarts => FlushKeepsInv(s, a, t);
    case FlushEvaluates => FlushKeepsInv(s, a, t);
    case FlushEnds => FlushKeepsInv(s, a, t);
  }

  ghost predicate IsRun(ss: seq<Sys>, acts: seq<Action>) {
    && |ss| == |acts| + 1 && ss[0] == INIT
    && forall i :: 0 <= i < |acts| ==> Step(ss[i], acts[i], ss[i + 1])
  }

  lemma {:induction false} RunsKeepInv(ss: seq<Sys>, acts: seq<Action>, k: nat)
    requires IsRun(ss, acts) && k < |ss|
    ensures Inv(ss[k])
    decreases k
  {
    if k > 0 {
      RunsKeepInv(ss, acts, k - 1);
      StepKeepsInv(ss[k - 1], acts[k - 1], ss[k]);
    }
  }

  /** In every state of every interleaving: the i-th finished call has returned the reply the editor
      made to that call and to no other. */
  lemma CallsGetTheirReplies(ss: seq<Sys>, acts: seq<Action>, k: nat, i: nat)
    requires IsRun(ss, acts) && k < |ss| && i < |ss[k].tool.returned|
    ensures var s := ss[k];
            && i < |s.answers| && s.answers[i].call == i && ReadsBack(s.answers[i].reply, s.tool.returned[i])
            && forall j :: 0 <= j < |s.answers| && s.answers[j].call == i ==> j == i
  {
    RunsKeepInv(ss, acts, k);
    var s := ss[k];
    assert (s.tool.returned + RepliesIn(s.down))[i] == s.tool.returned[i];
    ResultReadsBack(s.answers[i].reply);
  }

  /** In every state of every interleaving: the pushes evaluated so far are the first ones sent, in
      order; and when nothing is queued or under way, each push has been evaluated exactly once. */
  lemma PushesInOrder(ss: seq<Sys>, acts: seq<Action>, k: nat)
    requires IsRun(ss, acts) && k < |ss|
    ensures var s := ss[k];
            && s.tool.evaluated <= s.pushes
            && (s.down == [] && s.tool.queue == [] ==> s.tool.evaluated == s.pushes)
  {
    RunsKeepInv(ss, acts, k);
    var s := ss[k];
    DeliveredPrefix(s.tool.evaluated, Unflushed(s.tool), PushesIn(s.down), s.pushes);
  }

  lemma DeliveredPrefix(done: seq<string>, queue: seq<string>, down: seq<string>, sent: seq<string>)
    requires Delivered(done, queue, down, sent)
    ensures done <= sent && (queue == [] && down == [] ==> done == sent)
  {
    assert done + queue + down == done + (queue + down);
  }

  // ----- What the editor knows of the queue -----

  // The last length told, whether it has arrived or is still under way.
  function LastTold(known: nat, up: seq<Up>): nat {
    if up == [] then known
    else if up[|up| - 1].QueueLength? then up[|up| - 1].len
    else LastTold(known, up[..|up| - 1])
  }

  lemma ToldMore(known: nat, up: seq<Up>, u: Up)
    ensures LastTold(known, up + [u]) == if u.QueueLength? then u.len else LastTold(known, up)
  {
    assert (up + [u])[..|up|] == up;
  }

  lemma {:induction false} ToldOnce(known: nat, up: seq<Up>)
    requires up != []
    ensures LastTold(if up[0].QueueLength? then up[0].len else known, up[1..]) == LastTold(known, up)
    decreases |up|
  {
    var last := |up| - 1;
    if last > 0 && up[last].Call? {
      assert up[1..][..last - 1] == up[..last][1..];
      ToldOnce(known, up[..last]);
    }
  }

  // One command may have been queued without a word.
  ghost predicate Told(s: Sys) {
    var n, len := LastTold(s.known, s.up), |s.tool.queue|;
    n == len || (n == 0 && len == 1)
  }

  lemma StepKeepsTold(s: Sys, a: Action, t: Sys)
    requires Told(s) && Step(s, a, t)
    ensures Told(t)
  {
    match a
    case ToolCalls => ToldMore(s.known, s.up, Call(s.calls));
    case EditorReplies(_) => ToldOnce(s.known, s.up);
    case EditorSkips => ToldOnce(s.known, s.up);
    case EditorPushes(_) =>
    case ToolReads => AppendKeepsTold(s, t);
    case ToolReceives => AppendKeepsTold(s, t);
    case FlushStarts => ToldMore(s.known, s.up, QueueLength(|s.tool.queue|));
    case FlushEvaluates =>
    case FlushEnds => ToldMore(s.known, s.up, QueueLength(0));
  }

  lemma AppendKeepsTold(s: Sys, t: Sys)
    requires Told(s) && t.known == s.known
    requires (|t.tool.queue| == |s.tool.queue| && t.up == s.up + [])
             || (|t.tool.queue| == |s.tool.queue| + 1 && t.up == s.up + AppendNotes(s.tool))
    ensures Told(t)
  {
    ToldMore(s.known, s.up, QueueLength(|s.tool.queue| + 1));
    assert s.up + [] == s.up;
  }

  /** In every state of every interleaving: once all messages of the tool have arrived, the editor knows
      how many commands are queued, except that it takes a single one for none. */
  lemma {:induction false} EditorKnowsQueue(ss: seq<Sys>, acts: seq<Action>, k: nat)
    requires IsRun(ss, acts) && k < |ss|
    ensures Told(ss[k])
    ensures var s := ss[k];
            s.up == [] ==> s.known == |s.tool.queue| || (s.known == 0 && |s.tool.queue| == 1)
    decreases k
  {
    if k > 0 {
      EditorKnowsQueue(ss, acts, k - 1);
      StepKeepsTold(ss[k - 1], acts[k - 1], ss[k]);
    }
  }
}
