/**
 Lines on the wire between a tool and the editor: the editor's receive procedure
 (tkiObjects.c) and the writer of an ined call (tnmIned.c). Strings hold no NUL characters.
 */
module InedLines {
  import opened Vectors

  // The lines of a stream that are finished by a newline.
  function LinesFrom(s: string, cur: string): seq<string>
    decreases |s|
  {
    if s == [] then []
    else if s[0] == '\n' then [cur] + LinesFrom(s[1..], [])
    else LinesFrom(s[1..], cur + [s[0]])
  }

  function Lines(s: string): seq<string> {
    LinesFrom(s, [])
  }

  predicate Finished(s: string) {
    s == [] || s[|s| - 1] == '\n'
  }

  lemma {:induction false} LinesFromAppend(a: string, b: string, cur: string)
    requires a != [] && a[|a| - 1] == '\n'
    ensures LinesFrom(a + b, cur) == LinesFrom(a, cur) + LinesFrom(b, [])
    decreases |a|
  {
    assert (a + b)[1..] == a[1..] + b;
    if |a| == 1 {
      assert a[1..] + b == b;
    } else if a[0] == '\n' {
      LinesFromAppend(a[1..], b, []);
    } else {
      LinesFromAppend(a[1..], b, cur + [a[0]]);
    }
  }

  lemma LinesAppend(a: string, b: string)
    requires Finished(a)
    ensures Lines(a + b) == Lines(a) + Lines(b)
  {
    if a == [] { assert a + b == b; } else { LinesFromAppend(a, b, []); }
  }

  lemma {:induction false} OneLine(s: string, cur: string)
    requires '\n' !in s
    ensures LinesFrom(s + ['\n'], cur) == [cur + s]
    decreases |s|
  {
    if s == [] {
      assert s + ['\n'] == ['\n'] && ['\n'][1..] == [] && cur + s == cur;
    } else {
      assert (s + ['\n'])[1..] == s[1..] + ['\n'];
      OneLine(s[1..], cur + [s[0]]);
      assert cur + [s[0]] + s[1..] == cur + s;
    }
  }

  // ----- The receiving side -----

  datatype Recv = Recv(cmd: string, done: bool, lines: seq<string>)

  const START := Recv([], true, [])

  // complete stands for Tcl_CommandComplete.
  function Feed(r: Recv, input: string, complete: string -> bool): Recv {
    var buf := Held(r) + input;
    if buf == [] || !complete(buf) || buf[|buf| - 1] != '\n' then Recv(buf, false, r.lines)
    else Recv(buf, true, r.lines + Lines(buf))
  }

  function FeedAll(r: Recv, cuts: seq<string>, complete: string -> bool): Recv
    decreases |cuts|
  {
    if cuts == [] then r else FeedAll(Feed(r, cuts[0], complete), cuts[1..], complete)
  }

  function Concat(cuts: seq<string>): string {
    if cuts == [] then [] else cuts[0] + Concat(cuts[1..])
  }

  // What of the stream is still in the buffer.
  function Held(r: Recv): string {
    if r.done then [] else r.cmd
  }

  // r has processed the lines of used, and holds what followed.
  ghost predicate Seen(r: Recv, used: string) {
    Finished(used) && r.lines == Lines(used)
  }

  lemma FeedSees(r: Recv, used: string, input: string, complete: string -> bool)
    returns (used': string)
    requires Seen(r, used)
    ensures var t := Feed(r, input, complete); Seen(t, used') && used' + Held(t) == used + Held(r) + input
  {
    var buf := Held(r) + input;
    var t := Feed(r, input, complete);
    assert used + Held(r) + input == used + buf;
    if t.done {
      LinesAppend(used, buf);
      used' := used + buf;
      assert used' + [] == used';
    } else {
      used' := used;
    }
  }

  lemma {:induction false} FeedAllSees(r: Recv, used: string, cuts: seq<string>, complete: string -> bool)
    returns (used': string)
    requires Seen(r, used)
    ensures var t := FeedAll(r, cuts, complete); Seen(t, used') && used' + Held(t) == used + Held(r) + Concat(cuts)
    decreases |cuts|
  {
    if cuts == [] {
      used' := used;
      assert used + Held(r) + [] == used + Held(r);
    } else {
      var u := FeedSees(r, used, cuts[0], complete);
      used' := FeedAllSees(Feed(r, cuts[0], complete), u, cuts[1..], complete);
      Assoc(used + Held(r), cuts[0], Concat(cuts[1..]));
    }
  }

  /** However a stream is cut into reads, once the last buffer is complete the editor has processed
      exactly the lines of the stream, in order. */
  lemma AnyCutSameLines(cuts: seq<string>, complete: string -> bool)
    ensures var r := FeedAll(START, cuts, complete);
            r.done ==> r.lines == Lines(Concat(cuts))
  {
    var used := FeedAllSees(START, [], cuts, complete);
    assert [] + [] + Concat(cuts) == Concat(cuts) && used + [] == used;
  }

  class Receiver {
    var cmd: string
    var done: bool
    var lines: seq<string>
    var deleted: bool

    constructor ()
      ensures State() == START && !deleted
    {
      cmd, done, lines, deleted := [], true, [], false;
    }

    ghost function State(): Recv
      reads this
    {
      Recv(cmd, done, lines)
    }

    // input is what Tcl_Read delivered; it is empty at the end of the file.
    method Receive(input: string, complete: string -> bool)
      requires !done ==> cmd != []
      modifies this
      ensures !done ==> cmd != []
      ensures deleted == (old(deleted) || (input == [] && old(done)))
      ensures var buf := (if old(done) then [] else old(cmd)) + input;
              if buf == [] then lines == old(lines) && done else
              && cmd == buf && (done <==> complete(buf) && buf[|buf| - 1] == '\n')
              && lines == old(lines) + if done then Lines(buf) else []
      ensures input != [] || !old(done) ==> State() == Feed(old(State()), input, complete)
      ensures lines == if input == [] && old(done) then old(lines) else Feed(old(State()), input, complete).lines
    {
      if done { cmd := []; }
      if input == [] && done {
        deleted := true;
        return;
      }
      cmd := cmd + input;
      if !complete(cmd) || cmd[|cmd| - 1] != '\n' {
        done := false;
        return;
      }
      done := true;
      ProcessLines();
    }

    // Splits the buffer at its newlines and processes each piece.
    method ProcessLines()
      modifies this`lines
      ensures lines == old(lines) + Lines(cmd)
    {
      var line, p := 0, 0;
      assert cmd[0..] == cmd;
      while p < |cmd|
        invariant 0 <= line <= p <= |cmd|
        invariant old(lines) + Lines(cmd) == lines + LinesFrom(cmd[p..], cmd[line..p])
      {
        assert cmd[p..][0] == cmd[p] && cmd[p..][1..] == cmd[p + 1..];
        if cmd[p] == '\n' {
          lines := lines + [cmd[line..p]];
          line := p + 1;
          assert cmd[line..p + 1] == [];
        } else {
          assert cmd[line..p + 1] == cmd[line..p] + [cmd[p]];
        }
        p := p + 1;
      }
    }
  }

  // ----- The sending side -----

  function Escape(a: string): string {
    if a == [] then []
    else (if a[0] == '\r' then [] else if a[0] == '\n' then "\\n" else [a[0]]) + Escape(a[1..])
  }

  function Body(args: seq<string>): string {
    if args == [] then [] else "{" + Escape(args[0]) + "} " + Body(args[1..])
  }

  lemma {:induction false} EscapeSnoc(a: string, c: char)
    ensures Escape(a + [c]) == Escape(a) + (if c == '\r' then [] else if c == '\n' then "\\n" else [c])
  {
    if a == [] {
      assert a + [c] == [c] && [c][1..] == [];
    } else {
      assert (a + [c])[1..] == a[1..] + [c];
      EscapeSnoc(a[1..], c);
    }
  }

  lemma {:induction false} BodySnoc(args: seq<string>, a: string)
    ensures Body(args + [a]) == Body(args) + ("{" + Escape(a) + "} ")
  {
    if args == [] {
      assert args + [a] == [a] && [a][1..] == [];
    } else {
      assert (args + [a])[1..] == args[1..] + [a];
      BodySnoc(args[1..], a);
    }
  }

  // ----- Reading the words back -----

  // The place of the brace that closes a word, in the text behind its opening brace. Braces nest, and a
  // backslash takes the next character with it, as the rules for Tcl lists say.
  function Close(s: string, depth: nat): (r: Option<nat>)
    ensures r.Some? ==> r.value < |s| && s[r.value] == '}'
    decreases |s|
  {
    if s == [] then None
    else if s[0] == '\\' then (if |s| < 2 then None else Later(2, Close(s[2..], depth)))
    else if s[0] == '{' then Later(1, Close(s[1..], depth + 1))
    else if s[0] == '}' then (if depth == 0 then Some(0) else Later(1, Close(s[1..], depth - 1)))
    else Later(1, Close(s[1..], depth))
  }

  function Later(n: nat, r: Option<nat>): Option<nat> {
    match r case None => None case Some(k) => Some(n + k)
  }

  // The words of a line of words in braces, each followed by a blank.
  function Words(s: string): Option<seq<string>>
    decreases |s|
  {
    if s == [] then Some([])
    else if s[0] != '{' then None
    else match Close(s[1..], 0)
         case None => None
         case Some(k) =>
           if k + 2 >= |s| || s[k + 2] != ' ' then None
           else match Words(s[k + 3..]) case None => None case Some(ws) => Some([s[1..k + 1]] + ws)
  }

  // Every brace has its partner inside a, at depth d, and a does not end in a lone backslash.
  predicate Balanced(a: string, d: nat)
    decreases |a|
  {
    if a == [] then d == 0
    else if a[0] == '\\' then |a| >= 2 && Balanced(a[2..], d)
    else if a[0] == '{' then Balanced(a[1..], d + 1)
    else if a[0] == '}' then d > 0 && Balanced(a[1..], d - 1)
    else Balanced(a[1..], d)
  }

  lemma {:induction false} CloseBalanced(a: string, rest: string, d: nat)
    ensures Close(a + "}" + rest, d) == Some(|a|) <==> Balanced(a, d)
    decreases |a|
  {
    var s := a + "}" + rest;
    if a == [] {
      assert s == ['}'] + rest;
    } else if a[0] == '\\' {
      if |a| >= 2 {
        assert s[2..] == a[2..] + "}" + rest;
        CloseBalanced(a[2..], rest, d);
      }
    } else {
      assert s[1..] == a[1..] + "}" + rest;
      CloseBalanced(a[1..], rest, if a[0] == '{' then d + 1 else if a[0] == '}' && d > 0 then d - 1 else d);
    }
  }

  // Characters that the wire cannot carry.
  predicate Clean(a: string) {
    '\n' !in a && '\r' !in a
  }

  lemma {:induction false} EscapeClean(a: string)
    ensures '\r' !in Escape(a) && '\n' !in Escape(a)
    ensures Clean(a) ==> Escape(a) == a
  {
    if a != [] { EscapeClean(a[1..]); }
  }

  /** What becomes of an argument: carriage returns vanish, newlines become a backslash and an n, and
      every other character stays, in order. */
  lemma {:induction false} EscapeAppend(a: string, b: string)
    ensures Escape(a + b) == Escape(a) + Escape(b)
    ensures Escape("\r") == "" && Escape("\n") == "\\n"
  {
    if a == [] {
      assert a + b == b;
    } else {
      assert (a + b)[1..] == a[1..] + b;
      EscapeAppend(a[1..], b);
    }
  }

  lemma Framed(e: string, rest: string)
    ensures var s := "{" + e + "} " + rest;
            && |s| == |e| + 3 + |rest| && s[0] == '{' && s[|e| + 2] == ' '
            && s[1..|e| + 1] == e && s[|e| + 3..] == rest && s[1..] == e + "}" + (" " + rest)
  {
    var s := "{" + e + "} " + rest;
    assert s[1..] == e + "} " + rest;
    assert "} " == "}" + " ";
  }

  // The first word read is the first argument if and only if its closing brace is where it was written.
  lemma FirstWord(args: seq<string>)
    requires args != []
    ensures var e, ws := Escape(args[0]), Words(Body(args));
            && (Balanced(e, 0) ==>
                  ws == match Words(Body(args[1..])) case None => None case Some(rest) => Some([e] + rest))
            && (!Balanced(e, 0) && ws.Some? ==> ws.value != [] && ws.value[0] != e)
  {
    var e := Escape(args[0]);
    var s := Body(args);
    Framed(e, Body(args[1..]));
    CloseBalanced(e, " " + Body(args[1..]), 0);
    if !Balanced(e, 0) && Words(s).Some? {
      var k := Close(s[1..], 0).value;
      assert |s[1..k + 1]| == k != |e|;
    }
  }

  /** The words of a call are its arguments, as they are on the wire, if and only if each is balanced. */
  lemma {:induction false} WordsArrive(args: seq<string>)
    ensures Words(Body(args)) == Some(Escaped(args)) <==> AllBalanced(Escaped(args))
  {
    if args == [] {
      assert Escaped(args) == [];
    } else {
      var e, es := Escape(args[0]), Escaped(args[1..]);
      assert Escaped(args) == [e] + es;
      FirstWord(args);
      WordsArrive(args[1..]);
      WordsCons(e, es, Balanced(e, 0), Words(Body(args)), Words(Body(args[1..])));
      BalancedCons(e, es);
    }
  }

  lemma WordsCons(e: string, es: seq<string>, good: bool, ws: Option<seq<string>>, rest: Option<seq<string>>)
    requires good ==> ws == match rest case None => None case Some(r) => Some([e] + r)
    requires !good && ws.Some? ==> ws.value != [] && ws.value[0] != e
    ensures ws == Some([e] + es) <==> good && rest == Some(es)
  {
    if good && rest.Some? { assert ([e] + rest.value)[1..] == rest.value && ([e] + es)[1..] == es; }
    assert ([e] + es)[0] == e;
  }

  ghost predicate AllBalanced(ws: seq<string>) {
    forall a :: a in ws ==> Balanced(a, 0)
  }

  lemma BalancedCons(e: string, es: seq<string>)
    ensures AllBalanced([e] + es) <==> Balanced(e, 0) && AllBalanced(es)
  {
    assert forall a :: a in [e] + es <==> a == e || a in es;
  }

  function Escaped(args: seq<string>): seq<string> {
    seq(|args|, i requires 0 <= i < |args| => Escape(args[i]))
  }

  /** An editor that reads the words of a call finds exactly its arguments if and only if none contains a
      newline or a carriage return and the braces of each are balanced. */
  lemma ArgumentsArrive(args: seq<string>)
    ensures Words(Body(args)) == Some(args) <==> AllClean(args) && AllBalanced(args)
  {
    if Words(Body(args)) == Some(args) { WordsClean(args, Body(args), args); }
    if AllClean(args) {
      CleanUnchanged(args);
      WordsArrive(args);
    }
  }

  // A closing brace and a newline do not arrive.
  lemma ArgumentsLost()
    ensures Words(Body(["}"])) != Some(["}"]) && Words(Body(["\n"])) != Some(["\n"])
  {
    ArgumentsArrive(["}"]);
    ArgumentsArrive(["\n"]);
    assert "}" in ["}"] && !Balanced("}", 0);
    assert "\n" in ["\n"] && !Clean("\n") by { assert "\n"[0] in "\n"; }
  }

  ghost predicate AllClean(ws: seq<string>) {
    forall a :: a in ws ==> Clean(a)
  }

  lemma CleanUnchanged(args: seq<string>)
    requires AllClean(args)
    ensures Escaped(args) == args
  {
    forall i | 0 <= i < |args| ensures Escape(args[i]) == args[i] {
      assert args[i] in args;
      EscapeClean(args[i]);
    }
  }

  // No word read from a line of the wire contains what the wire cannot carry.
  lemma {:induction false} WordsClean(args: seq<string>, s: string, ws: seq<string>)
    requires Words(s) == Some(ws) && (s == Body(args) || Clean(s))
    ensures AllClean(ws)
    decreases |s|
  {
    if s == Body(args) { BodyClean(args); }
    if s != [] {
      var k := Close(s[1..], 0).value;
      assert forall c :: c in s[k + 3..] || c in s[1..k + 1] ==> c in s;
      WordsClean(args, s[k + 3..], ws[1..]);
    }
  }

  lemma {:induction false} BodyClean(args: seq<string>)
    ensures Clean(Body(args))
  {
    if args != [] {
      EscapeClean(args[0]);
      BodyClean(args[1..]);
    }
  }

  method WriteCall(args: seq<string>) returns (out: string)
    ensures out == Body(args) + "\n"
    ensures Lines(out) == [Body(args)]
  {
    out := [];
    for i := 0 to |args|
      invariant out == Body(args[..i])
    {
      var arg := WriteArgument(args[i]);
      BodySnoc(args[..i], args[i]);
      assert args[..i + 1] == args[..i] + [args[i]];
      out := out + arg;
    }
    assert args[..|args|] == args;
    out := out + "\n";
    BodyClean(args);
    OneLine(Body(args), []);
    assert [] + Body(args) == Body(args);
  }

  method WriteArgument(arg: string) returns (out: string)
    ensures out == "{" + Escape(arg) + "} "
  {
    var text := [];
    for j := 0 to |arg|
      invariant text == Escape(arg[..j])
    {
      EscapeSnoc(arg[..j], arg[j]);
      assert arg[..j + 1] == arg[..j] + [arg[j]];
      if arg[j] == '\r' {
        continue;
      } else if arg[j] == '\n' {
        text := text + "\\n";
      } else {
        text := text + [arg[j]];
      }
    }
    assert arg[..|arg|] == arg;
    out := "{" + text + "} ";
  }

  function Wire(calls: seq<seq<string>>): string {
    if calls == [] then [] else Body(calls[0]) + "\n" + Wire(calls[1..])
  }

  lemma {:induction false} WireLines(calls: seq<seq<string>>)
    ensures Lines(Wire(calls)) == seq(|calls|, i requires 0 <= i < |calls| => Body(calls[i]))
  {
    if calls != [] {
      var b := Body(calls[0]);
      BodyClean(calls[0]);
      OneLine(b, []);
      assert [] + b == b;
      LinesAppend(b + "\n", Wire(calls[1..]));
      WireLines(calls[1..]);
    }
  }

  /** Whatever the arguments contain and however the bytes are cut into reads, the editor processes
      each call as one line, in the order of the calls; the words of that line are the arguments if
      and only if these are clean and balanced. */
  lemma CallsArrive(calls: seq<seq<string>>, cuts: seq<string>, complete: string -> bool)
    requires Concat(cuts) == Wire(calls) && FeedAll(START, cuts, complete).done
    ensures FeedAll(START, cuts, complete).lines == seq(|calls|, i requires 0 <= i < |calls| => Body(calls[i]))
    ensures forall i :: 0 <= i < |calls| ==>
              (Words(FeedAll(START, cuts, complete).lines[i]) == Some(calls[i]) <==>
                 AllClean(calls[i]) && AllBalanced(calls[i]))
  {
    AnyCutSameLines(cuts, complete);
    WireLines(calls);
    forall i | 0 <= i < |calls|
      ensures Words(Body(calls[i])) == Some(calls[i]) <==> AllClean(calls[i]) && AllBalanced(calls[i])
    {
      ArgumentsArrive(calls[i]);
    }
  }
}
