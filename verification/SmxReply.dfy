/**
 Building SMX replies (SmxReply in tnmSmx.c; section 5.3 of RFC 2593bis) in a buffer of
 80 + 2 * msglen bytes.
 */
module SmxReplies {
  import opened Vectors
  import opened SmxCodec
  import opened SmxBuffers

  type Int32 = i: int | -0x8000_0000 <= i < 0x8000_0000
  type Uint32 = i: int | 0 <= i < 0x1_0000_0000

  datatype Run = Run(runid: Uint32, runstate: Int32, exitcode: Int32)

  const IDENTITY := 211
  const STATUS := 231
  const ABORT := 232
  const NOTICE := 511
  const STATUS_CHANGE := 531
  const RESULT := 532
  const RESULT_EVENT := 533
  const SCRIPT_TERM := 534
  const SCRIPT_ABORT := 535
  const ERROR := 536
  const ERROR_EVENT := 537
  const TERMINATION := 538

  predicate IsError(reply: Int32) {
    reply == 401 || reply == 402 || reply == 421 || 431 <= reply <= 434
  }

  predicate Known(reply: Int32) {
    reply == IDENTITY || reply == STATUS || reply == ABORT || IsError(reply) || reply == NOTICE || 531 <= reply <= 538
  }

  // ----- Numbers as printf prints them -----

  function Digits(n: nat): (s: seq<Byte>)
    ensures forall i :: 0 <= i < |s| ==> s[i] != 0
  {
    if n < 10 then [0x30 + n] else Digits(n / 10) + [0x30 + n % 10]
  }

  function Dec(i: int): (s: seq<Byte>)
    ensures forall k :: 0 <= k < |s| ==> s[k] != 0
  {
    if i < 0 then [0x2d] + Digits(-i) else Digits(i)
  }

  // What a reader makes of digits, left to right.
  function ReadFrom(s: seq<Byte>, acc: int): int {
    if s == [] then acc else ReadFrom(s[1..], 10 * acc + s[0] - 0x30)
  }

  function ReadDec(s: seq<Byte>): int {
    if s != [] && s[0] == 0x2d then -ReadFrom(s[1..], 0) else ReadFrom(s, 0)
  }

  // Digits only, at least one, and no 0 in front.
  ghost predicate Canonical(s: seq<Byte>) {
    s != [] && (s[0] == 0x30 ==> |s| == 1) && forall k :: 0 <= k < |s| ==> 0x30 <= s[k] <= 0x39
  }

  // s is the number i in decimal.
  ghost predicate Numeral(s: seq<Byte>, i: int) {
    ReadDec(s) == i && if i < 0 then s != [] && s[0] == 0x2d && Canonical(s[1..]) else Canonical(s)
  }

  lemma {:induction false} ReadSnoc(s: seq<Byte>, b: Byte, acc: int)
    ensures ReadFrom(s + [b], acc) == 10 * ReadFrom(s, acc) + b - 0x30
    decreases |s|
  {
    if s == [] {
      assert s + [b] == [b] && [b][1..] == [];
    } else {
      assert (s + [b])[1..] == s[1..] + [b];
      ReadSnoc(s[1..], b, 10 * acc + s[0] - 0x30);
    }
  }

  lemma {:induction false} DigitsRead(n: nat)
    ensures ReadFrom(Digits(n), 0) == n && Canonical(Digits(n)) && (n > 0 ==> Digits(n)[0] != 0x30)
  {
    if n < 10 {
      assert [(0x30 + n) as Byte][1..] == [];
    } else {
      DigitsRead(n / 10);
      ReadSnoc(Digits(n / 10), 0x30 + n % 10, 0);
    }
  }

  /** Every number is read back from its decimal form, which has no superfluous digits. */
  lemma DecReads(i: int)
    ensures Numeral(Dec(i), i)
  {
    DigitsRead(if i < 0 then -i else i);
    if i < 0 { assert ([0x2d] + Digits(-i))[1..] == Digits(-i); }
  }

  lemma DigitsLength(n: nat)
    requires n < 0x1_0000_0000
    ensures |Digits(n)| <= 10
  {
    DigitsUpTo(n, 10, 10_000_000_000);
  }

  lemma {:induction false} DigitsUpTo(n: nat, k: nat, bound: nat)
    requires k >= 1 && bound == Pow10(k) && n < bound
    ensures |Digits(n)| <= k
    decreases k
  {
    if n >= 10 {
      assert bound == 10 * Pow10(k - 1) && Pow10(0) == 1;
      DigitsUpTo(n / 10, k - 1, Pow10(k - 1));
    }
  }

  function Pow10(k: nat): nat {
    if k == 0 then 1 else 10 * Pow10(k - 1)
  }

  // ----- The reply -----

  // The bytes of a text; it holds ASCII characters only.
  function Ascii(s: string): (r: seq<Byte>)
    ensures |r| == |s| && forall i :: 0 <= i < |s| && s[i] < 128 as char ==> r[i] == s[i] as int
  {
    seq(|s|, i requires 0 <= i < |s| => if s[i] < 128 as char then s[i] as int else 0x3f)
  }

  const VERSION := Ascii("SMX/1.1")
  const UNKNOWN := Ascii("\"unknown error code in SmxReply()\"")

  const BLANK: seq<Byte> := [SP]
  const CRLF: seq<Byte> := [CR, LF]

  datatype Body = NoBody | PlainBody | QuotedBody | FieldBody

  function BodyOf(reply: Int32): Body {
    if reply == IDENTITY then PlainBody
    else if reply == NOTICE then QuotedBody
    else if reply == RESULT || reply == RESULT_EVENT || reply == ERROR || reply == ERROR_EVENT
            || reply == SCRIPT_TERM || reply == SCRIPT_ABORT then FieldBody
    else NoBody
  }

  function RunId(run: Option<Run>): Uint32 { if run.Some? then run.value.runid else 0 }
  function RunState(run: Option<Run>): Int32 { if run.Some? then run.value.runstate else 0 }
  function ExitCode(run: Option<Run>): Int32 { if run.Some? then run.value.exitcode else 0 }

  function Decs(ns: seq<int>): (ws: seq<seq<Byte>>)
    ensures |ws| == |ns|
  {
    seq(|ns|, i requires 0 <= i < |ns| => Dec(ns[i]))
  }

  // The words before the message.
  function WordsOf(reply: Int32, id: Int32, run: Option<Run>): seq<seq<Byte>> {
    if reply == IDENTITY then Decs([reply, id]) + [VERSION]
    else if reply == STATUS then Decs([reply, id, RunState(run)])
    else if reply == ABORT || IsError(reply) then Decs([reply, id])
    else if reply == NOTICE then Decs([reply, 0])
    else if || reply == STATUS_CHANGE || reply == RESULT || reply == RESULT_EVENT
            || reply == ERROR || reply == ERROR_EVENT then
      Decs([reply, 0, RunId(run), RunState(run)])
    else if reply == SCRIPT_TERM then Decs([reply, 0, RunId(run)])
    else if reply == SCRIPT_ABORT || reply == TERMINATION then Decs([reply, 0, RunId(run), ExitCode(run)])
    else Decs([NOTICE, 0])
  }

  function Spaced(ws: seq<seq<Byte>>): seq<Byte> {
    if ws == [] then [] else ws[0] + (if |ws| > 1 then BLANK else []) + Spaced(ws[1..])
  }

  function Head(reply: Int32, id: Int32, run: Option<Run>): seq<Byte> {
    Spaced(WordsOf(reply, id, run))
    + (if !Known(reply) then BLANK + UNKNOWN else if BodyOf(reply).NoBody? then [] else BLANK)
  }

  // A C string: everything before the first 0 byte.
  function Cut(s: seq<Byte>): (t: seq<Byte>)
    ensures |t| <= |s| && t == s[..|t|] && (|t| < |s| ==> s[|t|] == 0) && forall i :: 0 <= i < |t| ==> t[i] != 0
  {
    if s == [] || s[0] == 0 then [] else [s[0]] + Cut(s[1..])
  }

  function Message(reply: Int32, msg: seq<Byte>): seq<Byte> {
    match BodyOf(reply)
    case NoBody => []
    case PlainBody => Cut(msg)
    case QuotedBody => Quoted(msg)
    case FieldBody => Field(msg)
  }

  // ----- What a reader of the line finds -----

  function FirstBlank(s: seq<Byte>): (k: nat)
    ensures k <= |s| && (k < |s| ==> s[k] == 0x20) && forall i :: 0 <= i < k ==> s[i] != 0x20
  {
    if s == [] || s[0] == 0x20 then 0 else 1 + FirstBlank(s[1..])
  }

  // The words of a line, split at each blank.
  function Split(s: seq<Byte>): seq<seq<Byte>>
    decreases |s|
  {
    if s == [] then []
    else
      var k := FirstBlank(s);
      [s[..k]] + if k < |s| then Split(s[k + 1..]) else []
  }

  ghost predicate NoBlank(w: seq<Byte>) {
    w != [] && forall i :: 0 <= i < |w| ==> w[i] != 0x20
  }

  lemma SplitWord(w: seq<Byte>, rest: seq<Byte>)
    requires NoBlank(w)
    ensures Split(w) == [w] && Split(w + [0x20] + rest) == [w] + Split(rest)
  {
    var s := w + [0x20] + rest;
    assert s[|w|] == 0x20 && forall i :: 0 <= i < |w| ==> s[i] == w[i];
    assert FirstBlank(s) == |w| && s[..|w|] == w && s[|w| + 1..] == rest;
    assert FirstBlank(w) == |w| && w[..|w|] == w;
  }

  lemma SpacedCons(w: seq<Byte>, ws: seq<seq<Byte>>)
    ensures Spaced([w]) == w && (ws != [] ==> Spaced([w] + ws) == w + [0x20] + Spaced(ws))
  {
    assert ([w] + ws)[1..] == ws && [w][1..] == [] && BLANK == [0x20];
  }

  ghost predicate AllNoBlank(ws: seq<seq<Byte>>) {
    forall i :: 0 <= i < |ws| ==> NoBlank(ws[i])
  }

  lemma {:induction false} SplitSpaced(ws: seq<seq<Byte>>, tail: seq<Byte>)
    requires ws != [] && AllNoBlank(ws) && (tail == [] || tail == BLANK)
    ensures Split(Spaced(ws) + tail) == ws
  {
    var w, rest := ws[0], ws[1..];
    assert ws == [w] + rest;
    SpacedCons(w, rest);
    if rest == [] {
      SplitWord(w, []);
      assert w + [] == w && w + [0x20] + [] == w + BLANK && Split([]) == [] && [w] + [] == [w];
    } else {
      assert AllNoBlank(rest);
      SplitSpaced(rest, tail);
      SplitWord(w, Spaced(rest) + tail);
      assert Spaced(ws) + tail == w + [0x20] + (Spaced(rest) + tail);
    }
  }

  // The words are these numbers.
  ghost predicate Numbers(ws: seq<seq<Byte>>, ns: seq<int>) {
    |ws| == |ns| && forall i :: 0 <= i < |ws| ==> Numeral(ws[i], ns[i])
  }

  /** The numbers of each reply; a reply without a run says 0 for what is known of the run. */
  ghost predicate HeadSays(ws: seq<seq<Byte>>, reply: Int32, id: Int32, run: Option<Run>) {
    var runid, state := if run.None? then 0 else run.value.runid, if run.None? then 0 else run.value.runstate;
    var exit := if run.None? then 0 else run.value.exitcode;
    match reply
    case 211 => |ws| == 3 && Numbers(ws[..2], [211, id]) && ws[2] == Ascii("SMX/1.1")
    case 231 => Numbers(ws, [231, id, state])
    case 534 => Numbers(ws, [534, 0, runid])
    case 511 => Numbers(ws, [511, 0])
    case _ =>
      if reply in {232, 401, 402, 421, 431, 432, 433, 434} then Numbers(ws, [reply, id])
      else if reply in {531, 532, 533, 536, 537} then Numbers(ws, [reply, 0, runid, state])
      else reply in {535, 538} ==> Numbers(ws, [reply, 0, runid, exit])
  }

  lemma DecLength(i: int)
    requires -0x8000_0000 <= i < 0x1_0000_0000
    ensures |Dec(i)| <= 11 && (i >= 0 ==> |Dec(i)| <= 10) && (0 <= i < 1000 ==> |Dec(i)| <= 3)
  {
    DigitsLength(if i < 0 then -i else i);
    if 0 <= i < 1000 { DigitsUpTo(i, 3, 1000) by { assert Pow10(3) == 10 * Pow10(2) == 1000; } }
  }

  predicate Word(w: seq<Byte>, k: nat) {
    |w| <= k && forall i :: 0 <= i < |w| ==> w[i] != 0
  }

  lemma {:induction false} SpacedLength(ws: seq<seq<Byte>>, k: nat)
    requires forall i :: 0 <= i < |ws| ==> Word(ws[i], k)
    ensures Word(Spaced(ws), (k + 1) * |ws|)
  {
    if ws != [] {
      assert forall i :: 0 <= i < |ws[1..]| ==> ws[1..][i] == ws[i + 1];
      SpacedLength(ws[1..], k);
      assert (k + 1) * |ws| == (k + 1) + (k + 1) * |ws[1..]|;
    }
  }

  ghost predicate Words32(ns: seq<int>) {
    forall i :: 0 <= i < |ns| ==> -0x8000_0000 <= ns[i] < 0x1_0000_0000
  }

  lemma DecsFit(ns: seq<int>)
    requires Words32(ns)
    ensures forall i :: 0 <= i < |ns| ==> Word(Decs(ns)[i], 11)
  {
    forall i | 0 <= i < |ns| ensures Word(Decs(ns)[i], 11) { DecLength(ns[i]); }
  }

  lemma WordsFit(reply: Int32, id: Int32, run: Option<Run>)
    ensures var ws := WordsOf(reply, id, run);
            |ws| <= 4 && (Known(reply) || |ws| == 2) && forall i :: 0 <= i < |ws| ==> Word(ws[i], 11)
  {
    DecsFit([reply, id]);
    DecsFit([reply, id, RunState(run)]);
    DecsFit([reply, 0]);
    DecsFit([reply, 0, RunId(run), RunState(run)]);
    DecsFit([reply, 0, RunId(run), ExitCode(run)]);
    DecsFit([reply, 0, RunId(run)]);
    DecsFit([NOTICE, 0]);
  }

  lemma HeadLength(reply: Int32, id: Int32, run: Option<Run>)
    ensures Word(Head(reply, id, run), 59)
  {
    WordsFit(reply, id, run);
    var ws := WordsOf(reply, id, run);
    SpacedLength(ws, 11);
    if Known(reply) {
      var tail := if BodyOf(reply).NoBody? then [] else BLANK;
      assert Word(tail, 1);
    } else {
      UnknownWord();
    }
  }

  lemma UnknownWord()
    ensures Word(BLANK + UNKNOWN, 35)
  {
    assert |UNKNOWN| == 34;
    assert forall b :: b in UNKNOWN ==> b != 0;
    assert forall i :: 0 <= i < |UNKNOWN| ==> UNKNOWN[i] in UNKNOWN;
  }

  lemma MessageLength(reply: Int32, msg: seq<Byte>)
    ensures |Message(reply, msg)| <= 2 * |msg| + 2
  {
    UnitsLength(msg);
    HexDecodes(msg);
  }

  lemma NumeralNoBlank(w: seq<Byte>, i: int)
    requires Numeral(w, i)
    ensures NoBlank(w)
  {
    if i < 0 { assert forall k :: 0 < k < |w| ==> w[k] == w[1..][k - 1]; }
  }

  lemma DecsSay(ns: seq<int>)
    ensures Numbers(Decs(ns), ns) && AllNoBlank(Decs(ns))
  {
    forall i | 0 <= i < |ns| ensures Numeral(Decs(ns)[i], ns[i]) && NoBlank(Decs(ns)[i]) {
      DecReads(ns[i]);
      NumeralNoBlank(Dec(ns[i]), ns[i]);
    }
  }

  lemma WordsSay(reply: Int32, id: Int32, run: Option<Run>)
    ensures var ws := WordsOf(reply, id, run); ws != [] && AllNoBlank(ws) && HeadSays(ws, reply, id, run)
  {
    if reply == 211 {
      DecsSay([reply, id]);
      assert WordsOf(reply, id, run)[..2] == Decs([reply, id]) && NoBlank(VERSION);
    } else if reply == 231 {
      DecsSay([reply, id, RunState(run)]);
    } else if reply == 511 {
      DecsSay([reply, 0]);
    } else if reply == 534 {
      DecsSay([reply, 0, RunId(run)]);
    } else if reply == 535 || reply == 538 {
      DecsSay([reply, 0, RunId(run), ExitCode(run)]);
    } else if 531 <= reply <= 537 {
      DecsSay([reply, 0, RunId(run), RunState(run)]);
    } else if Known(reply) {
      DecsSay([reply, id]);
    } else {
      DecsSay([NOTICE, 0]);
    }
  }

  // What the text of a line is, for each reply.
  ghost predicate TextSays(text: seq<Byte>, reply: Int32, msg: seq<Byte>) {
    if reply == 211 then text == Cut(msg)
    else if reply == 511 then text == Quoted(msg)
    else if 532 <= reply <= 537 then text == Field(msg)
    else text == []
  }

  ghost predicate HasText(reply: Int32) {
    reply == 211 || reply == 511 || 532 <= reply <= 537
  }

  ghost predicate IsReply(reply: Int32) {
    reply in {211, 231, 232, 401, 402, 421, 431, 432, 433, 434, 511} || 531 <= reply <= 538
  }

  /** A reader that splits the head of a reply at its blanks finds the numbers of that reply, and a
      blank behind them if a text follows; the head of an unknown reply is a notice. */
  ghost predicate IsHead(h: seq<Byte>, reply: Int32, id: Int32, run: Option<Run>) {
    if IsReply(reply)
    then HeadSays(Split(h), reply, id, run) && h != [] && (h[|h| - 1] == 0x20 <==> HasText(reply))
    else h == Ascii("511 0 ") + Ascii("\"unknown error code in SmxReply()\"")
  }

  lemma HeadReads(reply: Int32, id: Int32, run: Option<Run>)
    ensures IsHead(Head(reply, id, run), reply, id, run)
  {
    if IsReply(reply) {
      var ws := WordsOf(reply, id, run);
      WordsSay(reply, id, run);
      HeadTail(reply, id, run);
      SplitSpaced(ws, if HasText(reply) then BLANK else []);
      LastOfSpaced(ws);
    } else {
      UnknownHead(reply, id, run);
    }
  }

  lemma HeadTail(reply: Int32, id: Int32, run: Option<Run>)
    requires IsReply(reply)
    ensures Head(reply, id, run) == Spaced(WordsOf(reply, id, run)) + if HasText(reply) then BLANK else []
  {
  }

  lemma {:induction false} LastOfSpaced(ws: seq<seq<Byte>>)
    requires ws != [] && AllNoBlank(ws)
    ensures var s := Spaced(ws); s != [] && s[|s| - 1] != 0x20
  {
    assert ws == [ws[0]] + ws[1..];
    SpacedCons(ws[0], ws[1..]);
    if |ws| > 1 {
      assert AllNoBlank(ws[1..]);
      LastOfSpaced(ws[1..]);
    }
  }

  lemma UnknownHead(reply: Int32, id: Int32, run: Option<Run>)
    requires !IsReply(reply)
    ensures Head(reply, id, run) == Ascii("511 0 ") + UNKNOWN
  {
    NoticeWords();
    assert WordsOf(reply, id, run) == Decs([511, 0]);
    assert Spaced(Decs([511, 0])) + (BLANK + UNKNOWN) == Spaced(Decs([511, 0])) + BLANK + UNKNOWN;
  }

  lemma NoticeWords()
    ensures Spaced(Decs([511, 0])) + BLANK == Ascii("511 0 ")
  {
    SpacedCons(Dec(511), [Dec(0)]);
    SpacedCons(Dec(0), []);
    assert Decs([511, 0]) == [Dec(511)] + [Dec(0)];
    assert Digits(511 / 10) == [0x35, 0x31];
  }

  method Strlen(buf: array<Byte>, ghost end: nat) returns (n: nat)
    requires end < buf.Length && buf[end] == 0
    ensures n <= end && buf[n] == 0 && buf[..n] == Cut(buf[..end])
  {
    n := 0;
    while buf[n] != 0
      invariant n <= end && forall i :: 0 <= i < n ==> buf[i] != 0
      decreases end - n
    {
      n := n + 1;
    }
    var c := Cut(buf[..end]);
    assert |c| < end ==> buf[..end][|c|] == buf[|c|];
    assert forall i :: 0 <= i < |c| ==> buf[i] == c[i];
  }

  method PutMessage(line: array<Byte>, n: nat, reply: Int32, msg: seq<Byte>) returns (p: nat)
    requires n + 2 * |msg| + 7 <= line.Length
    modifies line
    ensures n <= p <= n + 2 * |msg| + 2 && line[..p] == old(line[..n]) + Message(reply, msg) && line[p] == 0
  {
    MessageLength(reply, msg);
    p := n;
    line[p] := 0;
    assert line[..n] == old(line[..n]);
    match BodyOf(reply) {
      case NoBody =>
      case PlainBody =>
        p := Put(line, p, Cut(msg));
        line[p] := 0;
      case QuotedBody =>
        p := AppendQuoted(line, p, msg);
      case FieldBody =>
        p := AppendField(line, p, msg);
    }
  }

  // The line sent is the head and the text, up to the first 0 byte, and CR LF.
  ghost predicate Sends(out: seq<Byte>, head: seq<Byte>, text: seq<Byte>) {
    && out == Cut(head + text) + [0x0d, 0x0a]
    && (0 !in text ==> out == head + text + [0x0d, 0x0a])
  }

  lemma ReplySends(reply: Int32, id: Int32, run: Option<Run>, msg: seq<Byte>)
    ensures var head, text := Head(reply, id, run), Message(reply, msg);
            Sends(Cut(head + text) + CRLF, head, text) && (reply != 511 || 0 !in msg ==> 0 !in text)
  {
    var head, text := Head(reply, id, run), Message(reply, msg);
    HeadLength(reply, id, run);
    if 0 !in text { CutAll(head + text); }
    if reply != 511 || 0 !in msg { MessageNonZero(reply, msg); }
  }

  lemma CutAll(s: seq<Byte>)
    requires forall i :: 0 <= i < |s| ==> s[i] != 0
    ensures Cut(s) == s
  {
    assert |Cut(s)| == |s|;
  }

  /** Every store stays inside the 80 + 2 * msglen bytes, for every reply code, number, run and
      message, and the line sent is the head, the encoded message and CR LF. */
  method BuildReply(reply: Int32, id: Int32, run: Option<Run>, msg: seq<Byte>)
    returns (out: seq<Byte>, ghost head: seq<Byte>, ghost text: seq<Byte>)
    ensures |out| + 1 <= 80 + 2 * |msg| && Sends(out, head, text)
    ensures IsHead(head, reply, id, run) && TextSays(text, reply, msg)
    ensures reply != 511 || 0 !in msg ==> 0 !in text
  {
    head, text := Head(reply, id, run), Message(reply, msg);
    out := FillLine(reply, id, run, msg);
    HeadReads(reply, id, run);
    ReplySends(reply, id, run, msg);
  }

  method FillLine(reply: Int32, id: Int32, run: Option<Run>, msg: seq<Byte>) returns (out: seq<Byte>)
    ensures out == Cut(Head(reply, id, run) + Message(reply, msg)) + CRLF
    ensures |out| + 1 <= 80 + 2 * |msg|
  {
    var line := new Byte[80 + 2 * |msg|](_ => 0);
    HeadLength(reply, id, run);
    var p := Put(line, 0, Head(reply, id, run));
    assert line[..p] == Head(reply, id, run);
    p := PutMessage(line, p, reply, msg);
    var n := Strlen(line, p);
    p := Put(line, n, CRLF);
    line[p] := 0;
    out := line[..p];
  }

  // Only a notice can be cut short: by a 0 byte in its message.
  lemma NothingCut(reply: Int32, id: Int32, run: Option<Run>, msg: seq<Byte>)
    requires reply == NOTICE ==> forall i :: 0 <= i < |msg| ==> msg[i] != 0
    ensures Cut(Head(reply, id, run) + Message(reply, msg)) == Head(reply, id, run) + Message(reply, msg)
  {
    HeadLength(reply, id, run);
    MessageNonZero(reply, msg);
    CutAll(Head(reply, id, run) + Message(reply, msg));
  }

  lemma MessageNonZero(reply: Int32, msg: seq<Byte>)
    requires reply == NOTICE ==> forall i :: 0 <= i < |msg| ==> msg[i] != 0
    ensures forall i :: 0 <= i < |Message(reply, msg)| ==> Message(reply, msg)[i] != 0
  {
    if BodyOf(reply).QuotedBody? || (BodyOf(reply).FieldBody? && AllQuotable(msg)) {
      UnitsNonZero(msg);
    } else {
      HexDecodes(msg);
    }
  }

  lemma {:induction false} UnitsNonZero(s: seq<Byte>)
    requires forall i :: 0 <= i < |s| ==> s[i] != 0
    ensures forall i :: 0 <= i < |Units(s)| ==> Units(s)[i] != 0
  {
    if s != [] { UnitsNonZero(s[1..]); }
  }
}
