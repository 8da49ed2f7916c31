/**
 The quoted and hexadecimal strings of the SMX protocol (tnmSmx.c; section 5.1 of RFC 2593bis).
 Bytes are numbers below 256; char is signed in the original, so bytes from 128 on are negative there.
 */
module SmxCodec {
  import opened Vectors

  type Byte = b: int | 0 <= b < 256

  const BS: Byte := 0x5c
  const DQ: Byte := 0x22
  const TAB: Byte := 0x09
  const LF: Byte := 0x0a
  const FF: Byte := 0x0c
  const CR: Byte := 0x0d
  const SP: Byte := 0x20
  const LOW_T: Byte := 0x74
  const LOW_N: Byte := 0x6e
  const LOW_R: Byte := 0x72

  predicate VChar(b: Byte) { 0x21 <= b <= 0x7e }
  predicate Wsp(b: Byte) { b == SP || b == TAB }

  // ----- Encoding -----

  // The encoder writes \r for a form feed, and a carriage return as it is.
  function Unit(b: Byte): seq<Byte> {
    if b == BS then [BS, BS]
    else if b == TAB then [BS, LOW_T]
    else if b == LF then [BS, LOW_N]
    else if b == FF then [BS, LOW_R]
    else if b == DQ then [BS, DQ]
    else [b]
  }

  function Units(s: seq<Byte>): seq<Byte> {
    if s == [] then [] else Unit(s[0]) + Units(s[1..])
  }

  function Quoted(s: seq<Byte>): seq<Byte> {
    [DQ] + Units(s) + [DQ]
  }

  function HexDigit(d: nat): Byte
    requires d < 16
  {
    if d < 10 then 0x30 + d else 0x57 + d
  }

  // A negative char prints as eight digits, of which the next byte leaves the leading ff.
  function HexPair(b: Byte): seq<Byte> {
    if b < 128 then [HexDigit(b / 16), HexDigit(b % 16)] else [HexDigit(15), HexDigit(15)]
  }

  function Hex(s: seq<Byte>): seq<Byte> {
    if s == [] then [] else HexPair(s[0]) + Hex(s[1..])
  }

  predicate Quotable(b: Byte) {
    VChar(b) || Wsp(b) || b == TAB || b == CR || b == LF
  }

  predicate AllQuotable(s: seq<Byte>) {
    forall i :: 0 <= i < |s| ==> Quotable(s[i])
  }

  function Field(s: seq<Byte>): seq<Byte> {
    if AllQuotable(s) then Quoted(s) else Hex(s)
  }

  // ----- Decoding -----

  function Unescape(c: Byte): Byte {
    if c == LOW_T then TAB else if c == LOW_N then LF else if c == LOW_R then CR else c
  }

  datatype Parsed = Parsed(out: seq<Byte>, used: nat)

  predicate Continues(c: Byte, last: Byte) {
    (VChar(c) || Wsp(c)) && (c != DQ || last == BS)
  }

  function Stored(c: Byte, last: Byte): Byte {
    if last == BS then Unescape(c) else c
  }

  predicate Kept(c: Byte, last: Byte) {
    Stored(c, last) != BS || last == BS
  }

  /** Reads up to the closing quote. A backslash counts as escaping what follows even if it was
      itself escaped. */
  function Scan(t: seq<Byte>, last: Byte): (r: Option<Parsed>)
    ensures r.Some? ==> |r.value.out| < r.value.used <= |t|
  {
    if t == [] then None
    else if !Continues(t[0], last) then (if t[0] == DQ then Some(Parsed([], 1)) else None)
    else
      match Scan(t[1..], Stored(t[0], last))
      case None => None
      case Some(p) => Some(Parsed((if Kept(t[0], last) then [Stored(t[0], last)] else []) + p.out, 1 + p.used))
  }

  predicate IsHex(c: Byte) {
    0x30 <= c <= 0x39 || 0x41 <= c <= 0x46 || 0x61 <= c <= 0x66
  }

  function HexValue(c: Byte): nat
    requires IsHex(c)
    ensures HexValue(c) < 16
  {
    if c <= 0x39 then c - 0x30 else if c <= 0x46 then c - 0x37 else c - 0x57
  }

  function HexBytes(t: seq<Byte>): (out: seq<Byte>)
    requires |t| % 2 == 0 && forall i :: 0 <= i < |t| ==> IsHex(t[i])
    ensures 2 * |out| == |t|
  {
    if t == [] then [] else [16 * HexValue(t[0]) + HexValue(t[1])] + HexBytes(t[2..])
  }

  function HexScan(t: seq<Byte>): Option<seq<Byte>> {
    if t == [] || |t| % 2 == 1 || exists i :: 0 <= i < |t| && !IsHex(t[i]) then None else Some(HexBytes(t))
  }

  // A field at the end of a line.
  function ParseField(t: seq<Byte>): Option<seq<Byte>> {
    if t != [] && t[0] == DQ
    then match Scan(t[1..], 0) case None => None case Some(p) => Some(p.out)
    else HexScan(t)
  }

  // ----- The round trip -----

  // Characters that are written as themselves and mean themselves after a backslash.
  predicate Ordinary(c: Byte) {
    (VChar(c) || c == SP) && c != BS && c != DQ && c != LOW_T && c != LOW_N && c != LOW_R
  }

  predicate Readable(b: Byte) {
    VChar(b) || Wsp(b) || b == LF
  }

  /** What a quoted string can carry: printable characters, blanks, tabs and newlines, where a
      backslash is followed by an ordinary character. */
  predicate Faithful(s: seq<Byte>) {
    forall i :: 0 <= i < |s| ==> FaithfulAt(s, i)
  }

  predicate FaithfulAt(s: seq<Byte>, i: nat)
    requires i < |s|
  {
    Readable(s[i]) && (s[i] == BS ==> i + 1 < |s| && Ordinary(s[i + 1]))
  }

  // Faithful, read after the character last.
  predicate FaithfulAfter(s: seq<Byte>, last: Byte) {
    Faithful(s) && (last == BS ==> s != [] && Ordinary(s[0]))
  }

  lemma FaithfulCons(s: seq<Byte>)
    requires s != []
    ensures Faithful(s) <==> Readable(s[0]) && FaithfulAfter(s[1..], s[0])
  {
    if Faithful(s) {
      assert FaithfulAt(s, 0);
      forall i | 0 <= i < |s[1..]| ensures FaithfulAt(s[1..], i) { assert FaithfulAt(s, i + 1); }
    }
    if Readable(s[0]) && FaithfulAfter(s[1..], s[0]) {
      forall i | 0 <= i < |s| ensures FaithfulAt(s, i) {
        if i > 0 { assert FaithfulAt(s[1..], i - 1); }
      }
    }
  }

  lemma ScanStep(t: seq<Byte>, last: Byte, c: Byte)
    ensures Continues(c, last) ==>
              var out := if Kept(c, last) then [Stored(c, last)] else [];
              Scan([c] + t, last) ==
                match Scan(t, Stored(c, last)) case None => None case Some(p) => Some(Parsed(out + p.out, 1 + p.used))
    ensures !Continues(c, last) ==> Scan([c] + t, last) == if c == DQ then Some(Parsed([], 1)) else None
  {
    assert ([c] + t)[1..] == t;
  }

  // What follows a unit is scanned after the unit's own byte; the unit yields one byte, or two after a backslash.
  lemma ScanUnit(b: Byte, last: Byte, t: seq<Byte>)
    ensures Scan(Unit(b) + t, last) == UnitResult(b, last, t)
  {
    if |Unit(b)| == 2 {
      assert Unit(b) + t == [BS] + ([Unit(b)[1]] + t);
      ScanEscape(Unit(b)[1], last, t);
    } else {
      ScanStep(t, last, b);
    }
  }

  lemma ScanEscape(c: Byte, last: Byte, t: seq<Byte>)
    requires VChar(c)
    ensures var out := if last == BS then [BS, Unescape(c)] else [Unescape(c)];
            Scan([BS] + ([c] + t), last) ==
              match Scan(t, Unescape(c)) case None => None case Some(p) => Some(Parsed(out + p.out, 2 + p.used))
  {
    var d := Unescape(c);
    ScanStep([c] + t, last, BS);
    ScanStep(t, BS, c);
    if Scan(t, d).Some? {
      var o := Scan(t, d).value.out;
      assert [BS] + ([d] + o) == [BS, d] + o && [] + ([d] + o) == [d] + o;
    }
  }

  function UnitResult(b: Byte, last: Byte, t: seq<Byte>): Option<Parsed> {
    if |Unit(b)| == 2 then
      var d := Unescape(Unit(b)[1]);
      match Scan(t, d)
      case None => None
      case Some(p) => Some(Parsed((if last == BS then [BS, d] else [d]) + p.out, 2 + p.used))
    else if Continues(b, last) then
      match Scan(t, Stored(b, last))
      case None => None
      case Some(p) => Some(Parsed([Stored(b, last)] + p.out, 1 + p.used))
    else None
  }

  // A readable byte comes back as itself, unless it follows a backslash and is not ordinary.
  lemma UnitFaithful(b: Byte, last: Byte, t: seq<Byte>)
    requires Readable(b) && (last == BS ==> Ordinary(b))
    ensures UnitResult(b, last, t) == match Scan(t, b)
                                      case None => None
                                      case Some(p) => Some(Parsed([b] + p.out, |Unit(b)| + p.used))
  {
  }

  function Tail(s: seq<Byte>, rest: seq<Byte>): seq<Byte> {
    Units(s) + ([DQ] + rest)
  }

  lemma TailCons(s: seq<Byte>, rest: seq<Byte>)
    requires s != []
    ensures Tail(s, rest) == Unit(s[0]) + Tail(s[1..], rest)
  {
  }

  lemma {:induction false} ScanFaithful(s: seq<Byte>, last: Byte, rest: seq<Byte>)
    requires FaithfulAfter(s, last)
    ensures Scan(Tail(s, rest), last) == Some(Parsed(s, |Units(s)| + 1))
    decreases |s|
  {
    if s == [] {
      assert Tail(s, rest) == [DQ] + rest;
      ScanStep(rest, last, DQ);
    } else {
      FaithfulCons(s);
      TailCons(s, rest);
      ScanUnit(s[0], last, Tail(s[1..], rest));
      UnitFaithful(s[0], last, Tail(s[1..], rest));
      ScanFaithful(s[1..], s[0], rest);
      assert s == [s[0]] + s[1..] && |Units(s)| == |Unit(s[0])| + |Units(s[1..])|;
    }
  }

  // Every byte of the source yields at least one byte of the result.
  lemma {:induction false} ScanLength(s: seq<Byte>, last: Byte, rest: seq<Byte>)
    ensures var r := Scan(Tail(s, rest), last); r.Some? ==> |r.value.out| >= |s|
    decreases |s|
  {
    if s != [] {
      TailCons(s, rest);
      ScanUnit(s[0], last, Tail(s[1..], rest));
      ScanLength(s[1..], if |Unit(s[0])| == 2 then Unescape(Unit(s[0])[1]) else Stored(s[0], last), rest);
    }
  }

  lemma {:induction false} ScanOnlyFaithful(s: seq<Byte>, last: Byte, rest: seq<Byte>)
    requires Scan(Tail(s, rest), last).Some? && Scan(Tail(s, rest), last).value.out == s
    ensures FaithfulAfter(s, last)
    decreases |s|
  {
    if s == [] {
      assert Tail(s, rest) == [DQ] + rest;
      ScanStep(rest, last, DQ);
    } else {
      var b, t := s[0], Tail(s[1..], rest);
      TailCons(s, rest);
      ScanUnit(b, last, t);
      ScanLength(s[1..], BS, rest);
      var r := Scan(Tail(s, rest), last).value.out;
      assert r[0] == b && r[1..] == s[1..];
      // Only a byte that came back as itself, alone, leaves the rest to be scanned after it.
      assert Scan(t, b).Some? && Scan(t, b).value.out == r[1..];
      ScanOnlyFaithful(s[1..], b, rest);
      FaithfulCons(s);
    }
  }

  /** A quoted string parses back to its source, and up to its own closing quote, if and only if the
      source is faithful. */
  lemma QuotedRoundTrip(s: seq<Byte>, rest: seq<Byte>)
    ensures Scan((Quoted(s) + rest)[1..], 0) == Some(Parsed(s, |Units(s)| + 1)) <==> Faithful(s)
  {
    assert (Quoted(s) + rest)[1..] == Tail(s, rest);
    if Faithful(s) {
      ScanFaithful(s, 0, rest);
    } else if Scan(Tail(s, rest), 0).Some? && Scan(Tail(s, rest), 0).value.out == s {
      ScanOnlyFaithful(s, 0, rest);
    }
  }

  // 255 is the only byte from 128 on that the hexadecimal form carries.
  predicate HexSafe(s: seq<Byte>) {
    forall i :: 0 <= i < |s| ==> s[i] < 128 || s[i] == 255
  }

  lemma {:induction false} HexDecodes(s: seq<Byte>)
    ensures |Hex(s)| == 2 * |s| && forall i :: 0 <= i < |Hex(s)| ==> IsHex(Hex(s)[i])
    ensures HexBytes(Hex(s)) == seq(|s|, i requires 0 <= i < |s| => if s[i] < 128 then s[i] else 255)
  {
    if s != [] {
      HexDecodes(s[1..]);
      assert Hex(s)[2..] == Hex(s[1..]);
      var b := if s[0] < 128 then s[0] else 255;
      assert 16 * HexValue(Hex(s)[0]) + HexValue(Hex(s)[1]) == b;
    }
  }

  lemma HexRoundTrip(s: seq<Byte>)
    requires s != []
    ensures HexScan(Hex(s)) == Some(s) <==> HexSafe(s)
  {
    HexDecodes(s);
    var d := HexBytes(Hex(s));
    assert |d| == |s|;
    if HexSafe(s) {
      assert d == s;
    } else {
      var i :| 0 <= i < |s| && !(s[i] < 128 || s[i] == 255);
      assert d[i] != s[i];
    }
  }

  /** An encoded field parses back to its source if and only if the source is faithful where it is
      quoted, and hex safe where it is not. */
  lemma FieldRoundTrip(s: seq<Byte>)
    ensures ParseField(Field(s)) == Some(s) <==> if AllQuotable(s) then Faithful(s) else HexSafe(s)
  {
    if AllQuotable(s) { QuotedField(s); } else { HexField(s); }
  }

  /** A field is quoted, and so starts with a double quote, if and only if it consists of printable
      characters, blanks, tabs, newlines and carriage returns. */
  lemma FieldForm(s: seq<Byte>)
    ensures Field(s) != [] && Field(s)[0] == 0x22 <==>
              forall i :: 0 <= i < |s| ==> 0x20 <= s[i] <= 0x7e || s[i] == 9 || s[i] == 10 || s[i] == 13
  {
    HexDecodes(s);
    if AllQuotable(s) {
      assert forall i :: 0 <= i < |s| ==> Quotable(s[i]);
    } else {
      assert exists i :: 0 <= i < |s| && !Quotable(s[i]);
      assert IsHex(Hex(s)[0]);
    }
  }

  lemma QuotedTail(b: Byte, s: seq<Byte>, rest: seq<Byte>)
    ensures (Quoted([b] + s) + rest)[1..] == Unit(b) + Tail(s, rest)
  {
    assert ([b] + s)[1..] == s;
    assert (Quoted([b] + s) + rest)[1..] == Tail([b] + s, rest);
    TailCons([b] + s, rest);
  }

  /** What happens to the two bytes that the encoder confuses: a form feed in front of a faithful string
      is read as a carriage return, and a string that starts with a carriage return is refused. */
  lemma FeedReadsAsReturn(s: seq<Byte>, rest: seq<Byte>)
    requires Faithful(s)
    ensures Scan((Quoted([0x0c] + s) + rest)[1..], 0) == Some(Parsed([0x0d] + s, |Units(s)| + 3))
  {
    QuotedTail(0x0c, s, rest);
    ScanFaithful(s, 0x0d, rest);
    FeedUnit(Tail(s, rest));
  }

  lemma FeedUnit(t: seq<Byte>)
    ensures Scan(Unit(0x0c) + t, 0) ==
              match Scan(t, 0x0d) case None => None case Some(p) => Some(Parsed([0x0d] + p.out, 2 + p.used))
  {
    assert Unit(0x0c) + t == [0x5c] + ([0x72] + t);
    ScanEscape(0x72, 0, t);
  }

  lemma ReturnRefused(s: seq<Byte>, rest: seq<Byte>)
    ensures Scan((Quoted([0x0d] + s) + rest)[1..], 0) == None
  {
    QuotedTail(0x0d, s, rest);
    ScanStep(Tail(s, rest), 0, 0x0d);
  }

  lemma QuotedField(s: seq<Byte>)
    requires AllQuotable(s)
    ensures ParseField(Field(s)) == Some(s) <==> Faithful(s)
  {
    assert Quoted(s) + [] == Quoted(s);
    QuotedRoundTrip(s, []);
    if !Faithful(s) && Scan(Quoted(s)[1..], 0).Some? && Scan(Quoted(s)[1..], 0).value.out == s {
      assert Quoted(s)[1..] == Tail(s, []);
      ScanOnlyFaithful(s, 0, []);
    }
  }

  lemma HexField(s: seq<Byte>)
    requires !AllQuotable(s)
    ensures ParseField(Field(s)) == Some(s) <==> HexSafe(s)
  {
    HexRoundTrip(s);
    HexDecodes(s);
    assert IsHex(Hex(s)[0]);
  }

  // A backslash at the end, a backslash before a t, a carriage return, and a byte of 128 do not survive.
  lemma LostInTransit()
    ensures ParseField(Field([BS])) != Some([BS])
    ensures ParseField(Field([BS, LOW_T])) != Some([BS, LOW_T])
    ensures ParseField(Field([CR])) != Some([CR])
    ensures ParseField(Field([128])) != Some([128])
  {
    FieldRoundTrip([BS]);
    assert !FaithfulAt([BS], 0);
    FieldRoundTrip([BS, LOW_T]);
    assert !FaithfulAt([BS, LOW_T], 0);
    FieldRoundTrip([CR]);
    assert !FaithfulAt([CR], 0);
    FieldRoundTrip([128]);
    assert !Quotable([128 as Byte][0]);
    assert !HexSafe([128]) by { assert [128 as Byte][0] == 128; }
  }
}
