/**
 The SMX encoders and decoders at work on their buffers (tnmSmx.c). A C string in a buffer ends
 at its first 0 byte; the decoders overwrite the string they read.
 */
module SmxBuffers {
  import opened Vectors
  import opened SmxCodec

  // ----- Encoders -----

  lemma {:induction false} UnitsSnoc(s: seq<Byte>, b: Byte)
    ensures Units(s + [b]) == Units(s) + Unit(b)
  {
    if s == [] {
      assert s + [b] == [b] && [b][1..] == [];
    } else {
      assert (s + [b])[1..] == s[1..] + [b];
      UnitsSnoc(s[1..], b);
    }
  }

  lemma {:induction false} HexSnoc(s: seq<Byte>, b: Byte)
    ensures Hex(s + [b]) == Hex(s) + HexPair(b)
  {
    if s == [] {
      assert s + [b] == [b] && [b][1..] == [];
    } else {
      assert (s + [b])[1..] == s[1..] + [b];
      HexSnoc(s[1..], b);
    }
  }

  lemma {:induction false} UnitsLength(s: seq<Byte>)
    ensures |s| <= |Units(s)| <= 2 * |s|
  {
    if s != [] { UnitsLength(s[1..]); }
  }

  lemma UnitsFit(s: seq<Byte>, i: nat)
    requires i < |s|
    ensures Units(s[..i + 1]) == Units(s[..i]) + Unit(s[i]) && |Units(s[..i + 1])| <= |Units(s)|
  {
    assert s[..i + 1] == s[..i] + [s[i]];
    UnitsSnoc(s[..i], s[i]);
    assert s == s[..i + 1] + s[i + 1..];
    UnitsAppend(s[..i + 1], s[i + 1..]);
  }

  lemma {:induction false} UnitsAppend(a: seq<Byte>, b: seq<Byte>)
    ensures Units(a + b) == Units(a) + Units(b)
  {
    if a == [] {
      assert a + b == b;
    } else {
      assert (a + b)[1..] == a[1..] + b;
      UnitsAppend(a[1..], b);
    }
  }

  // Writes the bytes of text at p.
  method Put(dst: array<Byte>, p: nat, text: seq<Byte>) returns (q: nat)
    requires p + |text| <= dst.Length
    modifies dst
    ensures q == p + |text| && dst[..q] == old(dst[..p]) + text
    ensures forall j :: q <= j < dst.Length ==> dst[j] == old(dst[j])
  {
    q := p;
    while q < p + |text|
      invariant p <= q <= p + |text| && dst[..p] == old(dst[..p])
      invariant forall j :: p <= j < q ==> dst[j] == text[j - p]
      invariant forall j :: q <= j < dst.Length ==> dst[j] == old(dst[j])
    {
      dst[q] := text[q - p];
      q := q + 1;
    }
    assert dst[..q] == dst[..p] + text;
  }

  method PutUnit(dst: array<Byte>, p: nat, b: Byte) returns (q: nat)
    requires p + |Unit(b)| <= dst.Length
    modifies dst
    ensures q == p + |Unit(b)| && dst[..q] == old(dst[..p]) + Unit(b)
  {
    if b == BS {
      q := Put(dst, p, [BS, BS]);
    } else if b == TAB {
      q := Put(dst, p, [BS, LOW_T]);
    } else if b == LF {
      q := Put(dst, p, [BS, LOW_N]);
    } else if b == FF {
      q := Put(dst, p, [BS, LOW_R]);
    } else if b == DQ {
      q := Put(dst, p, [BS, DQ]);
    } else {
      q := Put(dst, p, [b]);
    }
  }

  method PutUnits(dst: array<Byte>, n: nat, src: seq<Byte>) returns (p: nat)
    requires n + |Units(src)| <= dst.Length
    modifies dst
    ensures p == n + |Units(src)| && dst[..p] == old(dst[..n]) + Units(src)
  {
    p := n;
    ghost var pre := dst[..n];
    for i := 0 to |src|
      invariant p == n + |Units(src[..i])| <= n + |Units(src)|
      invariant dst[..p] == pre + Units(src[..i])
    {
      UnitsFit(src, i);
      p := PutUnit(dst, p, src[i]);
      Assoc(pre, Units(src[..i]), Unit(src[i]));
    }
    assert src[..|src|] == src;
  }

  method AppendQuoted(dst: array<Byte>, n: nat, src: seq<Byte>) returns (p: nat)
    requires n + |Quoted(src)| < dst.Length
    modifies dst
    ensures p == n + |Quoted(src)| && dst[..p] == old(dst[..n]) + Quoted(src) && dst[p] == 0
  {
    ghost var pre := dst[..n];
    p := Put(dst, n, [DQ]);
    p := PutUnits(dst, p, src);
    p := Put(dst, p, [DQ]);
    dst[p] := 0;
    assert dst[..p] == pre + [DQ] + Units(src) + [DQ];
    assert pre + [DQ] + Units(src) + [DQ] == pre + Quoted(src);
  }

  // What sprintf prints for one char.
  function Printed(b: Byte): seq<Byte> {
    var low := [HexDigit(b / 16), HexDigit(b % 16)];
    if b < 128 then low else seq(6, _ => HexDigit(15)) + low
  }

  // The next char is printed two places on, over all but the first two digits.
  method PrintChar(dst: array<Byte>, p: nat, b: Byte)
    requires p + 9 <= dst.Length
    modifies dst
    ensures dst[..p + 2] == old(dst[..p]) + HexPair(b)
  {
    var q := Put(dst, p, Printed(b) + [0]);
    assert (Printed(b) + [0])[..2] == HexPair(b);
    assert dst[..p + 2] == dst[..q][..p + 2];
  }

  method AppendHex(dst: array<Byte>, n: nat, src: seq<Byte>) returns (p: nat)
    requires n + 2 * |src| + 7 <= dst.Length
    modifies dst
    ensures p == n + |Hex(src)| == n + 2 * |src| && dst[..p] == old(dst[..n]) + Hex(src) && dst[p] == 0
  {
    p := n;
    ghost var pre := dst[..n];
    HexDecodes(src);
    for i := 0 to |src|
      invariant p == n + 2 * i && dst[..p] == pre + Hex(src[..i])
    {
      HexSnoc(src[..i], src[i]);
      assert src[..i + 1] == src[..i] + [src[i]];
      PrintChar(dst, p, src[i]);
      p := p + 2;
      Assoc(pre, Hex(src[..i]), HexPair(src[i]));
    }
    assert src[..|src|] == src;
    dst[p] := 0;
    assert dst[..p] == pre + Hex(src);
  }

  method AppendField(dst: array<Byte>, n: nat, src: seq<Byte>) returns (p: nat)
    requires n + 2 * |src| + 7 <= dst.Length
    modifies dst
    ensures p == n + |Field(src)| < dst.Length && p <= n + 2 * |src| + 2
    ensures dst[..p] == old(dst[..n]) + Field(src) && dst[p] == 0
  {
    var i := 0;
    while i < |src| && Quotable(src[i])
      invariant 0 <= i <= |src| && forall j :: 0 <= j < i ==> Quotable(src[j])
    {
      i := i + 1;
    }
    UnitsLength(src);
    if i == |src| {
      p := AppendQuoted(dst, n, src);
    } else {
      p := AppendHex(dst, n, src);
    }
  }

  // ----- Decoders -----

  datatype Span = Span(dst: nat, len: nat, rest: nat)

  // nul is the end of the string that starts at line.
  ghost predicate CString(s: seq<Byte>, line: nat, nul: nat) {
    line <= nul < |s| && s[nul] == 0 && forall i :: line <= i < nul ==> s[i] != 0
  }

  // The buffer holds out, terminated, at the place the span tells.
  ghost predicate Holds(s: seq<Byte>, p: Span, out: seq<Byte>) {
    p.len == |out| && p.dst + p.len < |s| && s[p.dst..p.dst + p.len] == out && s[p.dst + p.len] == 0
  }

  ghost function Blanks(s: seq<Byte>): (n: nat)
    ensures n <= |s| && (n < |s| ==> s[n] != 0x20 && s[n] != 0x09)
    ensures forall i :: 0 <= i < n ==> s[i] == 0x20 || s[i] == 0x09
  {
    if s != [] && Wsp(s[0]) then 1 + Blanks(s[1..]) else 0
  }

  // Where the field starts: behind the blanks and tabs.
  ghost function Start(s: seq<Byte>, line: nat, nul: nat): (w: nat)
    requires CString(s, line, nul)
    ensures line <= w <= nul && s[w] != 0x20 && s[w] != 0x09
    ensures forall i :: line <= i < w ==> s[i] == 0x20 || s[i] == 0x09
  {
    line + Blanks(s[line..nul])
  }

  method SkipBlanks(buf: array<Byte>, line: nat, ghost nul: nat) returns (ptr: nat)
    requires CString(buf[..], line, nul)
    ensures ptr == Start(buf[..], line, nul)
  {
    ptr := line;
    while buf[ptr] == SP || buf[ptr] == TAB
      invariant line <= ptr <= nul
      invariant Blanks(buf[line..nul]) == ptr - line + Blanks(buf[ptr..nul])
      decreases nul - ptr
    {
      assert buf[ptr..nul][1..] == buf[ptr + 1..nul];
      ptr := ptr + 1;
    }
    assert buf[..][line..nul] == buf[line..nul];
  }

  // A scan that has already yielded out from the first used bytes.
  function After(out: seq<Byte>, used: nat, r: Option<Parsed>): Option<Parsed> {
    match r case None => None case Some(p) => Some(Parsed(out + p.out, used + p.used))
  }

  lemma AfterAfter(a: seq<Byte>, m: nat, b: seq<Byte>, n: nat, r: Option<Parsed>)
    ensures After(a, m, After(b, n, r)) == After(a + b, m + n, r)
  {
    if r.Some? { assert a + (b + r.value.out) == (a + b) + r.value.out; }
  }

  function Yield(c: Byte, last: Byte): seq<Byte> {
    if Kept(c, last) then [Stored(c, last)] else []
  }

  lemma AfterStep(out: seq<Byte>, used: nat, t: seq<Byte>, last: Byte)
    requires t != [] && Continues(t[0], last)
    ensures After(out, used, Scan(t, last))
         == After(out + Yield(t[0], last), used + 1, Scan(t[1..], Stored(t[0], last)))
  {
    AfterAfter(out, used, Yield(t[0], last), 1, Scan(t[1..], Stored(t[0], last)));
  }

  method UnescapeInPlace(buf: array<Byte>, ptr: nat)
    requires ptr < buf.Length
    modifies buf
    ensures buf[..] == old(buf[..])[ptr := Unescape(old(buf[ptr]))]
  {
    if buf[ptr] == LOW_T {
      buf[ptr] := TAB;
    } else if buf[ptr] == LOW_N {
      buf[ptr] := LF;
    } else if buf[ptr] == LOW_R {
      buf[ptr] := CR;
    }
  }

  // Reads the byte at ptr and writes it, unless it is a new backslash, behind the len bytes at dst.
  method TakeInPlace(buf: array<Byte>, dst: nat, len: nat, ptr: nat, last: Byte) returns (len': nat, last': Byte)
    requires dst + len <= ptr < buf.Length
    modifies buf
    ensures dst + len' <= ptr + 1 && last' == Stored(old(buf[ptr]), last)
    ensures buf[dst..dst + len'] == old(buf[dst..dst + len]) + Yield(old(buf[ptr]), last)
    ensures forall i :: 0 <= i < dst || ptr < i < buf.Length ==> buf[i] == old(buf[i])
  {
    ghost var out := buf[dst..dst + len];
    if last == BS {
      UnescapeInPlace(buf, ptr);
    }
    buf[dst + len] := buf[ptr];
    len' := if buf[ptr] != BS || last == BS then len + 1 else len;
    last' := buf[ptr];
    assert buf[dst..dst + len] == out;
  }

  // The loop of the decoder: it stops at the first byte that does not continue the string.
  method ScanLoop(buf: array<Byte>, dst: nat, ghost nul: nat) returns (ptr: nat, len: nat)
    requires CString(buf[..], dst, nul)
    modifies buf
    ensures dst + len <= ptr <= nul && buf[ptr] == old(buf[ptr])
    ensures Scan(old(buf[dst..nul]), 0) ==
              if ptr < nul && buf[ptr] == DQ then Some(Parsed(buf[dst..dst + len], ptr - dst + 1)) else None
    ensures forall i :: 0 <= i < dst || ptr <= i < buf.Length ==> buf[i] == old(buf[i])
  {
    var last := 0;
    ptr, len := dst, 0;
    ghost var s := buf[..];
    ScanStart(s[dst..nul]);
    assert buf[dst..dst] == [] && s[dst..nul] == buf[dst..nul];
    while Continues(buf[ptr], last)
      invariant dst + len <= ptr <= nul
      invariant forall i :: 0 <= i < dst || ptr <= i < buf.Length ==> buf[i] == s[i]
      invariant Scanning(s, dst, nul, ptr, last, buf[dst..dst + len])
      decreases nul - ptr
    {
      ScanningStep(s, dst, nul, ptr, last, buf[dst..dst + len]);
      len, last := TakeInPlace(buf, dst, len, ptr, last);
      ptr := ptr + 1;
    }
    ScanningEnd(s, dst, nul, ptr, last, buf[dst..dst + len]);
  }

  // The scan of s[dst..nul] has read up to ptr and yielded out.
  ghost predicate Scanning(s: seq<Byte>, dst: nat, nul: nat, ptr: nat, last: Byte, out: seq<Byte>) {
    dst <= ptr <= nul <= |s| && Scan(s[dst..nul], 0) == After(out, ptr - dst, Scan(s[ptr..nul], last))
  }

  lemma ScanningStep(s: seq<Byte>, dst: nat, nul: nat, ptr: nat, last: Byte, out: seq<Byte>)
    requires Scanning(s, dst, nul, ptr, last, out) && nul < |s| && s[nul] == 0 && Continues(s[ptr], last)
    ensures ptr < nul && Scanning(s, dst, nul, ptr + 1, Stored(s[ptr], last), out + Yield(s[ptr], last))
  {
    assert s[ptr..nul][0] == s[ptr] && s[ptr..nul][1..] == s[ptr + 1..nul];
    AfterStep(out, ptr - dst, s[ptr..nul], last);
  }

  lemma ScanningEnd(s: seq<Byte>, dst: nat, nul: nat, ptr: nat, last: Byte, out: seq<Byte>)
    requires Scanning(s, dst, nul, ptr, last, out) && nul < |s| && s[nul] == 0 && !Continues(s[ptr], last)
    ensures Scan(s[dst..nul], 0) == if ptr < nul && s[ptr] == DQ then Some(Parsed(out, ptr - dst + 1)) else None
  {
    assert ptr < nul ==> s[ptr..nul][0] == s[ptr];
    assert out + [] == out;
  }

  /** Decodes in place from dst on. The write position never passes the read position, so nothing is
      overwritten before it has been read, and the line behind the closing quote is left alone. */
  method ScanInPlace(buf: array<Byte>, dst: nat, ghost nul: nat) returns (r: Option<Span>)
    requires CString(buf[..], dst, nul)
    modifies buf
    ensures match Scan(old(buf[dst..nul]), 0)
            case None => r.None?
            case Some(p) => r == Some(Span(dst, |p.out|, dst + p.used)) && Holds(buf[..], r.value, p.out)
                            && buf[dst + p.used..] == old(buf[dst + p.used..])
    ensures buf[..dst] == old(buf[..dst])
  {
    var ptr, len := ScanLoop(buf, dst, nul);
    if buf[ptr] != DQ { return None; }
    ghost var out, rest := buf[dst..dst + len], buf[ptr + 1..];
    assert rest == old(buf[ptr + 1..]);
    buf[dst + len] := 0;
    assert buf[dst..dst + len] == out && buf[ptr + 1..] == rest;
    r := Some(Span(dst, len, ptr + 1));
    assert Holds(buf[..], r.value, out);
  }

  lemma ScanStart(t: seq<Byte>)
    ensures Scan(t, 0) == After([], 0, Scan(t, 0))
  {
    if Scan(t, 0).Some? { assert [] + Scan(t, 0).value.out == Scan(t, 0).value.out; }
  }

  method ParseQuoted(buf: array<Byte>, line: nat, ghost nul: nat) returns (r: Option<Span>)
    requires CString(buf[..], line, nul)
    modifies buf
    ensures var w := Start(old(buf[..]), line, nul);
            if w == nul || old(buf[w]) != DQ then r.None? else
            match Scan(old(buf[w + 1..nul]), 0)
            case None => r.None?
            case Some(p) => r == Some(Span(w + 1, |p.out|, w + 1 + p.used)) && Holds(buf[..], r.value, p.out)
                            && buf[w + 1 + p.used..] == old(buf[w + 1 + p.used..])
    ensures buf[..line] == old(buf[..line])
  {
    var ptr := SkipBlanks(buf, line, nul);
    if buf[ptr] != DQ { return None; }
    r := ScanInPlace(buf, ptr + 1, nul);
    assert buf[..line] == buf[..ptr + 1][..line];
  }

  /** Decodes in place; every byte written lies behind the digits still to be read. */
  method ParseHex(buf: array<Byte>, line: nat, ghost nul: nat) returns (r: Option<Span>)
    requires CString(buf[..], line, nul)
    modifies buf
    ensures var w := Start(old(buf[..]), line, nul);
            match HexScan(old(buf[w..nul]))
            case None => r.None?
            case Some(out) => r == Some(Span(w, |out|, nul)) && Holds(buf[..], r.value, out)
  {
    var ptr := SkipBlanks(buf, line, nul);
    ghost var t := buf[ptr..nul];
    var i := 0;
    while buf[ptr + i] != 0
      invariant 0 <= i <= nul - ptr && forall j :: ptr <= j < ptr + i ==> IsHex(buf[j])
      decreases nul - ptr - i
    {
      assert t[i] == buf[ptr + i];
      if !IsHex(buf[ptr + i]) { return None; }
      i := i + 1;
    }
    assert i == |t| && forall j :: 0 <= j < |t| ==> t[j] == buf[ptr + j];
    if i % 2 == 1 || i == 0 { return None; }
    r := HexInPlace(buf, ptr, nul);
  }

  method HexInPlace(buf: array<Byte>, dst: nat, ghost nul: nat) returns (r: Option<Span>)
    requires CString(buf[..], dst, nul) && (nul - dst) % 2 == 0
    requires forall i :: dst <= i < nul ==> IsHex(buf[i])
    modifies buf
    ensures (forall b :: b in old(buf[dst..nul]) ==> IsHex(b)) && |old(buf[dst..nul])| % 2 == 0
    ensures var out := HexBytes(old(buf[dst..nul])); r == Some(Span(dst, |out|, nul)) && Holds(buf[..], r.value, out)
  {
    var ptr, len := dst, 0;
    ghost var s, t := buf[..], buf[dst..nul];
    ghost var out := HexBytes(t);
    while buf[ptr] != 0
      invariant ptr == dst + 2 * len <= nul && (forall i :: ptr <= i < buf.Length ==> buf[i] == s[i])
      invariant forall k :: 0 <= k < len ==> buf[dst + k] == out[k]
      decreases nul - ptr
    {
      assert buf[ptr] == t[2 * len] && buf[ptr + 1] == t[2 * len + 1];
      HexBytesAt(t, len);
      buf[dst + len] := 16 * HexValue(buf[ptr]) + HexValue(buf[ptr + 1]);
      len, ptr := len + 1, ptr + 2;
    }
    buf[dst + len] := 0;
    assert buf[dst..dst + len] == out;
    r := Some(Span(dst, len, ptr));
  }

  lemma {:induction false} HexBytesAt(t: seq<Byte>, k: nat)
    requires |t| % 2 == 0 && (forall i :: 0 <= i < |t| ==> IsHex(t[i])) && 2 * k < |t|
    ensures HexBytes(t)[k] == 16 * HexValue(t[2 * k]) + HexValue(t[2 * k + 1])
    decreases k
  {
    if k > 0 {
      HexBytesAt(t[2..], k - 1);
      assert t[2..][2 * (k - 1)] == t[2 * k] && t[2..][2 * (k - 1) + 1] == t[2 * k + 1];
    }
  }

  // c is a digit of value v, in either case.
  ghost predicate Nibble(c: Byte, v: nat) {
    if v < 10 then c == 0x30 + v else c == 0x41 + v - 10 || c == 0x61 + v - 10
  }

  ghost predicate HexByte(c: Byte) {
    exists v :: 0 <= v < 16 && Nibble(c, v)
  }

  /** A hexadecimal string is read if and only if it is a positive even number of digits, and each byte
      is the value of its two digits, whatever their case. */
  lemma HexScanReads(t: seq<Byte>)
    ensures HexScan(t).Some? <==> t != [] && |t| % 2 == 0 && forall i :: 0 <= i < |t| ==> HexByte(t[i])
    ensures HexScan(t).Some? ==>
              var out := HexScan(t).value;
              && 2 * |out| == |t|
              && forall k :: 0 <= k < |out| ==> Nibble(t[2 * k], out[k] / 16) && Nibble(t[2 * k + 1], out[k] % 16)
  {
    forall i | 0 <= i < |t| ensures IsHex(t[i]) <==> HexByte(t[i]) {
      if IsHex(t[i]) { assert Nibble(t[i], HexValue(t[i])); }
    }
    if HexScan(t).Some? {
      var out := HexScan(t).value;
      forall k | 0 <= k < |out| ensures Nibble(t[2 * k], out[k] / 16) && Nibble(t[2 * k + 1], out[k] % 16) {
        HexBytesAt(t, k);
        assert Nibble(t[2 * k], HexValue(t[2 * k])) && Nibble(t[2 * k + 1], HexValue(t[2 * k + 1]));
      }
    }
  }

  method ParseHexOrQuoted(buf: array<Byte>, line: nat, ghost nul: nat) returns (r: Option<Span>)
    requires CString(buf[..], line, nul)
    modifies buf
    ensures match ParseField(old(buf[Start(buf[..], line, nul)..nul]))
            case None => r.None?
            case Some(out) => r.Some? && Holds(buf[..], r.value, out)
  {
    var ptr := SkipBlanks(buf, line, nul);
    ghost var t := buf[ptr..nul];
    if buf[ptr] == DQ {
      assert t[0] == DQ && t[1..] == buf[ptr + 1..nul];
      r := ParseQuoted(buf, line, nul);
    } else {
      assert t != [] ==> t[0] == buf[ptr];
      r := ParseHex(buf, line, nul);
    }
  }
}
