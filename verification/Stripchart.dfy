/**
 The value buffer of a stripchart (StripchartValues in tkiStripchart.c), for charts at least
 two pixels wide. width is what the bounding box gives; values are real numbers.
 */
module Stripcharts {
  import opened Vectors

  // ----- The buffer as a sequence -----

  function Positive(v: real): real { if v < 0.0 then 0.0 else v }

  function Clip(s: seq<real>): seq<real> {
    seq(|s|, i requires 0 <= i < |s| => Positive(s[i]))
  }

  // A narrower chart keeps the newest values.
  function Resized(c: seq<real>, width: nat): seq<real>
    requires width >= 2
  {
    if |c| > width - 1 then c[|c| - (width - 1)..] else c
  }

  function Jump(width: nat, jump: int): nat
    requires width >= 2
    ensures 1 <= Jump(width, jump) < width
  {
    if jump <= 0 || width <= jump then 1 else jump
  }

  // A full chart first drops its oldest values.
  function Room(c: seq<real>, width: nat, jump: int): seq<real>
    requires width >= 2 && |c| <= width - 1
  {
    if |c| == width - 1 then c[Jump(width, jump)..] else c
  }

  function PushAll(c: seq<real>, width: nat, jump: int, vs: seq<real>): (r: seq<real>)
    requires width >= 2 && |c| <= width - 1
    ensures |r| <= width - 1
    decreases |vs|
  {
    if vs == [] then c else PushAll(Room(c, width, jump) + [vs[0]], width, jump, vs[1..])
  }

  function Update(c: seq<real>, width: nat, jump: int, vs: seq<real>): seq<real>
    requires width >= 2
  {
    Clip(PushAll(Resized(c, width), width, jump, vs))
  }

  ghost predicate IsSuffix(a: seq<real>, b: seq<real>) {
    |a| <= |b| && a == b[|b| - |a|..]
  }

  // The newest part of c is as much a suffix as c was.
  lemma SuffixOfSuffix(c: seq<real>, k: nat, h: seq<real>)
    requires k <= |c| && IsSuffix(Clip(c), Clip(h))
    ensures IsSuffix(Clip(c[k..]), Clip(h))
  {
    assert Clip(c[k..]) == Clip(c)[k..];
  }

  lemma SuffixSnoc(c: seq<real>, h: seq<real>, v: real)
    requires IsSuffix(Clip(c), Clip(h))
    ensures IsSuffix(Clip(c + [v]), Clip(h + [v]))
  {
    assert Clip(c + [v]) == Clip(c) + [Positive(v)] && Clip(h + [v]) == Clip(h) + [Positive(v)];
  }

  lemma {:induction false} PushAllSuffix(c: seq<real>, width: nat, jump: int, vs: seq<real>, h: seq<real>)
    requires width >= 2 && |c| <= width - 1 && IsSuffix(Clip(c), Clip(h))
    ensures IsSuffix(Clip(PushAll(c, width, jump, vs)), Clip(h + vs))
    decreases |vs|
  {
    if vs == [] {
      assert h + vs == h;
    } else {
      if |c| == width - 1 { SuffixOfSuffix(c, Jump(width, jump), h); }
      var r := Room(c, width, jump);
      SuffixSnoc(r, h, vs[0]);
      PushAllSuffix(r + [vs[0]], width, jump, vs[1..], h + [vs[0]]);
      assert h + [vs[0]] + vs[1..] == h + vs;
    }
  }

  lemma UpdateSuffix(c: seq<real>, width: nat, jump: int, vs: seq<real>, h: seq<real>)
    requires width >= 2 && IsSuffix(Clip(c), Clip(h))
    ensures IsSuffix(Update(c, width, jump, vs), Clip(h + vs)) && |Update(c, width, jump, vs)| <= width - 1
    ensures Clip(Update(c, width, jump, vs)) == Update(c, width, jump, vs)
  {
    if |c| > width - 1 { SuffixOfSuffix(c, |c| - (width - 1), h); }
    PushAllSuffix(Resized(c, width), width, jump, vs, h);
  }

  // ----- What is kept -----

  /** c is the newest part of h, as it is stored: a value that is not negative is unchanged, a negative
      one is 0. */
  ghost predicate Newest(c: seq<real>, h: seq<real>) {
    |c| <= |h| && forall k :: 0 <= k < |c| ==> Stored(c[k], h[|h| - |c| + k])
  }

  ghost predicate Stored(c: real, v: real) {
    (v >= 0.0 ==> c == v) && (v < 0.0 ==> c == 0.0)
  }

  // How many of n values are left: as many jumps of d values are made as are needed, and no more.
  ghost function Left(n: nat, width: nat, d: nat): nat
    requires 1 <= d < width
  {
    if n <= width - 1 then n else Left(n - d, width, d)
  }

  ghost predicate Keeps(n: nat, r: nat, width: nat, jump: int)
    requires width >= 2
  {
    r == Left(n, width, if 1 <= jump < width then jump else 1)
  }

  lemma {:induction false} PushAllKeeps(c: seq<real>, width: nat, jump: int, vs: seq<real>)
    requires width >= 2 && |c| <= width - 1
    ensures Keeps(|c| + |vs|, |PushAll(c, width, jump, vs)|, width, jump)
    decreases |vs|
  {
    if vs != [] { PushAllKeeps(Room(c, width, jump) + [vs[0]], width, jump, vs[1..]); }
  }

  lemma SuffixAppend(a: seq<real>, b: seq<real>, vs: seq<real>)
    requires IsSuffix(a, b)
    ensures IsSuffix(a + vs, b + vs)
  {
    assert (b + vs)[|b| - |a|..] == b[|b| - |a|..] + vs;
  }

  lemma SuffixTrans(a: seq<real>, b: seq<real>, c: seq<real>)
    requires IsSuffix(a, b) && IsSuffix(b, c)
    ensures IsSuffix(a, c)
  {
  }

  lemma {:induction false} PushAllNewest(c: seq<real>, width: nat, jump: int, vs: seq<real>)
    requires width >= 2 && |c| <= width - 1
    ensures IsSuffix(PushAll(c, width, jump, vs), c + vs)
    decreases |vs|
  {
    if vs == [] {
      assert c + vs == c;
    } else {
      var room := Room(c, width, jump);
      PushAllNewest(room + [vs[0]], width, jump, vs[1..]);
      assert room + [vs[0]] + vs[1..] == room + vs;
      SuffixAppend(room, c, vs);
      SuffixTrans(PushAll(c, width, jump, vs), room + vs, c + vs);
    }
  }

  // How many values there are to show, at most those that fit and the new ones.
  ghost function Offered(n: nat, width: nat, vs: seq<real>): nat
    requires width >= 2
  {
    (if n < width then n else width - 1) + |vs|
  }

  // The chart before the clipping: what is kept of the old values and the new ones.
  lemma ResizedKeeps(c: seq<real>, width: nat, jump: int, vs: seq<real>)
    requires width >= 2
    ensures var r := PushAll(Resized(c, width), width, jump, vs);
            IsSuffix(r, c + vs) && Keeps(Offered(|c|, width, vs), |r|, width, jump)
  {
    var r := Resized(c, width);
    PushAllKeeps(r, width, jump, vs);
    PushAllNewest(r, width, jump, vs);
    SuffixAppend(r, c, vs);
    SuffixTrans(PushAll(r, width, jump, vs), r + vs, c + vs);
  }

  lemma ClipNewest(c: seq<real>, h: seq<real>)
    ensures IsSuffix(c, h) ==> Newest(Clip(c), h)
    ensures IsSuffix(c, Clip(h)) ==> Newest(c, h)
  {
    if IsSuffix(c, h) {
      forall k | 0 <= k < |c| ensures Stored(Clip(c)[k], h[|h| - |c| + k]) {
        assert c[k] == h[|h| - |c| + k];
      }
    }
    if IsSuffix(c, Clip(h)) {
      forall k | 0 <= k < |c| ensures Stored(c[k], h[|h| - |c| + k]) {
        assert c[k] == Clip(h)[|h| - |c| + k];
      }
    }
  }

  lemma UpdateKeeps(c: seq<real>, width: nat, jump: int, vs: seq<real>)
    requires width >= 2
    ensures var r := Update(c, width, jump, vs);
            Newest(r, c + vs) && Keeps(Offered(|c|, width, vs), |r|, width, jump)
  {
    ResizedKeeps(c, width, jump, vs);
    ClipNewest(PushAll(Resized(c, width), width, jump, vs), c + vs);
  }

  // One call: the width at that time, the jump option, and the new values.
  datatype Call = Call(width: nat, jump: int, values: seq<real>)

  function Replay(calls: seq<Call>): seq<real>
    requires forall i :: 0 <= i < |calls| ==> calls[i].width >= 2
  {
    if calls == [] then [] else
    var k := |calls| - 1;
    Update(Replay(calls[..k]), calls[k].width, calls[k].jump, calls[k].values)
  }

  function History(calls: seq<Call>): seq<real> {
    if calls == [] then [] else History(calls[..|calls| - 1]) + calls[|calls| - 1].values
  }

  /** Over any series of appends, widenings and narrowings, the chart shows the newest part of the
      clipped history, of at most width - 1 values. */
  lemma {:induction false} ShowsNewest(calls: seq<Call>)
    requires forall i :: 0 <= i < |calls| ==> calls[i].width >= 2
    ensures IsSuffix(Replay(calls), Clip(History(calls))) && Clip(Replay(calls)) == Replay(calls)
    ensures calls != [] ==> |Replay(calls)| <= calls[|calls| - 1].width - 1
    decreases |calls|
  {
    if calls != [] {
      var k := |calls| - 1;
      ShowsNewest(calls[..k]);
      UpdateSuffix(Replay(calls[..k]), calls[k].width, calls[k].jump, calls[k].values, History(calls[..k]));
    }
  }

  /** What is shown is the newest part of the history value by value, and the last call dropped no more
      than it had to. */
  lemma ShowsHistory(calls: seq<Call>)
    requires calls != [] && forall i :: 0 <= i < |calls| ==> calls[i].width >= 2
    ensures Newest(Replay(calls), History(calls))
    ensures var k := |calls| - 1;
            Keeps(Offered(|Replay(calls[..k])|, calls[k].width, calls[k].values), |Replay(calls)|, calls[k].width,
                  calls[k].jump)
  {
    var k := |calls| - 1;
    ShowsNewest(calls);
    ClipNewest(Replay(calls), History(calls));
    UpdateKeeps(Replay(calls[..k]), calls[k].width, calls[k].jump, calls[k].values);
  }

  // ----- The buffer in its array -----

  class Stripchart {
    var shift: array<real>
    var coord: array<real>
    var numPoints: nat
    var numValues: nat
    var jump: int

    constructor ()
      ensures Valid() && Contents() == [] && fresh(shift) && fresh(coord)
    {
      shift := new real[0];
      coord := new real[0];
      numPoints, numValues, jump := 0, 0, 0;
    }

    ghost predicate Valid()
      reads this, shift
    {
      shift != coord && if numPoints == 0 then numValues == 0 else Fits(numPoints - 2)
    }

    // The arrays are set up for this width, and no value is left behind the last one.
    ghost predicate Fits(width: int)
      reads this, shift
    {
      && width >= 2 && numPoints == width + 2 && numValues <= width - 1 && shift != coord
      && width <= shift.Length && 2 * numPoints <= coord.Length
      && forall i :: numValues <= i < width ==> shift[i] == 0.0
    }

    ghost function Contents(): seq<real>
      requires numValues <= shift.Length
      reads this, shift
    {
      shift[..numValues]
    }

    method Resize(width: nat)
      requires Valid() && width >= 2
      modifies this, shift
      ensures Fits(width) && jump == old(jump)
      ensures (shift == old(shift) && coord == old(coord)) || (fresh(shift) && fresh(coord))
      ensures Contents() == Resized(old(Contents()), width)
    {
      if numPoints < width + 2 {
        Widen(width);
      } else if numPoints > width + 2 {
        if numValues > width - 1 { KeepNewest(width, numPoints - 2); }
      }
      numPoints := width + 2;
    }

    method Widen(width: nat)
      requires numValues <= width && numValues <= shift.Length
      modifies this`shift, this`coord
      ensures fresh(shift) && shift.Length == width && Contents() == old(Contents())
      ensures fresh(coord) && coord.Length == 2 * (width + 2) && shift != coord
      ensures forall i :: numValues <= i < width ==> shift[i] == 0.0
    {
      var wider := new real[width](_ => 0.0);
      for i := 0 to numValues
        invariant shift == old(shift) && forall k :: 0 <= k < i ==> wider[k] == shift[k]
        invariant forall k :: i <= k < width ==> wider[k] == 0.0
      {
        wider[i] := shift[i];
      }
      ghost var c := Contents();
      shift := wider;
      assert Contents() == c;
      coord := new real[2 * (width + 2)];
    }

    method KeepNewest(width: nat, ghost wide: nat)
      requires 2 <= width <= numValues < wide <= shift.Length
      requires forall i :: numValues <= i < wide ==> shift[i] == 0.0
      modifies this`numValues, shift
      ensures numValues == width - 1 && Contents() == old(Contents())[old(numValues) - (width - 1)..]
      ensures shift[width - 1] == 0.0
    {
      ghost var s := shift[..];
      for i := 0 to width
        invariant numValues == old(numValues)
        invariant forall k :: 0 <= k < i ==> shift[k] == s[k + numValues - width + 1]
        invariant forall k :: i <= k < shift.Length ==> shift[k] == s[k]
      {
        shift[i] := shift[i + numValues - width + 1];
      }
      numValues := width - 1;
    }

    // A full chart scrolls: exactly the oldest Jump values go.
    method Scroll(width: nat)
      requires Fits(width) && jump >= 1
      modifies this`numValues, shift
      ensures Fits(width) && Contents() == Room(old(Contents()), width, jump) && numValues < width - 1
    {
      var d := if width <= jump then 1 else jump;
      if numValues == width - 1 { DropOldest(width, d); }
    }

    method DropOldest(width: nat, d: nat)
      requires 1 <= d < width <= shift.Length && numValues == width - 1 && shift[width - 1] == 0.0
      modifies this`numValues, shift
      ensures numValues == width - 1 - d && Contents() == old(Contents())[d..]
      ensures forall i :: numValues <= i < width ==> shift[i] == 0.0
    {
      ShiftDown(width, d);
      numValues := numValues - d;
      ZeroBetween(width - d, width - 1);
    }

    method ShiftDown(width: nat, d: nat)
      requires d <= width <= shift.Length
      modifies shift
      ensures forall k :: 0 <= k < width - d ==> shift[k] == old(shift[k + d])
      ensures forall k :: width - d <= k < shift.Length ==> shift[k] == old(shift[k])
    {
      for j := 0 to width - d
        invariant forall k :: 0 <= k < j ==> shift[k] == old(shift[k + d])
        invariant forall k :: j <= k < shift.Length ==> shift[k] == old(shift[k])
      {
        shift[j] := shift[j + d];
      }
    }

    method ZeroBetween(a: nat, b: nat)
      requires a <= b <= shift.Length
      modifies shift
      ensures forall k :: 0 <= k < shift.Length ==> shift[k] == if a <= k < b then 0.0 else old(shift[k])
    {
      for j := a to b
        invariant forall k :: 0 <= k < shift.Length ==> shift[k] == if a <= k < j then 0.0 else old(shift[k])
      {
        shift[j] := 0.0;
      }
    }

    method ClipValues()
      requires numValues <= shift.Length
      modifies shift
      ensures Contents() == Clip(old(Contents()))
      ensures forall k :: numValues <= k < shift.Length ==> shift[k] == old(shift[k])
    {
      ghost var c := Contents();
      for i := 0 to numValues
        invariant forall k :: 0 <= k < i ==> shift[k] == Positive(c[k])
        invariant forall k :: i <= k < numValues ==> shift[k] == c[k]
        invariant forall k :: numValues <= k < shift.Length ==> shift[k] == old(shift[k])
      {
        if shift[i] < 0.0 { shift[i] := 0.0; }
      }
    }

    method Store(v: real)
      requires numValues < shift.Length
      modifies this`numValues, shift
      ensures numValues == old(numValues) + 1 && Contents() == old(Contents()) + [v]
      ensures forall k :: numValues <= k < shift.Length ==> shift[k] == old(shift[k])
    {
      ghost var c := Contents();
      shift[numValues] := v;
      numValues := numValues + 1;
      assert shift[..numValues - 1] == c;
    }

    // Appends values until one is not a number.
    method Append(width: nat, values: seq<Option<real>>) returns (ok: bool, ghost taken: seq<real>)
      requires Fits(width) && jump >= 1
      modifies this`numValues, shift
      ensures Fits(width) && Taken(values, taken) && (ok <==> |taken| == |values|)
      ensures var c := PushAll(old(Contents()), width, jump, taken);
              Contents() == if ok then c else Room(c, width, jump)
    {
      ghost var c := Contents();
      taken := [];
      var i := 0;
      while i < |values|
        invariant 0 <= i <= |values| && |taken| == i && Fits(width)
        invariant forall k :: 0 <= k < i ==> values[k] == Some(taken[k])
        invariant Contents() == PushAll(c, width, jump, taken)
      {
        Scroll(width);
        if values[i].None? { return false, taken; }
        Store(values[i].value);
        PushAllSnoc(c, width, jump, taken, values[i].value);
        taken := taken + [values[i].value];
        i := i + 1;
      }
      ok := true;
    }

    // The polygon from (x0, 0) over the values, 0 where there is none yet, back to the base line.
    ghost predicate Polygon(width: nat, x0: real)
      requires Fits(width)
      reads this, shift, coord
    {
      && coord[0] == x0 && coord[1] == 0.0
      && (forall k :: 1 <= k <= width ==>
            && coord[2 * k] == x0 + k as real
            && coord[2 * k + 1] == if k <= numValues then Contents()[k - 1] else 0.0)
      && coord[2 * width + 2] == x0 + width as real && coord[2 * width + 3] == 0.0
    }

    // Every read is within the values and every store within the coordinates allocated when the
    // chart was last widened.
    method Coordinates(width: nat, x0: real)
      requires Fits(width)
      modifies coord
      ensures Fits(width) && Contents() == old(Contents()) && Polygon(width, x0)
    {
      coord[1] := 0.0;
      for k := 1 to width + 1
        invariant coord[1] == 0.0 && shift[..] == old(shift[..])
        invariant forall m :: 1 <= m < k ==> coord[2 * m] == m as real && coord[2 * m + 1] == shift[m - 1]
      {
        coord[2 * k] := k as real;
        coord[2 * k + 1] := shift[k - 1];
      }
      coord[2 * width + 2] := width as real;
      coord[2 * width + 3] := 0.0;
      MoveRight(width, x0);
      coord[0] := x0;
    }

    method MoveRight(width: nat, x0: real)
      requires Fits(width)
      modifies coord
      ensures forall m :: 1 <= m < width + 2 ==> coord[2 * m] == old(coord[2 * m]) + x0
      ensures coord[1] == old(coord[1])
      ensures forall m :: 1 <= m < width + 2 ==> coord[2 * m + 1] == old(coord[2 * m + 1])
    {
      for k := 1 to width + 2
        invariant forall m :: 1 <= m < k ==> coord[2 * m] == old(coord[2 * m]) + x0
        invariant forall m :: k <= m < width + 2 ==> coord[2 * m] == old(coord[2 * m])
        invariant coord[1] == old(coord[1])
        invariant forall m :: 1 <= m < width + 2 ==> coord[2 * m + 1] == old(coord[2 * m + 1])
      {
        coord[2 * k] := coord[2 * k] + x0;
      }
    }

    /** A value that is not a number ends the call with an error: the values before it are kept,
        unclipped, and a full chart has already scrolled. */
    method Values(width: nat, x0: real, values: seq<Option<real>>) returns (ok: bool, ghost taken: seq<real>)
      requires Valid() && width >= 2
      modifies this, shift, coord
      ensures Fits(width) && Taken(values, taken) && (ok <==> |taken| == |values|)
      ensures ok ==> Contents() == Update(old(Contents()), width, old(jump), taken) && Polygon(width, x0)
      ensures !ok ==>
                Contents() == Room(PushAll(Resized(old(Contents()), width), width, old(jump), taken), width, old(jump))
      ensures Kept(old(Contents()), width, old(jump), taken, ok, Contents())
    {
      Resize(width);
      ghost var c, j := Contents(), jump;
      if jump <= 0 { jump := 1; }
      ok, taken := Append(width, values);
      SameJump(c, width, j, jump, taken);
      KeptAfter(old(Contents()), width, j, taken);
      if ok {
        ClipValues();
        Coordinates(width, x0);
      }
    }
  }

  /** What a call leaves of the old values c and those taken. A failed call has already made room for
      one more value, and clips nothing. */
  ghost predicate Kept(c: seq<real>, width: nat, jump: int, taken: seq<real>, ok: bool, r: seq<real>)
    requires width >= 2
  {
    var n := Offered(|c|, width, taken);
    if ok then Newest(r, c + taken) && Keeps(n, |r|, width, jump)
    else IsSuffix(r, c + taken) && Keeps(n + 1, |r| + 1, width, jump)
  }

  lemma RoomKeeps(s: seq<real>, width: nat, jump: int, vs: seq<real>)
    requires width >= 2 && |s| <= width - 1
    ensures Keeps(|s| + |vs| + 1, |Room(PushAll(s, width, jump, vs), width, jump)| + 1, width, jump)
  {
    PushAllSnoc(s, width, jump, vs, 0.0);
    PushAllKeeps(s, width, jump, vs + [0.0]);
  }

  lemma RoomSuffix(p: seq<real>, width: nat, jump: int, h: seq<real>)
    requires width >= 2 && |p| <= width - 1 && IsSuffix(p, h)
    ensures IsSuffix(Room(p, width, jump), h)
  {
    SuffixTrans(Room(p, width, jump), p, h);
  }

  lemma KeptAfter(c: seq<real>, width: nat, jump: int, taken: seq<real>)
    requires width >= 2
    ensures Kept(c, width, jump, taken, true, Update(c, width, jump, taken))
    ensures Kept(c, width, jump, taken, false, Room(PushAll(Resized(c, width), width, jump, taken), width, jump))
  {
    UpdateKeeps(c, width, jump, taken);
    RoomKeeps(Resized(c, width), width, jump, taken);
    ResizedKeeps(c, width, jump, taken);
    RoomSuffix(PushAll(Resized(c, width), width, jump, taken), width, jump, c + taken);
  }

  // taken holds the values before the first that is not a number.
  ghost predicate Taken(values: seq<Option<real>>, taken: seq<real>) {
    && |taken| <= |values| && (forall k :: 0 <= k < |taken| ==> values[k] == Some(taken[k]))
    && (|taken| < |values| ==> values[|taken|].None?)
  }

  lemma {:induction false} SameJump(c: seq<real>, width: nat, j: int, k: int, vs: seq<real>)
    requires width >= 2 && |c| <= width - 1 && Jump(width, j) == Jump(width, k)
    ensures PushAll(c, width, j, vs) == PushAll(c, width, k, vs)
    decreases |vs|
  {
    if vs != [] { SameJump(Room(c, width, j) + [vs[0]], width, j, k, vs[1..]); }
  }

  lemma {:induction false} PushAllSnoc(c: seq<real>, width: nat, jump: int, vs: seq<real>, v: real)
    requires width >= 2 && |c| <= width - 1
    ensures PushAll(c, width, jump, vs + [v]) == Room(PushAll(c, width, jump, vs), width, jump) + [v]
    decreases |vs|
  {
    if vs == [] {
      assert vs + [v] == [v] && [v][1..] == [];
    } else {
      assert (vs + [v])[1..] == vs[1..] + [v];
      PushAllSnoc(Room(c, width, jump) + [vs[0]], width, jump, vs[1..], v);
    }
  }
}
