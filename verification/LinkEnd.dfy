/**
 Where a link meets a network (m_network_link_end in tkiMethods.c). A network is drawn as a
 polyline; coordinates are real numbers.
 */
module LinkEnd {

  datatype Point = Point(x: real, y: real)

  function Abs(a: real): (r: real)
    ensures r >= 0.0 && (r == a || r == -a)
  {
    if a < 0.0 then -a else a
  }

  function Min(a: real, b: real): (r: real)
    ensures r <= a && r <= b && (r == a || r == b)
  {
    if a < b then a else b
  }

  function Max(a: real, b: real): (r: real)
    ensures r >= a && r >= b && (r == a || r == b)
  {
    if a < b then b else a
  }

  function Distance(p: Point, q: Point): real {
    Abs(p.x - q.x) + Abs(p.y - q.y)
  }

  predicate Straight(a: Point, b: Point) {
    a.x == b.x || a.y == b.y
  }

  // For a horizontal or vertical segment: p is one of its points.
  predicate Between(p: Point, a: Point, b: Point) {
    Min(a.x, b.x) <= p.x <= Max(a.x, b.x) && Min(a.y, b.y) <= p.y <= Max(a.y, b.y)
  }

  function At(a: Point, b: Point, t: real): Point {
    Point(a.x + t * (b.x - a.x), a.y + t * (b.y - a.y))
  }

  // p divides the segment from a to b in some proportion.
  ghost predicate OnSegment(p: Point, a: Point, b: Point) {
    exists t: real :: 0.0 <= t <= 1.0 && p == At(a, b, t)
  }

  ghost predicate OnLine(p: Point, pts: seq<Point>) {
    exists i :: 0 <= i < |pts| && OnPart(p, pts, i)
  }

  // p is the point i, or on the segment that ends there.
  ghost predicate OnPart(p: Point, pts: seq<Point>, i: nat)
    requires i < |pts|
  {
    p == pts[i] || (i > 0 && OnSegment(p, pts[i - 1], pts[i]))
  }

  lemma Product(x: real, y: real)
    ensures x * -y == -(x * y) && -x * y == -(x * y)
    ensures x >= 0.0 && y >= 0.0 ==> x * y >= 0.0
    ensures x > 0.0 && y > 0.0 ==> x * y > 0.0
  {
  }

  lemma Complement(t: real, w: real)
    ensures (1.0 - t) * w == w - t * w
  {
  }

  lemma Scaled(t: real, a: real, b: real)
    requires 0.0 <= t <= 1.0
    ensures Min(a, b) <= a + t * (b - a) <= Max(a, b)
  {
    var w := b - a;
    Complement(t, w);
    if w >= 0.0 {
      Product(t, w);
      Product(1.0 - t, w);
    } else {
      Product(t, -w);
      Product(1.0 - t, -w);
    }
  }

  lemma Quotient(u: real, w: real) returns (t: real)
    requires 0.0 <= u <= w && w > 0.0
    ensures 0.0 <= t <= 1.0 && t * w == u
  {
    t := u / w;
    assert t * w == u;
    Complement(t, w);
    Product(-t, w);
    Product(t - 1.0, w);
    Product(1.0 - t, w);
  }

  lemma Ratio(a: real, b: real, p: real) returns (t: real)
    requires Min(a, b) <= p <= Max(a, b)
    ensures 0.0 <= t <= 1.0 && p == a + t * (b - a)
  {
    if a == b {
      t := 0.0;
    } else if a < b {
      t := Quotient(p - a, b - a);
    } else {
      t := Quotient(a - p, a - b);
      Product(t, a - b);
    }
  }

  lemma SegmentBetween(p: Point, a: Point, b: Point)
    requires Straight(a, b)
    ensures OnSegment(p, a, b) <==> Between(p, a, b)
  {
    if OnSegment(p, a, b) { InsideBox(p, a, b); }
    if Between(p, a, b) { InProportion(p, a, b); }
  }

  lemma InsideBox(p: Point, a: Point, b: Point)
    requires OnSegment(p, a, b)
    ensures Between(p, a, b)
  {
    var t: real :| 0.0 <= t <= 1.0 && p == At(a, b, t);
    Scaled(t, a.x, b.x);
    Scaled(t, a.y, b.y);
  }

  lemma InProportion(p: Point, a: Point, b: Point)
    requires Straight(a, b) && Between(p, a, b)
    ensures OnSegment(p, a, b)
  {
    var t;
    if a.x == b.x {
      t := Ratio(a.y, b.y, p.y);
    } else {
      t := Ratio(a.x, b.x, p.x);
    }
    assert p == At(a, b, t);
  }

  ghost predicate AllStraight(pts: seq<Point>) {
    forall i :: 1 <= i < |pts| ==> Straight(pts[i - 1], pts[i])
  }

  /** The coordinates of a network are pairs relative to its position; a left over one is ignored. */
  function Points(coords: seq<real>, o: Point): (pts: seq<Point>)
    ensures |pts| == |coords| / 2
    ensures forall i :: 0 <= i < |pts| ==> pts[i] == Point(coords[2 * i] + o.x, coords[2 * i + 1] + o.y)
  {
    if |coords| < 2 then [] else [Point(coords[0] + o.x, coords[1] + o.y)] + Points(coords[2..], o)
  }

  lemma NearestOfSegment(s: Point, a: Point, b: Point, p: Point)
    requires Straight(a, b) && Between(p, a, b)
    ensures Distance(a, s) <= Distance(p, s) || Distance(b, s) <= Distance(p, s)
            || (Min(a.x, b.x) <= s.x <= Max(a.x, b.x) && Distance(Point(s.x, b.y), s) <= Distance(p, s))
            || (Min(a.y, b.y) <= s.y <= Max(a.y, b.y) && Distance(Point(b.x, s.y), s) <= Distance(p, s))
  {
  }

  /** The point nearest to s: for a network of horizontal and vertical segments it lies on the network
      and no point of the network is nearer. */
  method NetworkLinkEnd(coords: seq<real>, o: Point, s: Point) returns (r: Point)
    ensures |coords| < 2 ==> r == Point(0.0, 0.0)
    ensures var pts := Points(coords, o);
            pts != [] && AllStraight(pts) ==>
              OnLine(r, pts) && forall p :: OnLine(p, pts) ==> Distance(r, s) <= Distance(p, s)
    ensures var pts := Points(coords, o);
            forall i :: 0 <= i < |pts| ==> Distance(r, s) <= Distance(pts[i], s)
  {
    var pts := ReadPoints(coords, o);
    var found, d;
    r, found, d := TrySegments(pts, s);
    r, found, d := TryPoints(pts, s, r, found, d);
    if AllStraight(pts) {
      forall p | OnLine(p, pts) ensures Distance(r, s) <= Distance(p, s) {
        var k :| 0 <= k < |pts| && OnPart(p, pts, k);
        if p != pts[k] {
          assert Straight(pts[k - 1], pts[k]);
          SegmentBetween(p, pts[k - 1], pts[k]);
          NearestOfSegment(s, pts[k - 1], pts[k], p);
        }
      }
    }
  }

  // The best so far: r is at distance d, and on the network if that is straight.
  ghost predicate Best(pts: seq<Point>, s: Point, r: Point, found: bool, d: real) {
    if found then d == Distance(r, s) && (AllStraight(pts) ==> OnLine(r, pts)) else r == Point(0.0, 0.0)
  }

  // Looks for a horizontal or vertical line from s to a segment.
  method TrySegments(pts: seq<Point>, s: Point) returns (r: Point, found: bool, d: real)
    ensures Best(pts, s, r, found, d)
    ensures forall k :: 1 <= k < |pts| ==> Offered(pts[k - 1], pts[k], s, found, d)
  {
    found, d := false, 0.0;
    r := Point(0.0, 0.0);
    for i := 1 to Max1(|pts|)
      invariant Best(pts, s, r, found, d)
      invariant forall k :: 1 <= k < i && k < |pts| ==> Offered(pts[k - 1], pts[k], s, found, d)
    {
      r, found, d := TrySegment(pts, s, i, r, found, d);
    }
  }

  function Max1(n: nat): nat { if n < 1 then 1 else n }

  method TrySegment(pts: seq<Point>, s: Point, i: nat, r0: Point, found0: bool, d0: real)
    returns (r: Point, found: bool, d: real)
    requires 1 <= i < |pts| && Best(pts, s, r0, found0, d0)
    ensures Best(pts, s, r, found, d) && Offered(pts[i - 1], pts[i], s, found, d)
    ensures found0 ==> found && d <= d0
  {
    r, found, d := r0, found0, d0;
    var a, b := pts[i - 1], pts[i];
    assert AllStraight(pts) ==> Straight(a, b);
    if Straight(a, b) {
      SegmentBetween(Point(s.x, b.y), a, b);
      SegmentBetween(Point(b.x, s.y), a, b);
    }
    if Min(a.x, b.x) <= s.x <= Max(a.x, b.x) {
      var nd := Abs(s.y - b.y);
      if !found || nd < d {
        r, d, found := Point(s.x, b.y), nd, true;
        assert Straight(a, b) ==> OnPart(r, pts, i);
      }
    }
    if Min(a.y, b.y) <= s.y <= Max(a.y, b.y) {
      var nd := Abs(s.x - b.x);
      if !found || nd < d {
        r, d, found := Point(b.x, s.y), nd, true;
        assert Straight(a, b) ==> OnPart(r, pts, i);
      }
    }
  }

  method TryPoints(pts: seq<Point>, s: Point, r0: Point, found0: bool, d0: real)
    returns (r: Point, found: bool, d: real)
    requires Best(pts, s, r0, found0, d0)
    ensures Best(pts, s, r, found, d) && (found <==> found0 || pts != [])
    ensures found0 ==> d <= d0
    ensures forall k :: 0 <= k < |pts| ==> d <= Distance(pts[k], s)
  {
    r, found, d := r0, found0, d0;
    for i := 0 to |pts|
      invariant Best(pts, s, r, found, d) && (found <==> found0 || i > 0)
      invariant found0 ==> d <= d0
      invariant forall k :: 0 <= k < i ==> d <= Distance(pts[k], s)
    {
      var nd := Abs(pts[i].x - s.x) + Abs(pts[i].y - s.y);
      if !found || nd < d {
        r, d, found := pts[i], nd, true;
        assert OnPart(r, pts, i);
      }
    }
  }

  // The projections of s onto a segment have been considered.
  predicate Offered(a: Point, b: Point, s: Point, found: bool, d: real) {
    && (Min(a.x, b.x) <= s.x <= Max(a.x, b.x) ==> found && d <= Distance(Point(s.x, b.y), s))
    && (Min(a.y, b.y) <= s.y <= Max(a.y, b.y) ==> found && d <= Distance(Point(b.x, s.y), s))
  }

  method ReadPoints(coords: seq<real>, o: Point) returns (pts: seq<Point>)
    ensures pts == Points(coords, o)
  {
    pts := [];
    var x, i := 0.0, 0;
    while i < |coords|
      invariant 0 <= i <= |coords| && |pts| == i / 2
      invariant i % 2 == 1 ==> x == coords[i - 1] + o.x
      invariant forall k :: 0 <= k < |pts| ==> pts[k] == Point(coords[2 * k] + o.x, coords[2 * k + 1] + o.y)
    {
      if i % 2 == 0 {
        x := coords[i] + o.x;
      } else {
        pts := pts + [Point(x, coords[i] + o.y)];
      }
      i := i + 1;
    }
  }
}
