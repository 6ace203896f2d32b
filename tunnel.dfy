/**
 * The sliding window of tunnel centre-line points: scroll, extend at the
 * right, prune at the left, and look up the centre at a given x.
 */
module Tunnel {
  import opened Config

  datatype Option<T> = None | Some(value: T)

  /** A centre-line control point; every coordinate the game produces is a whole number. */
  datatype Point = Point(x: int, y: int)

  /** Horizontal distance between the two points the window starts from. */
  const InitialSegment: int := Width / 2

  /** The band the tunnel centre stays in. */
  const CenterLow: int := Height / 2 - CenterOffsetMax
  const CenterHigh: int := Height / 2 + CenterOffsetMax

  /** Upper bound on the number of points in a window. */
  const MaxWindowPoints: int := 7

  function Last(t: seq<Point>): Point
    requires |t| > 0
  {
    t[|t| - 1]
  }

  /** Horizontal distance from point `i` to point `i + 1`. */
  function Gap(t: seq<Point>, i: int): int
    requires 0 <= i < |t| - 1
  {
    t[i + 1].x - t[i].x
  }

  /** Whether the segment from point `i` to point `i + 1` covers `x`. */
  predicate Covers(t: seq<Point>, i: int, x: int)
    requires 0 <= i < |t| - 1
  {
    t[i].x <= x <= t[i + 1].x
  }

  /** Every point moved left by `dx`. */
  function Shift(t: seq<Point>, dx: int): seq<Point>
  {
    seq(|t|, i requires 0 <= i < |t| => Point(t[i].x - dx, t[i].y))
  }

  /**
   * The point appended after a last point at `lastX`, using draws `n` (the
   * segment length) and `n + 1` (the centre offset).
   */
  function NewPoint(lastX: int, randint: Oracle, n: nat): (p: Point)
    requires IsRandInt(randint)
    ensures SegmentMin <= p.x - lastX <= SegmentMax
    ensures CenterLow <= p.y <= CenterHigh
  {
    Point(lastX + randint[Draw(SegmentMin, SegmentMax, n)],
          Height / 2 + randint[Draw(-CenterOffsetMax, CenterOffsetMax, n + 1)])
  }

  /**
   * Appends points while the last one is short of the right screen edge;
   * returns the points and the index of the next unused draw.
   */
  function Extend(t: seq<Point>, randint: Oracle, n: nat): (seq<Point>, nat)
    requires |t| > 0 && IsRandInt(randint)
    decreases Width - Last(t).x
  {
    if Last(t).x >= Width then (t, n)
    else Extend(t + [NewPoint(Last(t).x, randint, n)], randint, n + 2)
  }

  /**
   * Extending keeps the old points as a prefix, reaches the right edge, uses
   * two draws per new point, and appends a point only while the last one lies
   * short of the edge, one segment length further right, with its centre in
   * the offset band.
   */
  lemma {:induction false} ExtendSpec(t: seq<Point>, randint: Oracle, n: nat)
    requires |t| > 0 && IsRandInt(randint)
    ensures var r := Extend(t, randint, n);
            && |t| <= |r.0| && r.0[..|t|] == t
            && Width <= Last(r.0).x
            && r.1 == n + 2 * (|r.0| - |t|)
            && (forall k :: |t| - 1 <= k < |r.0| - 1 ==> r.0[k].x < Width)
            && (forall k :: |t| - 1 <= k < |r.0| - 1 ==> SegmentMin <= Gap(r.0, k) <= SegmentMax)
            && (forall k :: |t| <= k < |r.0| ==> CenterLow <= r.0[k].y <= CenterHigh)
    decreases Width - Last(t).x
  {
    if Last(t).x < Width {
      var p := NewPoint(Last(t).x, randint, n);
      var t' := t + [p];
      ExtendSpec(t', randint, n + 2);
      var r := Extend(t', randint, n + 2);
      assert r.0[..|t|] == r.0[..|t'|][..|t|];
      assert r.0[|t| - 1] == t[|t| - 1] && r.0[|t|] == p;
      assert Gap(r.0, |t| - 1) == p.x - Last(t).x;
    }
  }

  /** Drops the first point while the second one lies left of the screen. */
  function Prune(t: seq<Point>): seq<Point>
    requires |t| >= 2 && Last(t).x >= 0
    decreases |t|
  {
    if t[1].x < 0 then Prune(t[1..]) else t
  }

  /**
   * Pruning keeps a suffix of at least two points whose second point is on
   * screen, and drops exactly the points whose successor lies left of it.
   */
  lemma {:induction false} PruneSpec(t: seq<Point>)
    requires |t| >= 2 && Last(t).x >= 0
    ensures var r := Prune(t);
      && 2 <= |r| <= |t| && r == t[|t| - |r|..]
      && r[1].x >= 0
      && forall i :: 1 <= i <= |t| - |r| ==> t[i].x < 0
    decreases |t|
  {
    if t[1].x < 0 {
      assert Last(t[1..]) == Last(t);
      PruneSpec(t[1..]);
    }
  }

  /** One tunnel update: scroll by `SpeedX`, extend, prune. */
  function UpdateTunnel(t: seq<Point>, randint: Oracle, n: nat): (r: (seq<Point>, nat))
    requires |t| >= 2 && IsRandInt(randint)
    ensures n <= r.1
  {
    var e := Extend(Shift(t, SpeedX), randint, n);
    ExtendSpec(Shift(t, SpeedX), randint, n);
    (Prune(e.0), e.1)
  }

  /**
   * One update scrolls every point left by `SpeedX`, appends the extension
   * after them, and drops a prefix of the result: every old point that
   * survives has moved left by exactly `SpeedX` and kept its centre, and two
   * draws are used per appended point.
   */
  lemma UpdateTunnelShape(t: seq<Point>, randint: Oracle, n: nat)
    requires |t| >= 2 && IsRandInt(randint)
    ensures var e := Extend(Shift(t, SpeedX), randint, n).0;
            var r := UpdateTunnel(t, randint, n);
            && |t| <= |e| && e[..|t|] == Shift(t, SpeedX)
            && 2 <= |r.0| <= |e| && r.0 == e[|e| - |r.0|..]
            && r.1 == n + 2 * (|e| - |t|)
            && forall i :: |e| - |r.0| <= i < |t| ==> r.0[i - (|e| - |r.0|)] == Point(t[i].x - SpeedX, t[i].y)
  {
    var s := Shift(t, SpeedX);
    ExtendSpec(s, randint, n);
    var e := Extend(s, randint, n).0;
    PruneSpec(e);
    var r := Prune(e);
    var d := |e| - |r|;
    forall i | d <= i < |t|
      ensures r[i - d] == Point(t[i].x - SpeedX, t[i].y)
    {
      assert r[i - d] == e[i] == e[..|t|][i] == s[i];
    }
  }

  /**
   * A well-formed run of centre-line points: consecutive points between
   * `SegmentMin` and `InitialSegment` apart, every centre in the offset band,
   * and no point more than one maximal segment past the right edge.
   */
  ghost predicate Chain(t: seq<Point>)
  {
    && |t| >= 2
    && (forall i :: 0 <= i < |t| - 1 ==> SegmentMin <= Gap(t, i) <= InitialSegment)
    && (forall i :: 0 <= i < |t| ==> CenterLow <= t[i].y <= CenterHigh && t[i].x < Width + SegmentMax)
  }

  /**
   * The window after an update: a chain whose first point lies left of the
   * screen, whose second does not, and whose last reaches the right edge.
   */
  ghost predicate Window(t: seq<Point>)
  {
    Chain(t) && t[0].x < 0 <= t[1].x && Width <= Last(t).x
  }

  predicate Increasing(t: seq<Point>)
  {
    forall i :: 0 <= i < |t| - 1 ==> 0 < Gap(t, i)
  }

  /**
   * One update turns a chain that starts at or left of x = 0 (the start
   * tunnel, or any window) into a window, and uses two draws per added point.
   */
  lemma UpdateTunnelKeepsWindow(t: seq<Point>, randint: Oracle, n: nat)
    requires Chain(t) && t[0].x <= 0 && IsRandInt(randint)
    ensures Window(UpdateTunnel(t, randint, n).0)
  {
    var s := Shift(t, SpeedX);
    var e := Extend(s, randint, n);
    ExtendSpec(s, randint, n);
    ShiftKeepsChain(t, SpeedX);
    ExtendKeepsChain(s, randint, n);
    var w := Prune(e.0);
    PruneSpec(e.0);
    PruneKeepsChain(e.0);
    var d := |e.0| - |w|;
    if d == 0 {
      assert w[0] == e.0[0] == s[0];
    } else {
      assert w[0] == e.0[d];
    }
  }

  /** Scrolling a chain to the left keeps it a chain. */
  lemma ShiftKeepsChain(t: seq<Point>, dx: nat)
    requires Chain(t)
    ensures Chain(Shift(t, dx))
  {
    var s := Shift(t, dx);
    forall i | 0 <= i < |s| - 1
      ensures Gap(s, i) == Gap(t, i)
    {
    }
  }

  /** Extending a chain that ends short of one maximal segment past the edge keeps it a chain. */
  lemma ExtendKeepsChain(s: seq<Point>, randint: Oracle, n: nat)
    requires Chain(s) && IsRandInt(randint)
    ensures Chain(Extend(s, randint, n).0)
  {
    var e := Extend(s, randint, n).0;
    ExtendSpec(s, randint, n);
    forall i | 0 <= i < |e| - 1
      ensures SegmentMin <= Gap(e, i) <= InitialSegment
    {
      if i + 1 < |s| {
        assert e[i] == s[i] && e[i + 1] == s[i + 1];
        assert Gap(e, i) == Gap(s, i);
      }
    }
    forall i | 0 <= i < |e|
      ensures CenterLow <= e[i].y <= CenterHigh && e[i].x < Width + SegmentMax
    {
      if i < |s| {
        assert e[i] == s[i];
      } else {
        assert e[i - 1].x < Width && Gap(e, i - 1) <= SegmentMax;
      }
    }
  }

  /** Dropping the first point of a chain of three or more leaves a chain. */
  lemma ChainTail(t: seq<Point>)
    requires Chain(t) && |t| >= 3
    ensures Chain(t[1..])
  {
    var u := t[1..];
    forall i | 0 <= i < |u| - 1
      ensures Gap(u, i) == Gap(t, i + 1)
    {
    }
    forall i | 0 <= i < |u|
      ensures u[i] == t[i + 1]
    {
    }
  }

  /** Pruning a chain leaves a chain with the same last point. */
  lemma {:induction false} PruneKeepsChain(e: seq<Point>)
    requires Chain(e) && Last(e).x >= 0
    ensures Chain(Prune(e)) && Last(Prune(e)) == Last(e)
    decreases |e|
  {
    if e[1].x < 0 {
      ChainTail(e);
      assert Last(e[1..]) == Last(e);
      PruneKeepsChain(e[1..]);
    }
  }

  /** Along a chain, x grows by at least `SegmentMin` per point. */
  lemma {:induction false} ChainSpread(t: seq<Point>, i: nat, j: nat)
    requires Chain(t) && i <= j < |t|
    ensures t[j].x - t[i].x >= SegmentMin * (j - i)
    decreases j - i
  {
    if i < j {
      ChainSpread(t, i, j - 1);
      assert SegmentMin <= Gap(t, j - 1);
    }
  }

  /** A window holds a bounded number of points, whatever the draws were. */
  lemma WindowLength(t: seq<Point>)
    requires Window(t)
    ensures |t| <= MaxWindowPoints
  {
    ChainSpread(t, 1, |t| - 1);
  }

  /**
   * The first index `j >= i` whose segment `[t[j].x, t[j + 1].x]` contains
   * `x`, as the lookup loop finds it.
   */
  function FindSegment(t: seq<Point>, x: int, i: nat): (r: Option<nat>)
    ensures r.Some? ==> i <= r.value && r.value + 1 < |t| && Covers(t, r.value, x)
    ensures forall j :: i <= j < |t| - 1 && (r.None? || j < r.value) ==> !Covers(t, j, x)
    decreases |t| - i
  {
    if i + 1 >= |t| then None
    else if t[i].x <= x <= t[i + 1].x then Some(i)
    else FindSegment(t, x, i + 1)
  }

  function MinY(a: Point, b: Point): int { if a.y <= b.y then a.y else b.y }
  function MaxY(a: Point, b: Point): int { if a.y <= b.y then b.y else a.y }

  /** Linear interpolation of the centre between two points at `x`. */
  function Interpolate(left: Point, right: Point, x: int): (y: real)
    requires left.x <= x <= right.x && left.x < right.x
    ensures MinY(left, right) as real <= y <= MaxY(left, right) as real
    ensures x == left.x ==> y == left.y as real
    ensures x == right.x ==> y == right.y as real
  {
    var ratio := (x - left.x) as real / (right.x - left.x) as real;
    RatioInUnit((x - left.x) as real, (right.x - left.x) as real);
    ScaleBetween((right.y - left.y) as real, ratio);
    left.y as real + (right.y - left.y) as real * ratio
  }

  lemma RatioInUnit(a: real, b: real)
    requires 0.0 <= a <= b && 0.0 < b
    ensures 0.0 <= a / b <= 1.0
    ensures a == 0.0 ==> a / b == 0.0
    ensures a == b ==> a / b == 1.0
  {
    assert a / b * b == a;
  }

  lemma ScaleBetween(d: real, r: real)
    requires 0.0 <= r <= 1.0
    ensures d >= 0.0 ==> 0.0 <= d * r <= d
    ensures d < 0.0 ==> d <= d * r <= 0.0
  {
  }

  /** The centre of the tunnel at `x`, or `None` when no segment covers `x`. */
  function CenterAt(t: seq<Point>, x: int): (c: Option<real>)
    requires Increasing(t)
    ensures c.Some? ==> exists i :: 0 <= i < |t| - 1 && Covers(t, i, x)
                                    && MinY(t[i], t[i + 1]) as real <= c.value <= MaxY(t[i], t[i + 1]) as real
    ensures c.None? ==> forall i :: 0 <= i < |t| - 1 ==> !Covers(t, i, x)
  {
    match FindSegment(t, x, 0)
    case None => None
    case Some(i) =>
      assert 0 < Gap(t, i);
      Some(Interpolate(t[i], t[i + 1], x))
  }

  /** If `x` lies between `t[i].x` and the last point, some segment from `i` on covers it. */
  lemma {:induction false} SegmentExists(t: seq<Point>, x: int, i: nat)
    requires i + 1 < |t| && t[i].x <= x <= Last(t).x
    ensures FindSegment(t, x, i).Some?
    decreases |t| - i
  {
    if !(t[i + 1].x >= x) {
      SegmentExists(t, x, i + 1);
    }
  }

  /**
   * In a window the lookup at the craft's x always succeeds, and the centre
   * it finds lies in the offset band.
   */
  lemma CenterFound(t: seq<Point>)
    requires Window(t)
    ensures Increasing(t)
    ensures CenterAt(t, HeliX).Some?
    ensures CenterLow as real <= CenterAt(t, HeliX).value <= CenterHigh as real
  {
    SegmentExists(t, HeliX, 0);
  }
}
