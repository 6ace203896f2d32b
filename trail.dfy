/** The trail of past craft positions drawn behind the helicopter. */
module Trail {
  import opened Config

  /** A past position: screen x, and the craft's y at that time. */
  datatype TrailPoint = TrailPoint(x: int, y: real)

  /** The longest trail: positions from `HeliX` down to x = 2, one per `SpeedX`. */
  const MaxTrail: int := HeliX / SpeedX + 1

  function ShiftTrail(s: seq<TrailPoint>, dx: int): seq<TrailPoint>
  {
    seq(|s|, i requires 0 <= i < |s| => TrailPoint(s[i].x - dx, s[i].y))
  }

  /** The points with x >= 0, in order. */
  function Visible(s: seq<TrailPoint>): (r: seq<TrailPoint>)
    ensures |r| <= |s|
    ensures forall i :: 0 <= i < |r| ==> r[i].x >= 0
  {
    if s == [] then []
    else
      var init := Visible(s[..|s| - 1]);
      assert s == s[..|s| - 1] + [s[|s| - 1]];
      assert forall i :: 0 <= i < |s| - 1 ==> s[..|s| - 1][i] == s[i];
      if s[|s| - 1].x >= 0 then init + [s[|s| - 1]] else init
  }

  /**
   * The filter keeps every point on screen, as often as it occurs, and drops
   * every other one.
   */
  lemma {:induction false} VisibleFilters(s: seq<TrailPoint>)
    ensures var r := Visible(s);
            && (forall p :: multiset(r)[p] == if p.x >= 0 then multiset(s)[p] else 0)
            && (forall p :: p in r <==> p in s && p.x >= 0)
  {
    if s != [] {
      var init := s[..|s| - 1];
      var last := s[|s| - 1];
      VisibleFilters(init);
      assert s == init + [last];
      assert multiset(s) == multiset(init) + multiset{last};
      var r := Visible(s);
      if last.x >= 0 {
        assert r == Visible(init) + [last];
        assert multiset(r) == multiset(Visible(init)) + multiset{last};
      } else {
        assert r == Visible(init);
      }
      forall p
        ensures p in r <==> p in s && p.x >= 0
      {
        assert p in r <==> multiset(r)[p] > 0;
        assert p in s <==> multiset(s)[p] > 0;
      }
    }
  }

  /** One step of the filter: the last point is kept exactly when it is on screen. */
  lemma VisibleSnoc(s: seq<TrailPoint>, p: TrailPoint)
    ensures Visible(s + [p]) == if p.x >= 0 then Visible(s) + [p] else Visible(s)
  {
    assert (s + [p])[..|s|] == s;
  }

  lemma SplitLast(a: seq<TrailPoint>, b: seq<TrailPoint>)
    requires b != []
    ensures b == b[..|b| - 1] + [b[|b| - 1]]
    ensures a + b == (a + b[..|b| - 1]) + [b[|b| - 1]]
  {
    assert b == b[..|b| - 1] + [b[|b| - 1]];
  }

  /**
   * Filtering a concatenation filters each part and keeps the parts in
   * order; with the one-point case this pins the filter down completely.
   */
  lemma {:induction false} VisibleConcat(a: seq<TrailPoint>, b: seq<TrailPoint>)
    ensures Visible(a + b) == Visible(a) + Visible(b)
    decreases |b|
  {
    if b == [] {
      assert a + b == a;
    } else {
      var b', last := b[..|b| - 1], b[|b| - 1];
      VisibleConcat(a, b');
      VisibleSnoc(a + b', last);
      VisibleSnoc(b', last);
      SplitLast(a, b);
      if last.x >= 0 {
        calc {
          Visible(a + b);
          Visible(a + b') + [last];
          (Visible(a) + Visible(b')) + [last];
          Visible(a) + (Visible(b') + [last]);
          Visible(a) + Visible(b);
        }
      } else {
        calc {
          Visible(a + b);
          Visible(a + b');
          Visible(a) + Visible(b');
          Visible(a) + Visible(b);
        }
      }
    }
  }

  /** A single point is kept exactly when it is on screen. */
  lemma VisibleSingle(p: TrailPoint)
    ensures Visible([p]) == if p.x >= 0 then [p] else []
  {
    VisibleSnoc([], p);
    assert [] + [p] == [p];
  }

  /** A sequence with nothing to drop is kept as it is. */
  lemma {:induction false} VisibleKeepsAll(s: seq<TrailPoint>)
    requires forall i :: 0 <= i < |s| ==> s[i].x >= 0
    ensures Visible(s) == s
  {
    if s != [] {
      var init := s[..|s| - 1];
      assert forall i :: 0 <= i < |init| ==> init[i] == s[i];
      VisibleKeepsAll(init);
      assert init + [s[|s| - 1]] == s;
    }
  }

  /** The trail after one frame, with the craft at `posY`. */
  function TrailAfter(trail: seq<TrailPoint>, posY: real): seq<TrailPoint>
  {
    Visible([TrailPoint(HeliX, posY)] + ShiftTrail(trail, SpeedX))
  }

  /** Point `i` of the trail lies `i` scroll steps left of the craft. */
  ghost predicate Aligned(trail: seq<TrailPoint>)
  {
    forall i :: 0 <= i < |trail| ==> trail[i].x == HeliX - SpeedX * i
  }

  function Min(a: int, b: int): int { if a <= b then a else b }

  /** On an aligned sequence the filter keeps exactly the first `MaxTrail` points. */
  lemma {:induction false} VisibleAligned(s: seq<TrailPoint>)
    requires Aligned(s)
    ensures Visible(s) == s[..Min(|s|, MaxTrail)]
  {
    if s != [] {
      var n := |s|;
      var init := s[..n - 1];
      assert AlignedPrefix: Aligned(init) by {
        forall i | 0 <= i < |init| ensures init[i].x == HeliX - SpeedX * i {
          assert init[i] == s[i];
        }
      }
      VisibleAligned(init);
      var last := s[n - 1];
      assert last.x == HeliX - SpeedX * (n - 1);
      assert Visible(s) == if last.x >= 0 then Visible(init) + [last] else Visible(init);
      if n <= MaxTrail {
        assert init + [last] == s;
      } else {
        assert init[..MaxTrail] == s[..MaxTrail];
      }
    }
  }

  /**
   * An aligned trail stays aligned: the newest position is the craft's, every
   * older one keeps its y one step further left, and the trail never grows
   * beyond `MaxTrail` points.
   */
  lemma TrailAfterAligned(trail: seq<TrailPoint>, posY: real)
    requires Aligned(trail)
    ensures var r := TrailAfter(trail, posY);
            && Aligned(r)
            && |r| == Min(|trail| + 1, MaxTrail)
            && r[0] == TrailPoint(HeliX, posY)
            && forall i :: 1 <= i < |r| ==> r[i].y == trail[i - 1].y
  {
    var s := [TrailPoint(HeliX, posY)] + ShiftTrail(trail, SpeedX);
    assert Aligned(s) by {
      forall i | 0 <= i < |s|
        ensures s[i].x == HeliX - SpeedX * i
      {
        if i > 0 {
          assert s[i] == TrailPoint(trail[i - 1].x - SpeedX, trail[i - 1].y);
        }
      }
    }
    VisibleAligned(s);
  }
}
