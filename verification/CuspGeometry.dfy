/** What counts as a cusp, in terms of distances and of plans along a line, and what becomes of such plans. */
module CuspGeometry {
  import opened NavProbe

  lemma AxisSum(a: real, b: real, c: real)
    ensures (a - c) * (a - c) == (a - b) * (a - b) + (b - c) * (b - c) + 2.0 * ((b - a) * (c - b))
  {
  }

  /** The plan doubles back at b if and only if the angle there is acute: the way round over b is, in squares,
      longer than the way straight from a to c. */
  lemma CuspIffAcute(a: Point, b: Point, c: Point)
    ensures DoublesBack(a, b, c) <==> Dist2(a, c) < Dist2(a, b) + Dist2(b, c)
  {
    AxisSum(a.x, b.x, c.x);
    AxisSum(a.y, b.y, c.y);
  }

  // ---- Plans along a line ----

  /** The plan runs along the line through a and b, its points at the parameters s. */
  ghost predicate OnLine(pts: seq<Point>, a: Point, b: Point, s: seq<real>) {
    a != b && |pts| == |s| && forall i :: 0 <= i < |pts| ==> pts[i] == Along(a, b, s[i])
  }

  /** A step along the line, on each axis. */
  lemma StepIs(a: Point, b: Point, s: real, t: real)
    ensures Along(a, b, t).x - Along(a, b, s).x == (t - s) * (b.x - a.x)
    ensures Along(a, b, t).y - Along(a, b, s).y == (t - s) * (b.y - a.y)
  {
  }

  lemma Regroup(u: real, v: real, d: real)
    ensures (u * d) * (v * d) == (u * v) * (d * d)
  {
  }

  lemma NegativeFactor(p: real, h: real)
    requires h > 0.0
    ensures p * h < 0.0 <==> p < 0.0
  {
    if p < 0.0 {
      var _ := Product(-p, h);
    } else {
      Scale(0.0, p, h);
    }
  }

  lemma SignsOppose(u: real, v: real)
    ensures u * v < 0.0 <==> (u < 0.0 < v || v < 0.0 < u)
  {
    if u > 0.0 {
      NegativeFactor(v, u);
    } else if u < 0.0 {
      NegativeFactor(-v, -u);
    }
  }

  lemma SameFactors(e: real, f: real, u: real, v: real, d: real)
    requires e == u * d && f == v * d
    ensures e * f == (u * v) * (d * d)
  {
    Regroup(u, v, d);
  }

  /** Two steps, u and v times the same vector. */
  lemma StepsOnLine(q0: Point, q1: Point, q2: Point, u: real, v: real, dx: real, dy: real)
    requires q1.x - q0.x == u * dx && q2.x - q1.x == v * dx
    requires q1.y - q0.y == u * dy && q2.y - q1.y == v * dy
    ensures DoublesBack(q0, q1, q2) <==> (u * v) * (dx * dx) + (u * v) * (dy * dy) < 0.0
  {
    SameFactors(q1.x - q0.x, q2.x - q1.x, u, v, dx);
    SameFactors(q1.y - q0.y, q2.y - q1.y, u, v, dy);
  }

  /** Along a line the plan doubles back at the turning points of the parameter, and nowhere else. */
  lemma CuspIffTurns(a: Point, b: Point, s0: real, s1: real, s2: real)
    requires a != b
    ensures DoublesBack(Along(a, b, s0), Along(a, b, s1), Along(a, b, s2)) <==>
              (s0 < s1 && s2 < s1) || (s1 < s0 && s1 < s2)
  {
    var q0, q1, q2, u, v := Along(a, b, s0), Along(a, b, s1), Along(a, b, s2), s1 - s0, s2 - s1;
    var dx, dy := b.x - a.x, b.y - a.y;
    StepIs(a, b, s0, s1);
    StepIs(a, b, s1, s2);
    StepsOnLine(q0, q1, q2, u, v, dx, dy);
    var h := LengthSquared(dx, dy);
    Spread(u * v, dx * dx, dy * dy);
    NegativeFactor(u * v, h);
    SignsOppose(u, v);
  }

  lemma Spread(p: real, x: real, y: real)
    ensures p * x + p * y == p * (x + y)
  {
  }

  /** With c on the line through a and b, k times as far beyond b as b is from a, it is a cusp exactly for a
      negative k. */
  lemma CuspIffBehind(a: Point, b: Point, k: real)
    requires a != b
    ensures DoublesBack(a, b, Along(a, b, 1.0 + k)) <==> k < 0.0
  {
    assert a == Along(a, b, 0.0) && b == Along(a, b, 1.0);
    CuspIffTurns(a, b, 0.0, 1.0, 1.0 + k);
  }

  lemma TurnsAt(pts: seq<Point>, a: Point, b: Point, s: seq<real>, i: int)
    requires OnLine(pts, a, b, s)
    ensures Reverses(pts, i) <==>
              && 1 <= i <= |s| - 2
              && ((s[i - 1] < s[i] && s[i + 1] < s[i]) || (s[i] < s[i - 1] && s[i] < s[i + 1]))
  {
    if 1 <= i <= |s| - 2 {
      CuspIffTurns(a, b, s[i - 1], s[i], s[i + 1]);
    }
  }

  // ---- What becomes of them ----

  lemma {:induction false} NoMarks(marks: set<nat>, n: nat)
    requires forall i :: i in marks ==> n <= i
    ensures Sorted(marks, n) == []
  {
    if n > 0 {
      NoMarks(marks, n - 1);
    }
  }

  lemma {:induction false} OneMark(m: nat, n: nat)
    requires m < n
    ensures Sorted({m}, n) == [m]
  {
    if m < n - 1 {
      OneMark(m, n - 1);
    } else {
      NoMarks({m}, m);
    }
  }

  /** A plan that never goes back along its line, standing still allowed, is one run and is kept whole. */
  lemma ForwardPlanIsOneRun(pts: seq<Point>, a: Point, b: Point, s: seq<real>)
    requires |pts| >= 3 && OnLine(pts, a, b, s)
    requires forall i :: 0 < i < |s| ==> s[i - 1] <= s[i]
    ensures Cusps(pts) == {} && Runs(pts) == [pts] && Long(Runs(pts)) == [pts]
  {
    forall i: nat ensures !Reverses(pts, i) {
      TurnsAt(pts, a, b, s, i);
    }
    assert Cusps(pts) == {};
    NoMarks({}, |pts|);
    assert Bounds({}, |pts|) == [0, |pts| - 1];
    assert pts[0..|pts|] == pts;
    assert Runs(pts) == [pts];
    assert [pts][..0] == [];
  }

  /** A plan that goes out along a line to point m and comes back has its one cusp there, and splits into the
      way out and the way back. */
  lemma OutAndBackSplitsOnce(pts: seq<Point>, a: Point, b: Point, s: seq<real>, m: nat)
    requires OnLine(pts, a, b, s) && 1 <= m <= |pts| - 2
    requires forall i :: 0 < i <= m ==> s[i - 1] < s[i]
    requires forall i :: m < i < |s| ==> s[i] < s[i - 1]
    ensures Cusps(pts) == {m} && Runs(pts) == [pts[..m + 1], pts[m..]]
  {
    forall i: nat ensures Reverses(pts, i) <==> i == m {
      TurnsAt(pts, a, b, s, i);
    }
    assert Cusps(pts) == {m};
    OneMark(m, |pts|);
    assert Bounds({m}, |pts|) == [0, m, |pts| - 1];
    assert pts[0..m + 1] == pts[..m + 1] && pts[m..|pts|] == pts[m..];
  }
}
