/** Path metrics of nav_probe.py: splitting a plan at its direction reversals, the distance to a
    segment, and pairing the smoother's outputs with its inputs. */
module NavProbe {

  datatype Point = Point(x: real, y: real)

  /** The segments a-b and b-c point in opposing directions. */
  predicate DoublesBack(a: Point, b: Point, c: Point) {
    (b.x - a.x) * (c.x - b.x) + (b.y - a.y) * (c.y - b.y) < 0.0
  }

  /** The plan doubles back at point i. */
  predicate Reverses(pts: seq<Point>, i: int) {
    1 <= i <= |pts| - 2 && DoublesBack(pts[i - 1], pts[i], pts[i + 1])
  }

  function Cusps(pts: seq<Point>): set<nat> {
    set i: nat | i < |pts| && Reverses(pts, i)
  }

  predicate Rising(s: seq<nat>) {
    forall j, k :: 0 <= j < k < |s| ==> s[j] < s[k]
  }

  // ---- Cutting at a set of marks ----

  /** The marks below n, in order. */
  function Sorted(marks: set<nat>, n: nat): (cuts: seq<nat>)
    ensures forall i :: i in cuts <==> i < n && i in marks
    ensures Rising(cuts)
  {
    if n == 0 then []
    else
      var before := Sorted(marks, n - 1);
      assert forall k :: 0 <= k < |before| ==> before[k] in before;
      if n - 1 in marks then before + [n - 1] else before
  }

  /** Where pieces begin: at 0 and at every mark below n. */
  function Starts(marks: set<nat>, n: nat): seq<nat> { [0] + Sorted(marks, n) }

  /** Piece boundaries for a plan of `len` points. */
  function Bounds(marks: set<nat>, len: nat): seq<nat>
    requires len >= 2
  {
    Starts(marks, len) + [len - 1]
  }

  ghost predicate Interior(marks: set<nat>, len: nat) {
    forall i :: i in marks ==> 1 <= i <= len - 2
  }

  lemma StartsRise(marks: set<nat>, n: nat)
    requires 0 !in marks
    ensures Rising(Starts(marks, n))
    ensures n > 0 ==> forall k :: 0 <= k < |Starts(marks, n)| ==> Starts(marks, n)[k] < n
    ensures forall k :: 0 < k < |Starts(marks, n)| ==> Starts(marks, n)[k] in marks
  {
    var cuts, starts := Sorted(marks, n), Starts(marks, n);
    assert forall k :: 0 < k < |starts| ==> starts[k] == cuts[k - 1] && cuts[k - 1] in cuts;
  }

  /** Boundaries rise from 0 to the last point, and those in between are the marks, all of them. */
  lemma BoundsRise(marks: set<nat>, len: nat)
    requires len >= 2 && Interior(marks, len)
    ensures var b := Bounds(marks, len);
            && Rising(b) && |b| == |Sorted(marks, len)| + 2 && b[0] == 0 && b[|b| - 1] == len - 1
            && (forall k :: 0 < k < |b| - 1 ==> b[k] in marks)
            && (forall k :: 0 <= k < |b| ==> b[k] < len)
  {
    var starts, b := Starts(marks, len), Bounds(marks, len);
    StartsRise(marks, len);
    assert forall k :: 0 < k < |b| - 1 ==> b[k] == starts[k] && starts[k] <= len - 2;
  }

  lemma MarkIsBound(marks: set<nat>, len: nat, i: nat) returns (k: nat)
    requires len >= 2 && Interior(marks, len) && i in marks
    ensures 0 < k < |Bounds(marks, len)| - 1 && Bounds(marks, len)[k] == i
  {
    var cuts := Sorted(marks, len);
    assert i in cuts;
    var c :| 0 <= c < |cuts| && cuts[c] == i;
    k := c + 1;
  }

  lemma NoMarkBetween(marks: set<nat>, len: nat, k: nat, at: nat)
    requires len >= 2 && Interior(marks, len) && k + 1 < |Bounds(marks, len)|
    requires Bounds(marks, len)[k] < at < Bounds(marks, len)[k + 1]
    ensures at !in marks
  {
    BoundsRise(marks, len);
    var b, cuts := Bounds(marks, len), Sorted(marks, len);
    forall c | 0 <= c < |cuts| ensures cuts[c] != at {
      assert cuts[c] == b[c + 1];
      assert c + 1 <= k || k + 1 <= c + 1;
    }
    assert at !in cuts;
  }

  /** The stretch of a plan from one boundary to the next, both included. */
  function Piece(pts: seq<Point>, s: seq<nat>, k: nat): seq<Point>
    requires k + 1 < |s|
  {
    if s[k] <= s[k + 1] < |pts| then pts[s[k]..s[k + 1] + 1] else []
  }

  function Pieces(pts: seq<Point>, s: seq<nat>): (pieces: seq<seq<Point>>)
    requires s != []
    ensures |pieces| == |s| - 1
  {
    seq(|s| - 1, k requires 0 <= k < |s| - 1 => Piece(pts, s, k))
  }

  /** The runs of a plan: its pieces between one cusp and the next. */
  function Runs(pts: seq<Point>): seq<seq<Point>>
    requires |pts| >= 2
  {
    Pieces(pts, Bounds(Cusps(pts), |pts|))
  }

  /** The runs of three or more points, in order. */
  function Long(runs: seq<seq<Point>>): seq<seq<Point>> {
    if runs == [] then []
    else Long(runs[..|runs| - 1]) + if |runs[|runs| - 1]| >= 3 then [runs[|runs| - 1]] else []
  }

  /** `all` is what the loop builds, `kept` what is returned. */
  method SplitAtCusps(pts: seq<Point>) returns (all: seq<seq<Point>>, kept: seq<seq<Point>>)
    ensures |pts| >= 2 ==> all == Runs(pts)
    ensures |pts| == 1 ==> all == [[pts[0], pts[0]]]
    ensures pts == [] ==> all == []
    ensures kept == Long(all)
  {
    all := [];
    ghost var cusps := Cusps(pts);
    var cur := if pts == [] then [] else [pts[0]];
    if |pts| >= 2 {
      PartialBegins(pts, cusps);
    }
    var i := 1;
    while i < |pts| - 1
      invariant 1 <= i && (|pts| >= 2 ==> i <= |pts| - 1)
      invariant |pts| >= 2 ==> Partial(pts, cusps, i, all, cur)
      invariant |pts| < 2 ==> all == [] && cur == pts
    {
      PartialNext(pts, cusps, i, all, cur);
      cur := cur + [pts[i]];
      if DoublesBack(pts[i - 1], pts[i], pts[i + 1]) {
        all := all + [cur];
        cur := [pts[i]];
      }
      i := i + 1;
    }
    if |pts| >= 2 {
      PartialEnds(pts, cusps, all, cur);
    }
    if pts != [] {
      assert |pts| == 1 ==> cur + [pts[0]] == [pts[0], pts[0]];
      cur := cur + [pts[|pts| - 1]];
      all := all + [cur];
    }
    kept := KeepLong(all);
  }

  method KeepLong(runs: seq<seq<Point>>) returns (kept: seq<seq<Point>>)
    ensures kept == Long(runs)
  {
    kept := [];
    for k := 0 to |runs|
      invariant kept == Long(runs[..k])
    {
      assert runs[..k + 1][..k] == runs[..k];
      if |runs[k]| >= 3 {
        kept := kept + [runs[k]];
      }
    }
    assert runs[..|runs|] == runs;
  }

  /** The state of the loop before point i: complete runs, and the open one. */
  ghost predicate Partial(pts: seq<Point>, marks: set<nat>, i: nat, all: seq<seq<Point>>, cur: seq<Point>) {
    var s := Starts(marks, i);
    && s[|s| - 1] < i < |pts|
    && all == Pieces(pts, s)
    && cur == pts[s[|s| - 1]..i]
  }

  lemma PiecesExtend(pts: seq<Point>, s: seq<nat>, e: nat)
    requires s != [] && s[|s| - 1] <= e < |pts|
    ensures Pieces(pts, s + [e]) == Pieces(pts, s) + [pts[s[|s| - 1]..e + 1]]
  {
    var longer := s + [e];
    forall k | 0 <= k < |s| - 1 ensures Piece(pts, longer, k) == Piece(pts, s, k) {
      assert longer[k] == s[k] && longer[k + 1] == s[k + 1];
    }
  }

  lemma PartialBegins(pts: seq<Point>, marks: set<nat>)
    requires |pts| >= 2 && 0 !in marks
    ensures Partial(pts, marks, 1, [], [pts[0]])
  {
    assert Sorted(marks, 1) == [];
    assert pts[0..1] == [pts[0]];
  }

  lemma PartialNext(pts: seq<Point>, marks: set<nat>, i: nat, all: seq<seq<Point>>, cur: seq<Point>)
    requires 1 <= i < |pts| - 1 && Partial(pts, marks, i, all, cur)
    ensures if i in marks then Partial(pts, marks, i + 1, all + [cur + [pts[i]]], [pts[i]])
            else Partial(pts, marks, i + 1, all, cur + [pts[i]])
  {
    var s := Starts(marks, i);
    assert cur + [pts[i]] == pts[s[|s| - 1]..i + 1];
    if i in marks {
      assert Starts(marks, i + 1) == s + [i];
      PiecesExtend(pts, s, i);
      assert [pts[i]] == pts[i..i + 1];
    }
  }

  lemma PartialEnds(pts: seq<Point>, marks: set<nat>, all: seq<seq<Point>>, cur: seq<Point>)
    requires |pts| >= 2 && Interior(marks, |pts|) && Partial(pts, marks, |pts| - 1, all, cur)
    ensures all + [cur + [pts[|pts| - 1]]] == Pieces(pts, Bounds(marks, |pts|))
  {
    var s := Starts(marks, |pts| - 1);
    assert Starts(marks, |pts|) == s;
    assert cur + [pts[|pts| - 1]] == pts[s[|s| - 1]..|pts|];
    PiecesExtend(pts, s, |pts| - 1);
  }

  // ---- What the runs are ----

  /** Glues runs together at their shared end points. */
  function Join(runs: seq<seq<Point>>): seq<Point> {
    if runs == [] then []
    else if |runs| == 1 then runs[0]
    else
      var last := runs[|runs| - 1];
      Join(runs[..|runs| - 1]) + if last == [] then [] else last[1..]
  }

  lemma JoinNext(runs: seq<seq<Point>>, n: nat)
    requires 2 <= n <= |runs| && runs[n - 1] != []
    ensures Join(runs[..n]) == Join(runs[..n - 1]) + runs[n - 1][1..]
  {
    assert runs[..n][..n - 1] == runs[..n - 1];
  }

  lemma {:induction false} JoinPrefix(pts: seq<Point>, b: seq<nat>, n: nat)
    requires 1 <= n < |b| && b[0] == 0 && Rising(b) && b[n] < |pts|
    ensures Join(Pieces(pts, b)[..n]) == pts[..b[n] + 1]
  {
    var runs := Pieces(pts, b);
    var m, e := b[n - 1], b[n];
    assert m < e;
    assert runs[n - 1] == pts[m..e + 1] by { assert runs[n - 1] == Piece(pts, b, n - 1); }
    if n == 1 {
      assert runs[..1] == [runs[0]];
    } else {
      assert Join(runs[..n - 1]) == pts[..m + 1] by { JoinPrefix(pts, b, n - 1); }
      JoinNext(runs, n);
      AbutAt(pts, m, e);
    }
  }

  /** A stretch up to m and one from m join to the stretch up to e. */
  lemma AbutAt(pts: seq<Point>, m: nat, e: nat)
    requires m < e < |pts|
    ensures pts[..m + 1] + pts[m..e + 1][1..] == pts[..e + 1]
  {
  }

  /** Run k is the plan from boundary k to the next, at least two points long. */
  lemma RunIs(pts: seq<Point>, k: nat)
    requires |pts| >= 2 && k < |Runs(pts)|
    ensures var b := Bounds(Cusps(pts), |pts|);
            b[k] < b[k + 1] < |pts| && Runs(pts)[k] == pts[b[k]..b[k + 1] + 1]
  {
    BoundsRise(Cusps(pts), |pts|);
  }

  /** The last point of run k is the first of the next; it is a reversal of the plan, and there the
      stretches of the plan the two runs cover meet without overlapping further. */
  ghost predicate MeetAtCusp(pts: seq<Point>, k: nat)
    requires |pts| >= 2 && k + 1 < |Runs(pts)|
  {
    var b, left, right := Bounds(Cusps(pts), |pts|), Runs(pts)[k], Runs(pts)[k + 1];
    && Reverses(pts, b[k + 1])
    && left != [] && right != []
    && left[|left| - 1] == pts[b[k + 1]] == right[0]
    && b[k] + |left| - 1 == b[k + 1] == b[k + 2] - (|right| - 1)
  }

  lemma CuspBetween(pts: seq<Point>, k: nat)
    requires |pts| >= 2 && k + 1 < |Runs(pts)|
    ensures MeetAtCusp(pts, k)
  {
    RunIs(pts, k);
    RunIs(pts, k + 1);
    BoundsRise(Cusps(pts), |pts|);
  }

  /** The runs rejoin to the plan, neighbours share exactly their common reversal point, and each run
      has at least two points and no reversal inside it. */
  lemma RunsPartition(pts: seq<Point>)
    requires |pts| >= 2
    ensures Join(Runs(pts)) == pts
    ensures forall k: nat :: k + 1 < |Runs(pts)| ==> MeetAtCusp(pts, k)
    ensures forall run :: run in Runs(pts) ==> |run| >= 2
    ensures forall run, i :: run in Runs(pts) ==> !Reverses(run, i)
  {
    BoundsRise(Cusps(pts), |pts|);
    JoinPrefix(pts, Bounds(Cusps(pts), |pts|), |Runs(pts)|);
    assert Runs(pts)[..|Runs(pts)|] == Runs(pts) && pts[..|pts|] == pts;
    forall k: nat | k + 1 < |Runs(pts)| ensures MeetAtCusp(pts, k) {
      CuspBetween(pts, k);
    }
    forall run | run in Runs(pts) ensures |run| >= 2 {
      var k :| 0 <= k < |Runs(pts)| && Runs(pts)[k] == run;
      RunIs(pts, k);
    }
    forall run, i | run in Runs(pts) ensures !Reverses(run, i) {
      var k :| 0 <= k < |Runs(pts)| && Runs(pts)[k] == run;
      NoReversalInside(pts, k, i);
    }
  }

  lemma NoReversalInside(pts: seq<Point>, k: nat, i: int)
    requires |pts| >= 2 && k < |Runs(pts)|
    ensures !Reverses(Runs(pts)[k], i)
  {
    RunIs(pts, k);
    var at := Bounds(Cusps(pts), |pts|)[k] + i;
    if 1 <= i <= |Runs(pts)[k]| - 2 {
      NoMarkBetween(Cusps(pts), |pts|, k, at);
      assert !Reverses(pts, at);
    }
  }

  function LongOnes(runs: seq<seq<Point>>): set<nat> { set k: nat | k < |runs| && |runs[k]| >= 3 }

  function Pick(runs: seq<seq<Point>>, chosen: seq<nat>): seq<seq<Point>> {
    seq(|chosen|, k requires 0 <= k < |chosen| => if chosen[k] < |runs| then runs[chosen[k]] else [])
  }

  /** What is returned is exactly the runs of three or more points, in order of position. */
  lemma LongInOrder(runs: seq<seq<Point>>)
    ensures Long(runs) == Pick(runs, Sorted(LongOnes(runs), |runs|))
  {
    LongPrefix(runs, |runs|);
    assert runs[..|runs|] == runs;
  }

  lemma {:induction false} LongPrefix(runs: seq<seq<Point>>, n: nat)
    requires n <= |runs|
    ensures Long(runs[..n]) == Pick(runs, Sorted(LongOnes(runs), n))
  {
    if n > 0 {
      LongPrefix(runs, n - 1);
      assert runs[..n][..n - 1] == runs[..n - 1];
      PickNext(runs, Sorted(LongOnes(runs), n - 1), n - 1);
    }
  }

  lemma PickNext(runs: seq<seq<Point>>, chosen: seq<nat>, k: nat)
    requires k < |runs|
    ensures Pick(runs, chosen + [k]) == Pick(runs, chosen) + [runs[k]]
  {
  }

  // ---- The cusp count ----

  /** What path_metrics reports as the number of cusps. */
  function CuspsReported(pts: seq<Point>): nat
    requires |pts| >= 3
  {
    if |Long(Runs(pts))| == 0 then 0 else |Long(Runs(pts))| - 1
  }

  lemma {:induction false} LongCount(runs: seq<seq<Point>>)
    ensures |Long(runs)| <= |runs|
    ensures |Long(runs)| == |runs| <==> forall k :: 0 <= k < |runs| ==> |runs[k]| >= 3
  {
    if runs != [] {
      var n := |runs| - 1;
      LongCount(runs[..n]);
      assert forall k :: 0 <= k < n ==> runs[..n][k] == runs[k];
    }
  }

  /** No mark right after the start, right before the end, or right after another. */
  ghost predicate WellSpaced(marks: set<nat>, len: nat) {
    && 1 !in marks && len - 2 !in marks
    && forall i :: i in marks ==> i + 1 !in marks
  }

  /** The reported number of cusps never exceeds the number of reversals, and equals it exactly when
      the reversals are well spaced: a run of two points is dropped before counting. */
  lemma CuspCountExactIff(pts: seq<Point>)
    requires |pts| >= 3
    ensures CuspsReported(pts) <= |Cusps(pts)|
    ensures CuspsReported(pts) == |Cusps(pts)| <==> WellSpaced(Cusps(pts), |pts|)
  {
    LongCount(Runs(pts));
    BoundsRise(Cusps(pts), |pts|);
    SortedSize(Cusps(pts), |pts|);
    AllLongIff(pts);
  }

  lemma AllLongIff(pts: seq<Point>)
    requires |pts| >= 3
    ensures (forall k :: 0 <= k < |Runs(pts)| ==> |Runs(pts)[k]| >= 3) <==> WellSpaced(Cusps(pts), |pts|)
  {
    var marks := Cusps(pts);
    if WellSpaced(marks, |pts|) {
      forall k | 0 <= k < |Runs(pts)| ensures |Runs(pts)[k]| >= 3 {
        RunIs(pts, k);
        WideGap(marks, |pts|, k);
      }
    } else {
      var k := NarrowGap(marks, |pts|);
      RunIs(pts, k);
      assert |Runs(pts)[k]| == 2;
    }
  }

  lemma {:induction false} SortedSize(marks: set<nat>, n: nat)
    requires forall i :: i in marks ==> i < n
    ensures |Sorted(marks, n)| == |marks|
  {
    if n > 0 {
      var below := marks - {n - 1};
      SortedSize(below, n - 1);
      SortedSame(marks, below, n - 1);
    }
  }

  lemma {:induction false} SortedSame(a: set<nat>, b: set<nat>, n: nat)
    requires forall i: nat :: i < n ==> (i in a <==> i in b)
    ensures Sorted(a, n) == Sorted(b, n)
  {
    if n > 0 {
      SortedSame(a, b, n - 1);
    }
  }

  lemma WideGap(marks: set<nat>, len: nat, k: nat)
    requires len >= 3 && Interior(marks, len) && WellSpaced(marks, len) && k + 1 < |Bounds(marks, len)|
    ensures Bounds(marks, len)[k] + 2 <= Bounds(marks, len)[k + 1]
  {
    BoundsRise(marks, len);
    var b := Bounds(marks, len);
    assert b[k] < b[k + 1];
    assert k > 0 ==> b[k] in marks;
    assert k + 1 < |b| - 1 ==> b[k + 1] in marks;
  }

  lemma NarrowGap(marks: set<nat>, len: nat) returns (k: nat)
    requires len >= 3 && Interior(marks, len) && !WellSpaced(marks, len)
    ensures k + 1 < |Bounds(marks, len)| && Bounds(marks, len)[k + 1] == Bounds(marks, len)[k] + 1
  {
    if 1 in marks {
      var j := MarkIsBound(marks, len, 1);
      k := Adjacent(marks, len, 0, j);
    } else if len - 2 in marks {
      var j := MarkIsBound(marks, len, len - 2);
      BoundsRise(marks, len);
      k := Adjacent(marks, len, j, |Bounds(marks, len)| - 1);
    } else {
      var i :| i in marks && i + 1 in marks;
      var j := MarkIsBound(marks, len, i);
      var l := MarkIsBound(marks, len, i + 1);
      k := Adjacent(marks, len, j, l);
    }
  }

  lemma Adjacent(marks: set<nat>, len: nat, j: nat, l: nat) returns (k: nat)
    requires len >= 2 && Interior(marks, len) && j < |Bounds(marks, len)| && l < |Bounds(marks, len)|
    requires Bounds(marks, len)[l] == Bounds(marks, len)[j] + 1
    ensures k == j && l == j + 1
  {
    BoundsRise(marks, len);
    var b := Bounds(marks, len);
    k := j;
    assert b[j] < b[l];
    assert b[j] < b[j + 1] <= b[l];
  }

  // ---- Distance to a segment ----

  /** A point of the line through a and b, at parameter t. */
  function Along(a: Point, b: Point, t: real): Point {
    Point(a.x + t * (b.x - a.x), a.y + t * (b.y - a.y))
  }

  function Dist2(p: Point, q: Point): real {
    (p.x - q.x) * (p.x - q.x) + (p.y - q.y) * (p.y - q.y)
  }

  function Clamp01(t: real): (r: real)
    ensures 0.0 <= r <= 1.0
  {
    var capped := if t < 1.0 then t else 1.0;
    if capped > 0.0 then capped else 0.0
  }

  function Dot(ux: real, uy: real, vx: real, vy: real): real { ux * vx + uy * vy }

  /** Where the perpendicular from p meets the line, moved onto the segment. */
  function FootParameter(p: Point, a: Point, b: Point): real
    requires Dot(b.x - a.x, b.y - a.y, b.x - a.x, b.y - a.y) != 0.0
  {
    var dx, dy := b.x - a.x, b.y - a.y;
    Clamp01(Dot(p.x - a.x, p.y - a.y, dx, dy) / Dot(dx, dy, dx, dy))
  }

  /** The point of the segment a-b the distance is measured to. */
  function Foot(p: Point, a: Point, b: Point): Point {
    if Dot(b.x - a.x, b.y - a.y, b.x - a.x, b.y - a.y) == 0.0 then a else Along(a, b, FootParameter(p, a, b))
  }

  /** The squared distance to the point at parameter t, less that to a. */
  ghost function Height(p: Point, a: Point, b: Point, t: real): real {
    var dx, dy := b.x - a.x, b.y - a.y;
    t * t * Dot(dx, dy, dx, dy) - 2.0 * (t * Dot(p.x - a.x, p.y - a.y, dx, dy))
  }

  /** The squared distance is a quadratic in the parameter. */
  lemma Dist2Along(p: Point, a: Point, b: Point, t: real)
    ensures Dist2(p, Along(a, b, t)) == Dist2(p, a) + Height(p, a, b, t)
  {
    var dx, dy, ex, ey := b.x - a.x, b.y - a.y, p.x - a.x, p.y - a.y;
    SquareOfDifference(ex, t, dx);
    SquareOfDifference(ey, t, dy);
    assert p.x - Along(a, b, t).x == ex - t * dx;
    assert p.y - Along(a, b, t).y == ey - t * dy;
  }

  lemma SquareOfDifference(e: real, t: real, d: real)
    ensures (e - t * d) * (e - t * d) == e * e - 2.0 * (t * (e * d)) + t * t * (d * d)
  {
  }

  /** A parabola c - 2 t g + t^2 h, h > 0, has its minimum over [0, 1] at g / h clamped to [0, 1]. */
  lemma ClampedVertex(g: real, h: real, s: real)
    requires h > 0.0 && 0.0 <= s <= 1.0
    ensures var t := Clamp01(g / h); t * t * h - 2.0 * (t * g) <= s * s * h - 2.0 * (s * g)
  {
    var t := Clamp01(g / h);
    var v := g / h;
    assert v * h == g;
    CompleteSquare(t, v, g, h);
    CompleteSquare(s, v, g, h);
    Closer(t, s, v);
    Scale((t - v) * (t - v), (s - v) * (s - v), h);
  }

  lemma CompleteSquare(t: real, v: real, g: real, h: real)
    requires v * h == g
    ensures t * t * h - 2.0 * (t * g) == (t - v) * (t - v) * h - v * g
  {
    assert (t - v) * (t - v) == t * t - 2.0 * (t * v) + v * v;
    assert (t - v) * (t - v) * h == t * t * h - 2.0 * (t * (v * h)) + v * (v * h);
  }

  lemma Closer(t: real, s: real, v: real)
    requires 0.0 <= s <= 1.0 && t == Clamp01(v)
    ensures (t - v) * (t - v) <= (s - v) * (s - v)
  {
    if v < t {
      SquaresOrdered(t - v, s - v);
    } else {
      SquaresOrdered(v - t, if s < v then v - s else s - v);
      NegatedSquare(t, v);
      NegatedSquare(s, v);
    }
  }

  lemma NegatedSquare(a: real, b: real)
    ensures (a - b) * (a - b) == (b - a) * (b - a)
  {
  }

  lemma SquaresOrdered(d: real, e: real)
    requires d == 0.0 || 0.0 <= d <= e
    ensures d * d <= e * e
  {
    if d != 0.0 {
      Scale(d, e, d);
      Scale(d, e, e);
    } else {
      var _ := Square(e);
    }
  }

  lemma Product(x: real, y: real) returns (p: real)
    requires x > 0.0 && y > 0.0
    ensures p == x * y && p > 0.0
  {
    p := x * y;
  }

  lemma Square(x: real) returns (s: real)
    ensures s == x * x && s >= 0.0
    ensures s == 0.0 <==> x == 0.0
  {
    if x > 0.0 {
      s := Product(x, x);
    } else if x < 0.0 {
      s := Product(-x, -x);
    } else {
      s := 0.0;
    }
  }
  lemma Scale(a: real, b: real, h: real)
    requires a <= b && h >= 0.0
    ensures a * h <= b * h
  {
  }

  lemma LengthSquared(dx: real, dy: real) returns (d2: real)
    ensures d2 == Dot(dx, dy, dx, dy)
    ensures d2 >= 0.0
    ensures d2 == 0.0 <==> dx == 0.0 && dy == 0.0
  {
    var x2 := Square(dx);
    var y2 := Square(dy);
    d2 := x2 + y2;
  }

  /** No point of the segment is closer than the foot, with coinciding ends too. */
  lemma FootIsNearest(p: Point, a: Point, b: Point, s: real)
    requires 0.0 <= s <= 1.0
    ensures Dist2(p, Foot(p, a, b)) <= Dist2(p, Along(a, b, s))
  {
    var d2 := LengthSquared(b.x - a.x, b.y - a.y);
    if d2 == 0.0 {
      assert Foot(p, a, b) == a == Along(a, b, s);
    } else {
      ParameterIsBest(p, a, b, d2, s);
    }
  }

  lemma ParameterIsBest(p: Point, a: Point, b: Point, d2: real, s: real)
    requires d2 == Dot(b.x - a.x, b.y - a.y, b.x - a.x, b.y - a.y) > 0.0 && 0.0 <= s <= 1.0
    ensures Dist2(p, Along(a, b, FootParameter(p, a, b))) <= Dist2(p, Along(a, b, s))
  {
    var t := FootParameter(p, a, b);
    assert Height(p, a, b, t) <= Height(p, a, b, s) by {
      ClampedVertex(Dot(p.x - a.x, p.y - a.y, b.x - a.x, b.y - a.y), d2, s);
    }
    Dist2Along(p, a, b, s);
    Dist2Along(p, a, b, t);
  }

  /** The foot lies on the segment. */
  lemma FootOnSegment(p: Point, a: Point, b: Point) returns (t: real)
    ensures 0.0 <= t <= 1.0 && Foot(p, a, b) == Along(a, b, t)
  {
    var d2 := LengthSquared(b.x - a.x, b.y - a.y);
    t := if d2 == 0.0 then 0.0 else FootParameter(p, a, b);
  }

  // ---- Pairing outputs with inputs ----

  /** A recorded command: its time and the steering it implies. */
  datatype Sample = Sample(time: real, steer: real)

  ghost predicate InOrder(s: seq<Sample>) {
    forall j, k :: 0 <= j < k < |s| ==> s[j].time <= s[k].time
  }

  /** `i` is the input in force at time t: the last one not after t, or the first if all are later. */
  ghost predicate InForce(ins: seq<Sample>, t: real, i: nat) {
    && i < |ins|
    && (i > 0 ==> ins[i].time <= t)
    && (forall k :: i < k < |ins| ==> t < ins[k].time)
  }

  /** The pair made for an output: the steering of the input in force at its time, and its own. */
  ghost predicate PairOf(ins: seq<Sample>, o: Sample, pair: (real, real)) {
    pair.1 == o.steer && exists i: nat :: InForce(ins, o.time, i) && pair.0 == ins[i].steer
  }

  /** One pass over both recordings pairs every output with the input in force when it was issued. */
  method PairUp(ins: seq<Sample>, outs: seq<Sample>) returns (pairs: seq<(real, real)>)
    requires ins != [] && InOrder(ins) && InOrder(outs)
    ensures |pairs| == |outs| && forall k :: 0 <= k < |outs| ==> PairOf(ins, outs[k], pairs[k])
  {
    pairs := [];
    var i := 0;
    for n := 0 to |outs|
      invariant i < |ins| && |pairs| == n
      invariant i > 0 ==> n > 0 && ins[i].time <= outs[n - 1].time
      invariant forall k :: 0 <= k < n ==> PairOf(ins, outs[k], pairs[k])
    {
      assert i > 0 ==> outs[n - 1].time <= outs[n].time;
      while i + 1 < |ins| && ins[i + 1].time <= outs[n].time
        invariant i < |ins| && (i > 0 ==> ins[i].time <= outs[n].time)
      {
        i := i + 1;
      }
      Pairs(ins, outs[n], i);
      pairs := pairs + [(ins[i].steer, outs[n].steer)];
    }
  }

  lemma Pairs(ins: seq<Sample>, o: Sample, i: nat)
    requires InOrder(ins) && i < |ins| && (i > 0 ==> ins[i].time <= o.time)
    requires i + 1 < |ins| ==> o.time < ins[i + 1].time
    ensures PairOf(ins, o, (ins[i].steer, o.steer))
  {
    assert InForce(ins, o.time, i);
  }
}
