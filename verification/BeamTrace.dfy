/** The integer beam trace of clean_map_from_bag.py.

    A beam runs from the sensor cell to its return cell. The source walks it with an
    error accumulator; here the walk is related to a closed form: after n steps the
    longer axis has advanced n cells and the shorter axis is at the cell nearest to the
    ideal line, with ties going to the cell closer to the start. */
module BeamTrace {

  datatype Cell = Cell(c: int, r: int)

  datatype Beam = Beam(start: Cell, end: Cell) {
    function Dc(): nat { Abs(end.c - start.c) }
    function Dr(): nat { Abs(end.r - start.r) }
    function Sc(): int { if end.c > start.c then 1 else -1 }
    function Sr(): int { if end.r > start.r then 1 else -1 }

    /** Number of cells on the longer axis. */
    function Length(): nat { if Dc() >= Dr() then Dc() else Dr() }

    /** Number of iterations the walk makes. */
    function Steps(): nat { if Length() <= MAX_STEPS then Length() else MAX_STEPS }
  }

  const MAX_STEPS := 600

  function Abs(x: int): nat { if x < 0 then -x else x }

  /** The multiple of the shorter axis nearest to n * minor / major, ties rounded down. */
  function Nearest(minor: nat, major: nat, n: nat): nat {
    if major == 0 then 0 else (2 * n * minor + major - 1) / (2 * major)
  }

  /** Columns and rows advanced after n steps. */
  function Cols(dc: nat, dr: nat, n: nat): nat { if dc >= dr then n else Nearest(dc, dr, n) }
  function Rows(dc: nat, dr: nat, n: nat): nat { if dc >= dr then Nearest(dr, dc, n) else n }

  /** The cell the ideal line occupies after n steps. */
  function CellAt(b: Beam, n: nat): Cell {
    Cell(b.start.c + b.Sc() * Cols(b.Dc(), b.Dr(), n), b.start.r + b.Sr() * Rows(b.Dc(), b.Dr(), n))
  }

  /** The error accumulator that belongs to x columns and y rows. */
  function ErrorAt(dc: nat, dr: nat, x: nat, y: nat): int { dc - dr - x * dr + y * dc }

  // ---- Nearest is rounding ----

  /** Nearest is within half a cell of the ideal line, the lower half excluded. */
  lemma NearestBounds(minor: nat, major: nat, n: nat)
    requires major > 0
    ensures 2 * (n * minor) - major <= 2 * (Nearest(minor, major, n) * major) < 2 * (n * minor) + major
  {
    var a := 2 * n * minor + major - 1;
    var q := a / (2 * major);
    assert a == 2 * major * q + a % (2 * major);
    assert 2 * major * q == 2 * (q * major);
    assert 2 * n * minor == 2 * (n * minor);
  }

  /** Two different multiples of m are at least m apart. */
  lemma MultiplesApart(m: nat, y: nat, z: nat)
    requires y < z
    ensures y * m + m <= z * m
  {
    var k: nat := z - y - 1;
    assert z * m == (y + 1 + k) * m == y * m + m + k * m;
  }

  lemma NearestUnique(minor: nat, major: nat, n: nat, y: nat)
    requires major > 0
    requires 2 * (n * minor) - major <= 2 * (y * major) < 2 * (n * minor) + major
    ensures y == Nearest(minor, major, n)
  {
    NearestBounds(minor, major, n);
    var q := Nearest(minor, major, n);
    if y < q {
      MultiplesApart(major, y, q);
    } else if q < y {
      MultiplesApart(major, q, y);
    }
  }

  lemma NearestEnds(minor: nat, major: nat)
    ensures Nearest(minor, major, 0) == 0
    ensures major > 0 ==> Nearest(minor, major, major) == minor
    ensures Nearest(0, major, 0) == 0
  {
    if major > 0 {
      NearestUnique(minor, major, 0, 0);
      assert major * minor == minor * major;
      NearestUnique(minor, major, major, minor);
    }
  }

  /** The shorter axis advances on a step exactly when the line has passed its next half cell. */
  lemma NearestStep(minor: nat, major: nat, n: nat)
    requires major > 0 && minor <= major
    ensures var y := Nearest(minor, major, n);
            Nearest(minor, major, n + 1) ==
              if 2 * (y * major) + major < 2 * (n * minor) + 2 * minor then y + 1 else y
  {
    var y := Nearest(minor, major, n);
    NearestBounds(minor, major, n);
    assert (n + 1) * minor == n * minor + minor;
    if 2 * (y * major) + major < 2 * (n * minor) + 2 * minor {
      assert (y + 1) * major == y * major + major;
      NearestUnique(minor, major, n + 1, y + 1);
    } else {
      NearestUnique(minor, major, n + 1, y);
    }
  }

  // ---- The walk follows the closed form ----

  /** One iteration of the source's loop body, on the counts of columns and rows advanced. */
  lemma StepFollows(dc: nat, dr: nat, n: nat)
    requires n < dc || n < dr
    ensures var x, y := Cols(dc, dr, n), Rows(dc, dr, n);
            var e2: int := 2 * ErrorAt(dc, dr, x, y);
            && Cols(dc, dr, n + 1) == (if e2 + dr > 0 then x + 1 else x)
            && Rows(dc, dr, n + 1) == (if e2 < dc then y + 1 else y)
  {
    if dc >= dr {
      NearestStep(dr, dc, n);
      AxisTests(dc, dr, n);
    } else {
      NearestStep(dc, dr, n);
      AxisTests(dr, dc, n);
    }
  }

  /** The loop's two tests, in terms of the error e signed towards the longer axis: that axis
      always advances, and the shorter one does under the condition of NearestStep. */
  lemma AxisTests(major: nat, minor: nat, n: nat)
    requires 0 < major && minor <= major
    ensures var y := Nearest(minor, major, n);
            var e: int := major - minor - n * minor + y * major;
            && 2 * e + minor > 0
            && (2 * e < major <==> 2 * (y * major) + major < 2 * (n * minor) + 2 * minor)
  {
    NearestBounds(minor, major, n);
    if minor == major {
      NearestUnique(minor, major, n, n);
    }
  }

  // ---- What the walk visits ----

  /** At every step the longer axis has advanced n cells and the shorter axis is within half
      a cell of the ideal line, in every octant. */
  lemma WithinHalfCell(b: Beam, n: nat)
    ensures var p := CellAt(b, n);
            && (b.Dc() >= b.Dr() ==>
                  && p.c == b.start.c + b.Sc() * n
                  && Abs(2 * (Abs(p.r - b.start.r) * b.Dc()) - 2 * (n * b.Dr())) <= b.Dc())
            && (b.Dc() < b.Dr() ==>
                  && p.r == b.start.r + b.Sr() * n
                  && Abs(2 * (Abs(p.c - b.start.c) * b.Dr()) - 2 * (n * b.Dc())) <= b.Dr())
  {
    if b.Dc() >= b.Dr() {
      if b.Dc() > 0 { NearestBounds(b.Dr(), b.Dc(), n); }
    } else {
      NearestBounds(b.Dc(), b.Dr(), n);
    }
  }

  /** The walk starts at the sensor and its last step is the return cell. */
  lemma EndsMeet(b: Beam)
    ensures CellAt(b, 0) == b.start
    ensures CellAt(b, b.Length()) == b.end
  {
    NearestEnds(b.Dr(), b.Dc());
    NearestEnds(b.Dc(), b.Dr());
  }

  /** No cell is visited twice, so in particular the return cell is visited only at the end. */
  lemma VisitsAreDistinct(b: Beam, m: nat, n: nat)
    requires m < n
    requires b.Length() > 0
    ensures CellAt(b, m) != CellAt(b, n)
  {
  }

  /** The return cell is never among the cells counted as seen through. */
  lemma ReturnNotSeenThrough(b: Beam, n: nat)
    requires n < b.Steps()
    ensures CellAt(b, n) != b.end
  {
    EndsMeet(b);
    VisitsAreDistinct(b, n, b.Length());
  }
}
