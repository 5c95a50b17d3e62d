/** Stale-obstacle removal of clean_map_from_bag.py: counting looks and hits per occupied
    cell, the erase decision, and the row-flipped raster write. */
module MapCleaner {
  import opened BeamTrace

  const OCCUPIED_FROM := 65
  const MIN_SEEN := 50
  const HIT_RATIO := 0.02

  datatype Class = Free | Occupied | Unknown

  /** The class of an occupancy value of the input map. */
  function ClassOf(v: int): Class {
    if v >= OCCUPIED_FROM then Occupied else if v < 0 then Unknown else Free
  }

  /** The class of a written pixel under the thresholds and `negate: 0` of the written yaml. */
  function PixelClass(p: int): Class {
    var darkness := (255 - p) as real / 255.0;
    if darkness > 0.65 then Occupied else if darkness < 0.196 then Free else Unknown
  }

  function At(w: nat, r: nat, c: nat): nat { r * w + c }

  predicate InGrid(w: nat, h: nat, p: Cell) { 0 <= p.c < w && 0 <= p.r < h }

  /** The beam passes grid cell i during its first n steps. */
  ghost predicate CrossesWithin(w: nat, h: nat, b: Beam, n: nat, i: nat) {
    exists k: nat :: k < n && InGrid(w, h, CellAt(b, k)) && At(w, CellAt(b, k).r, CellAt(b, k).c) == i
  }

  /** The beam passes grid cell i before its return. */
  ghost predicate Crosses(w: nat, h: nat, b: Beam, i: nat) { CrossesWithin(w, h, b, b.Steps(), i) }

  predicate ReturnsFrom(w: nat, h: nat, b: Beam, i: nat) {
    InGrid(w, h, b.end) && At(w, b.end.r, b.end.c) == i
  }

  /** The beams that look through cell i, and those that return from it. */
  ghost function Looks(w: nat, h: nat, beams: seq<Beam>, i: nat): set<nat> {
    set k: nat | k < |beams| && Crosses(w, h, beams[k], i)
  }
  ghost function Hits(w: nat, h: nat, beams: seq<Beam>, i: nat): set<nat> {
    set k: nat | k < |beams| && ReturnsFrom(w, h, beams[k], i)
  }

  /** When a cell is to be erased, in terms of the beams alone. */
  ghost predicate Erased(w: nat, h: nat, data: seq<int>, beams: seq<Beam>, i: nat)
    requires i < |data|
  {
    && data[i] >= 65
    && |Looks(w, h, beams, i)| >= 50
    && 50 * |Hits(w, h, beams, i)| <= |Looks(w, h, beams, i)|
  }

  // ---- Index arithmetic ----

  lemma AtInjective(w: nat, r1: nat, c1: nat, r2: nat, c2: nat)
    requires c1 < w && c2 < w && At(w, r1, c1) == At(w, r2, c2)
    ensures r1 == r2 && c1 == c2
  {
    if r1 < r2 {
      MultiplesApart(w, r1, r2);
    } else if r2 < r1 {
      MultiplesApart(w, r2, r1);
    }
  }

  lemma AtInRange(w: nat, h: nat, r: nat, c: nat)
    requires r < h && c < w
    ensures At(w, r, c) < w * h
  {
    MultiplesApart(w, r, h);
    assert w * h == h * w;
  }

  /** A beam crosses a given grid cell at most once. */
  lemma CrossedOnce(w: nat, h: nat, b: Beam, n: nat)
    requires n < b.Length() && InGrid(w, h, CellAt(b, n))
    ensures !CrossesWithin(w, h, b, n, At(w, CellAt(b, n).r, CellAt(b, n).c))
  {
    var i := At(w, CellAt(b, n).r, CellAt(b, n).c);
    forall k: nat | k < n && InGrid(w, h, CellAt(b, k)) ensures At(w, CellAt(b, k).r, CellAt(b, k).c) != i {
      VisitsAreDistinct(b, k, n);
      if At(w, CellAt(b, k).r, CellAt(b, k).c) == i {
        AtInjective(w, CellAt(b, k).r, CellAt(b, k).c, CellAt(b, n).r, CellAt(b, n).c);
      }
    }
  }

  lemma QuotientBelow(p: nat, w: nat, h: nat)
    requires 0 < w && p < w * h
    ensures p / w < h
  {
    assert w * h == h * w;
    assert p == p / w * w + p % w;
  }

  /** Where grid cell (r, c) is written: the raster's row 0 is the top row. */
  function OutAt(w: nat, h: nat, r: nat, c: nat): nat requires r < h { At(w, h - 1 - r, c) }

  /** Every output pixel is the image of exactly one grid cell under the row flip. */
  lemma FlipCoversOnce(w: nat, h: nat, p: nat) returns (r: nat, c: nat)
    requires p < w * h
    ensures r < h && c < w && OutAt(w, h, r, c) == p
    ensures forall r': nat, c': nat :: r' < h && c' < w && OutAt(w, h, r', c') == p ==> r' == r && c' == c
  {
    var q := p / w;
    c := p % w;
    assert p == q * w + c;
    QuotientBelow(p, w, h);
    r := h - 1 - q;
    forall r': nat, c': nat | r' < h && c' < w && OutAt(w, h, r', c') == p ensures r' == r && c' == c {
      AtInjective(w, h - 1 - r', c', q, c);
    }
  }

  // ---- Counting ----

  function Count(m: map<nat, nat>, i: nat): nat { if i in m then m[i] else 0 }

  class MapEvidence {
    const width: nat
    const height: nat
    const occ: set<nat>
    var seen: map<nat, nat>
    var hit: map<nat, nat>

    constructor (width: nat, height: nat, data: seq<int>)
      ensures this.width == width && this.height == height && seen == map[] && hit == map[]
      ensures occ == set i: nat | i < |data| && data[i] >= 65
    {
      this.width, this.height := width, height;
      occ := set i: nat | i < |data| && data[i] >= OCCUPIED_FROM;
      seen, hit := map[], map[];
    }

    /** Walks one beam. The walk stops after Steps() iterations, at the return cell unless the
        beam is longer than the cap, and adds one look to each occupied cell it passed. */
    method AddBeam(b: Beam) returns (stop: Cell, n: nat)
      modifies this
      ensures n == b.Steps() && stop == CellAt(b, n)
      ensures b.Length() <= 600 ==> n == b.Length() && stop == b.end
      ensures b.Length() > 600 ==> n == 600
      ensures forall i :: Count(seen, i) ==
                old(Count(seen, i)) + (if i in occ && Crosses(width, height, b, i) then 1 else 0)
      ensures forall i :: Count(hit, i) ==
                old(Count(hit, i)) + (if i in occ && ReturnsFrom(width, height, b, i) then 1 else 0)
    {
      EndsMeet(b);
      var dc, dr := b.Dc(), b.Dr();
      var sc, sr := b.Sc(), b.Sr();
      var err: int, c, r := dc - dr, b.start.c, b.start.r;
      n := 0;
      while Cell(c, r) != b.end && n < MAX_STEPS
        invariant n <= b.Steps() && Cell(c, r) == CellAt(b, n)
        invariant err == ErrorAfter(b, n)
        invariant hit == old(hit)
        invariant forall i :: Count(seen, i) ==
                    old(Count(seen, i)) + (if i in occ && CrossesWithin(width, height, b, n, i) then 1 else 0)
        decreases MAX_STEPS - n
      {
        assert n < b.Length();
        CountLook(Cell(c, r));
        CrossesNext(width, height, b, n);
        OneStep(b, n, err);
        var e2 := 2 * err;
        if e2 + dr > 0 { err := err - dr; c := c + sc; }
        if e2 < dc { err := err + dc; r := r + sr; }
        n := n + 1;
      }
      stop := Cell(c, r);
      if n < b.Steps() { ReturnNotSeenThrough(b, n); }
      CountHit(b);
    }

    /** Counts one look through the cell a beam is passing. */
    method CountLook(p: Cell)
      modifies this`seen
      ensures forall i :: Count(seen, i) ==
                old(Count(seen, i)) +
                  (if i in occ && InGrid(width, height, p) && At(width, p.r, p.c) == i then 1 else 0)
    {
      if InGrid(width, height, p) {
        var idx := At(width, p.r, p.c);
        if idx in occ {
          seen := seen[idx := Count(seen, idx) + 1];
        }
      }
    }

    method CountHit(b: Beam)
      modifies this`hit
      ensures forall i :: Count(hit, i) ==
                old(Count(hit, i)) + (if i in occ && ReturnsFrom(width, height, b, i) then 1 else 0)
    {
      if InGrid(width, height, b.end) {
        var idx := At(width, b.end.r, b.end.c);
        if idx in occ {
          hit := hit[idx := Count(hit, idx) + 1];
        }
      }
    }

    /** Walks a list of beams: each counter grows by the number of beams concerned. */
    method AddBeams(beams: seq<Beam>)
      modifies this
      ensures forall i | i in occ :: Count(seen, i) == old(Count(seen, i)) + |Looks(width, height, beams, i)|
      ensures forall i | i in occ :: Count(hit, i) == old(Count(hit, i)) + |Hits(width, height, beams, i)|
    {
      assert forall i :: Looks(width, height, beams[..0], i) == {} == Hits(width, height, beams[..0], i);
      for k := 0 to |beams|
        invariant forall i | i in occ ::
                    Count(seen, i) == old(Count(seen, i)) + |Looks(width, height, beams[..k], i)|
        invariant forall i | i in occ ::
                    Count(hit, i) == old(Count(hit, i)) + |Hits(width, height, beams[..k], i)|
      {
        forall i: nat { LooksNext(width, height, beams, k, i); }
        forall i: nat { HitsNext(width, height, beams, k, i); }
        var _, _ := AddBeam(beams[k]);
      }
      assert beams[..|beams|] == beams;
    }

    /** The cells the source erases. */
    method StaleCells() returns (stale: set<nat>)
      ensures forall i :: i in stale <==> i in occ && Count(seen, i) >= 50 && 50 * Count(hit, i) <= Count(seen, i)
    {
      stale := set i | i in occ && Count(seen, i) >= MIN_SEEN
        && Count(hit, i) as real <= HIT_RATIO * Count(seen, i) as real;
    }
  }

  /** Step n adds the cell it passes, which no earlier step passed. */
  lemma CrossesNext(w: nat, h: nat, b: Beam, n: nat)
    requires n < b.Length()
    ensures forall i :: (if CrossesWithin(w, h, b, n + 1, i) then 1 else 0) ==
              (if CrossesWithin(w, h, b, n, i) then 1 else 0) +
              (if InGrid(w, h, CellAt(b, n)) && At(w, CellAt(b, n).r, CellAt(b, n).c) == i then 1 else 0)
  {
    if InGrid(w, h, CellAt(b, n)) {
      CrossedOnce(w, h, b, n);
    }
    forall i ensures CrossesWithin(w, h, b, n + 1, i) <==>
              CrossesWithin(w, h, b, n, i) || (InGrid(w, h, CellAt(b, n)) && At(w, CellAt(b, n).r, CellAt(b, n).c) == i)
    {
      if CrossesWithin(w, h, b, n + 1, i) {
        var k: nat :| k < n + 1 && InGrid(w, h, CellAt(b, k)) && At(w, CellAt(b, k).r, CellAt(b, k).c) == i;
        assert k < n || k == n;
      }
    }
  }

  function ErrorAfter(b: Beam, n: nat): int {
    ErrorAt(b.Dc(), b.Dr(), Cols(b.Dc(), b.Dr(), n), Rows(b.Dc(), b.Dr(), n))
  }

  /** The two conditional moves of the loop body take the walk from step n to step n + 1. */
  lemma OneStep(b: Beam, n: nat, err: int)
    requires n < b.Length() && err == ErrorAfter(b, n)
    ensures var right, up := 2 * err + b.Dr() > 0, 2 * err < b.Dc();
            && ErrorAfter(b, n + 1) == err - (if right then b.Dr() else 0) + (if up then b.Dc() else 0)
            && CellAt(b, n + 1) == Cell(CellAt(b, n).c + (if right then b.Sc() else 0),
                                        CellAt(b, n).r + (if up then b.Sr() else 0))
  {
    StepFollows(b.Dc(), b.Dr(), n);
    ErrorMoves(b.Dc(), b.Dr(), Cols(b.Dc(), b.Dr(), n), Rows(b.Dc(), b.Dr(), n));
  }

  lemma ErrorMoves(dc: nat, dr: nat, x: nat, y: nat)
    ensures ErrorAt(dc, dr, x + 1, y) == ErrorAt(dc, dr, x, y) - dr
    ensures ErrorAt(dc, dr, x, y + 1) == ErrorAt(dc, dr, x, y) + dc
    ensures ErrorAt(dc, dr, x + 1, y + 1) == ErrorAt(dc, dr, x, y) - dr + dc
  {
    assert (x + 1) * dr == x * dr + dr && (y + 1) * dc == y * dc + dc;
  }

  lemma LooksNext(w: nat, h: nat, beams: seq<Beam>, k: nat, i: nat)
    requires k < |beams|
    ensures |Looks(w, h, beams[..k + 1], i)| ==
              |Looks(w, h, beams[..k], i)| + (if Crosses(w, h, beams[k], i) then 1 else 0)
  {
    var before := Looks(w, h, beams[..k], i);
    assert Looks(w, h, beams[..k + 1], i) == if Crosses(w, h, beams[k], i) then before + {k} else before;
  }

  lemma HitsNext(w: nat, h: nat, beams: seq<Beam>, k: nat, i: nat)
    requires k < |beams|
    ensures |Hits(w, h, beams[..k + 1], i)| ==
              |Hits(w, h, beams[..k], i)| + (if ReturnsFrom(w, h, beams[k], i) then 1 else 0)
  {
    var before := Hits(w, h, beams[..k], i);
    assert Hits(w, h, beams[..k + 1], i) == if ReturnsFrom(w, h, beams[k], i) then before + {k} else before;
  }

  // ---- The raster ----

  type Byte = x: int | 0 <= x < 256

  /** What grid cell (r, c) looks like in the two images once it has been written. */
  predicate Written(px: seq<Byte>, diff: seq<Byte>, w: nat, h: nat, data: seq<int>, stale: set<nat>, r: nat, c: nat)
    requires r < h && c < w && |px| == |diff| == |data| == w * h
  {
    AtInRange(w, h, r, c);
    AtInRange(w, h, h - 1 - r, c);
    var i, o := At(w, r, c), OutAt(w, h, r, c);
    && px[o] == (if i in stale then 254 else if data[i] >= 65 then 0 else if data[i] < 0 then 205 else 254)
    && diff[o] == (if i in stale then 0 else if data[i] < 0 then 205 else 254)
    && PixelClass(px[o]) == (if i in stale then Free else ClassOf(data[i]))
  }

  method WriteRaster(w: nat, h: nat, data: seq<int>, stale: set<nat>) returns (px: array<Byte>, diff: array<Byte>)
    requires |data| == w * h
    ensures px.Length == diff.Length == w * h
    ensures forall r: nat, c: nat :: r < h && c < w ==> Written(px[..], diff[..], w, h, data, stale, r, c)
  {
    px, diff := new Byte[w * h](_ => 0), new Byte[w * h](_ => 0);
    for r := 0 to h
      invariant forall r': nat, c': nat :: r' < r && c' < w ==> Written(px[..], diff[..], w, h, data, stale, r', c')
    {
      for c := 0 to w
        invariant forall r': nat, c': nat :: r' < r && c' < w ==> Written(px[..], diff[..], w, h, data, stale, r', c')
        invariant forall c': nat :: c' < c ==> Written(px[..], diff[..], w, h, data, stale, r, c')
      {
        AtInRange(w, h, r, c);
        AtInRange(w, h, h - 1 - r, c);
        var idx := At(w, r, c);
        var v := data[idx];
        var outV: Byte, d: Byte;
        if idx in stale {
          outV, d := 254, 0;
        } else if v >= OCCUPIED_FROM {
          outV, d := 0, 254;
        } else if v < 0 {
          outV, d := 205, 205;
        } else {
          outV, d := 254, 254;
        }
        ghost var px0, diff0 := px[..], diff[..];
        px[OutAt(w, h, r, c)] := outV;
        diff[OutAt(w, h, r, c)] := d;
        forall r': nat, c': nat | r' < h && c' < w && (r' != r || c' != c)
          && Written(px0, diff0, w, h, data, stale, r', c')
          ensures Written(px[..], diff[..], w, h, data, stale, r', c')
        {
          WrittenStays(px0, diff0, px[..], diff[..], w, h, data, stale, r, c, r', c');
        }
      }
    }
  }

  /** Writing one grid cell leaves every other one as it was. */
  lemma WrittenStays(px0: seq<Byte>, diff0: seq<Byte>, px: seq<Byte>, diff: seq<Byte>, w: nat, h: nat,
                     data: seq<int>, stale: set<nat>, r: nat, c: nat, r': nat, c': nat)
    requires r < h && c < w && r' < h && c' < w && (r' != r || c' != c)
    requires |px0| == |diff0| == |px| == |diff| == |data| == w * h
    requires OutAt(w, h, r, c) < w * h
    requires px == px0[OutAt(w, h, r, c) := px[OutAt(w, h, r, c)]]
    requires diff == diff0[OutAt(w, h, r, c) := diff[OutAt(w, h, r, c)]]
    requires Written(px0, diff0, w, h, data, stale, r', c')
    ensures Written(px, diff, w, h, data, stale, r', c')
  {
    if OutAt(w, h, r', c') == OutAt(w, h, r, c) {
      AtInjective(w, h - 1 - r', c', h - 1 - r, c);
    }
  }

  // ---- The whole tool ----

  /** Cell (r, c) ends up in row h - 1 - r of both images: white and, in the diff, black if it was erased, and
      otherwise with its own level and, read back under the thresholds of the written yaml, its own class. */
  ghost predicate Cleaned(px: seq<Byte>, diff: seq<Byte>, w: nat, h: nat, data: seq<int>, beams: seq<Beam>,
                          r: nat, c: nat)
    requires r < h && c < w && |px| == |diff| == |data| == w * h
  {
    var i, o := r * w + c, (h - 1 - r) * w + c;
    && 0 <= i < w * h && 0 <= o < w * h
    && var v, gone := data[i], Erased(w, h, data, beams, i);
       && px[o] == (if gone then 254 else if v >= 65 then 0 else if v < 0 then 205 else 254)
       && diff[o] == (if gone then 0 else if v < 0 then 205 else 254)
       && PixelClass(px[o]) == (if v < 0 then Unknown else if v >= 65 && !gone then Occupied else Free)
  }

  /** Counts the beams, erases the stale cells and writes the two images. */
  method Clean(w: nat, h: nat, data: seq<int>, beams: seq<Beam>) returns (px: array<Byte>, diff: array<Byte>)
    requires |data| == w * h
    ensures px.Length == diff.Length == w * h
    ensures forall r: nat, c: nat :: r < h && c < w ==> Cleaned(px[..], diff[..], w, h, data, beams, r, c)
  {
    var evidence := new MapEvidence(w, h, data);
    evidence.AddBeams(beams);
    var stale := evidence.StaleCells();
    px, diff := WriteRaster(w, h, data, stale);
    forall r: nat, c: nat | r < h && c < w ensures Cleaned(px[..], diff[..], w, h, data, beams, r, c) {
      AtInRange(w, h, r, c);
      AtInRange(w, h, h - 1 - r, c);
      assert Written(px[..], diff[..], w, h, data, stale, r, c);
      assert At(w, r, c) in stale <==> Erased(w, h, data, beams, At(w, r, c));
    }
  }
}
