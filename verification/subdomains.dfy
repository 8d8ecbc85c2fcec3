/**
 The boundary sub-domains of a strip sensor: the central strip electrode, its
 neighbouring strips, the back plane and the periodic lateral faces, for the
 electric-field problem and (suffix WP) for the weighting-potential problem.

 Each sub-domain classifies a mesh point together with the solver's
 `on_boundary` flag. Every comparison is strict and widened by the tolerance
 `eps`, multiplicatively where the reference value may be far from zero and
 additively where it may be zero.
 */
module SubDomains {
  import opened Plane

  /** Pitch and width of the strips and the index `nns` of the central strip. */
  datatype StripGeometry = StripGeometry(pitch: real, width: real, nns: int)

  /** Lateral extent of the device and the depth of its back face. */
  datatype DomainBounds = DomainBounds(xMin: real, xMax: real, depth: real)

  /**
   One value per sub-domain class. The WP strip variants carry the depletion
   width; for `BackPlaneBoundaryWP`, `bounds.depth` holds the depletion width.
   */
  datatype SubDomain =
    | CentralStripBoundary(strip: StripGeometry)
    | NeighbourStripBoundary(strip: StripGeometry)
    | BackPlaneBoundary(bounds: DomainBounds)
    | PeriodicLateralBoundary(bounds: DomainBounds)
    | CentralStripBoundaryWP(strip: StripGeometry, depletionWidth: real)
    | NeighbourStripBoundaryWP(strip: StripGeometry, depletionWidth: real)
    | BackPlaneBoundaryWP(bounds: DomainBounds)

  /*** Strip windows ***/

  /** Distance from a cell's left edge to its strip: half the gap between strips. */
  function LeftLimit(g: StripGeometry): (l: real)
    ensures l + g.width + l == g.pitch
    ensures 0.0 <= g.width <= g.pitch ==> 0.0 <= l <= g.pitch / 2.0
  {
    (g.pitch - g.width) / 2.0
  }

  /** Right end of the strip in its cell's local frame. */
  function RightLimit(g: StripGeometry): (r: real)
    ensures LeftLimit(g) + r == g.pitch
    ensures 0.0 <= g.width <= g.pitch ==> 0.0 <= LeftLimit(g) <= r <= g.pitch
  {
    LeftLimit(g) + g.width
  }

  /** Left edge of cell `count` in device coordinates: the origin of that strip's local frame. */
  function CellStart(g: StripGeometry, count: int): real
  {
    g.pitch * (count as real)
  }

  /**
   The strip test for cell `count`: translate into its frame, compare with the
   widened limits. Widening only enlarges: every point strictly inside the strip passes.
   */
  function InStripWindow(g: StripGeometry, count: int, x: real, eps: Tolerance): (r: bool)
    ensures 0.0 <= LeftLimit(g) && CellStart(g, count) + LeftLimit(g) < x < CellStart(g, count) + RightLimit(g) ==> r
  {
    var xTranslated := x - CellStart(g, count);
    assert 0.0 <= LeftLimit(g) ==> LeftLimit(g) * (1.0 - eps) <= LeftLimit(g) by {
      assert LeftLimit(g) * (1.0 - eps) == LeftLimit(g) - LeftLimit(g) * eps;
    }
    assert 0.0 <= RightLimit(g) ==> RightLimit(g) <= RightLimit(g) * (1.0 + eps) by {
      assert RightLimit(g) * (1.0 + eps) == RightLimit(g) + RightLimit(g) * eps;
    }
    LeftLimit(g) * (1.0 - eps) < xTranslated < RightLimit(g) * (1.0 + eps)
  }

  /** Strips no wider than the tolerance allows: consecutive windows do not touch. */
  predicate NarrowStrips(g: StripGeometry, eps: Tolerance)
  {
    0.0 < g.pitch && g.width <= g.pitch * (1.0 - eps)
  }

  /**
   The strip indices the neighbour loop tests, in loop order: every index of
   the `1 + 2 * nns` strips except the central one.
   */
  function NeighbourIndices(nns: int): (r: seq<int>)
    ensures |r| == if nns > 0 then 2 * nns else 0
    ensures forall i, j :: 0 <= i < j < |r| ==> r[i] < r[j]
    ensures forall c :: c in r <==> 0 <= c < 1 + 2 * nns && c != nns
  {
    if nns <= 0 then []
    else
      var r := seq(2 * nns, i => if i < nns then i else i + 1);
      assert forall c | 0 <= c < 1 + 2 * nns && c != nns :: c in r by {
        forall c | 0 <= c < 1 + 2 * nns && c != nns
          ensures c in r
        {
          var i := if c < nns then c else c - 1;
          assert r[i] == c;
        }
      }
      r
  }

  /** Some non-central strip window holds `x`. */
  predicate InNeighbourWindow(g: StripGeometry, x: real, eps: Tolerance)
  {
    exists c :: c in NeighbourIndices(g.nns) && InStripWindow(g, c, x, eps)
  }

  /** The neighbour loop as written: every strip index in turn, the central one skipped, no early exit. */
  method ScanNeighbourWindows(g: StripGeometry, x: real, eps: Tolerance) returns (isInside: bool)
    ensures isInside <==> InNeighbourWindow(g, x, eps)
  {
    isInside := false;
    var total := 1 + 2 * g.nns;
    var count := 0;
    while count < total
      invariant 0 <= count <= if 0 <= total then total else 0
      invariant isInside <==> exists c :: 0 <= c < count && c != g.nns && InStripWindow(g, c, x, eps)
    {
      ghost var before := isInside;
      if count != g.nns {
        if InStripWindow(g, count, x, eps) {
          isInside := true;
        }
      }
      assert isInside <==> before || (count != g.nns && InStripWindow(g, count, x, eps));
      count := count + 1;
    }
    if isInside {
      var c :| 0 <= c < count && c != g.nns && InStripWindow(g, c, x, eps);
      assert 0 <= c < 1 + 2 * g.nns;
      assert c in NeighbourIndices(g.nns);
    }
  }

  /** The widened window ends r_lim (1 + eps) and l_lim (1 - eps) are `width + eps * pitch` apart. */
  lemma {:induction false} WidenedWindowLength(g: StripGeometry, eps: Tolerance)
    ensures RightLimit(g) * (1.0 + eps) - LeftLimit(g) * (1.0 - eps) == g.width + eps * g.pitch
  {
    var l, r := LeftLimit(g), RightLimit(g);
    assert r * (1.0 + eps) == r + r * eps;
    assert l * (1.0 - eps) == l - l * eps;
    assert r * eps + l * eps == (r + l) * eps;
  }

  /** Under NarrowStrips a widened window is no longer than one cell. */
  lemma {:induction false} NarrowWindowFitsCell(g: StripGeometry, eps: Tolerance)
    requires NarrowStrips(g, eps)
    ensures RightLimit(g) * (1.0 + eps) - LeftLimit(g) * (1.0 - eps) <= g.pitch
  {
    WidenedWindowLength(g, eps);
    assert g.pitch * (1.0 - eps) == g.pitch - eps * g.pitch;
  }

  /** Cells start a whole pitch apart, so a later cell starts at least one pitch further right. */
  lemma {:induction false} CellStartsOrdered(g: StripGeometry, lo: int, hi: int)
    requires 0.0 < g.pitch
    requires lo < hi
    ensures CellStart(g, lo) + g.pitch <= CellStart(g, hi)
    decreases hi - lo
  {
    assert CellStart(g, hi) == CellStart(g, hi - 1) + g.pitch by {
      assert g.pitch * (hi as real) == g.pitch * ((hi - 1) as real + 1.0);
    }
    if lo < hi - 1 {
      CellStartsOrdered(g, lo, hi - 1);
    }
  }

  /** Consecutive-or-further windows are disjoint when the strips are narrow. */
  lemma {:induction false} OrderedWindowsDisjoint(g: StripGeometry, lo: int, hi: int, x: real, eps: Tolerance)
    requires NarrowStrips(g, eps)
    requires lo < hi
    ensures !(InStripWindow(g, lo, x, eps) && InStripWindow(g, hi, x, eps))
  {
    NarrowWindowFitsCell(g, eps);
    CellStartsOrdered(g, lo, hi);
    if InStripWindow(g, lo, x, eps) {
      // the window of `lo` ends no later than the window of `hi` begins
      assert x - CellStart(g, lo) < RightLimit(g) * (1.0 + eps);
      assert x - CellStart(g, hi) < LeftLimit(g) * (1.0 - eps);
    }
  }

  /** Windows of distinct strip indices never share a point. */
  lemma WindowsDisjoint(g: StripGeometry, c1: int, c2: int, x: real, eps: Tolerance)
    requires NarrowStrips(g, eps)
    requires c1 != c2
    ensures !(InStripWindow(g, c1, x, eps) && InStripWindow(g, c2, x, eps))
  {
    if c1 < c2 {
      OrderedWindowsDisjoint(g, c1, c2, x, eps);
    } else {
      OrderedWindowsDisjoint(g, c2, c1, x, eps);
    }
  }

  /** The width bound of NarrowStrips is exact: any wider strip overlaps its neighbour's window. */
  lemma WindowsOverlapWhenWide(g: StripGeometry, c: int, eps: Tolerance)
    requires 0.0 < g.pitch
    requires g.width > g.pitch * (1.0 - eps)
    ensures exists x :: InStripWindow(g, c, x, eps) && InStripWindow(g, c + 1, x, eps)
  {
    var p, l, r := g.pitch, LeftLimit(g), RightLimit(g);
    var nextLo := p * ((c + 1) as real) + l * (1.0 - eps);
    var thisHi := p * (c as real) + r * (1.0 + eps);
    assert p * ((c + 1) as real) == p * (c as real) + p;
    assert r * (1.0 + eps) - l * (1.0 - eps) == g.width + eps * p;
    var x := (nextLo + thisHi) / 2.0;
    assert InStripWindow(g, c, x, eps);
    assert InStripWindow(g, c + 1, x, eps);
  }

  /** Each window holds the centre of its own strip, for any non-degenerate strip inside its cell. */
  lemma StripCentreInWindow(g: StripGeometry, c: int, eps: Tolerance)
    requires 0.0 < g.pitch
    requires 0.0 <= g.width <= g.pitch
    ensures InStripWindow(g, c, CellStart(g, c) + g.pitch / 2.0, eps)
  {
    var l, r := LeftLimit(g), RightLimit(g);
    assert l * (1.0 - eps) < g.pitch / 2.0 by {
      assert l * (1.0 - eps) == l - l * eps;
      assert 0.0 <= l <= g.pitch / 2.0;
      if l == g.pitch / 2.0 {
        assert 0.0 < l * eps;
      } else {
        assert 0.0 <= l * eps;
      }
    }
    assert g.pitch / 2.0 < r * (1.0 + eps) by {
      assert r * (1.0 + eps) == r + r * eps;
      assert 0.0 < r * eps;
    }
  }

  /*** Full-field sub-domains ***/

  /** `CentralStripBoundary::inside`: the front face (y = 0) inside the window of strip `nns`. */
  function CentralStripInside(g: StripGeometry, p: Vec2, onBoundary: bool, eps: Tolerance): (r: bool)
    ensures r ==> onBoundary && p.y < eps
  {
    p.y < eps && onBoundary && InStripWindow(g, g.nns, p.x, eps)
  }

  /** `NeighbourStripBoundary::inside`: the front face inside the window of a non-central strip. */
  function NeighbourStripInside(g: StripGeometry, p: Vec2, onBoundary: bool, eps: Tolerance): (r: bool)
    ensures r ==> onBoundary && p.y < eps
    ensures g.nns <= 0 ==> !r
  {
    p.y < eps && onBoundary && InNeighbourWindow(g, p.x, eps)
  }

  /** The body of `NeighbourStripBoundary::inside`, loop included. */
  method NeighbourStripBoundaryInside(g: StripGeometry, p: Vec2, onBoundary: bool, eps: Tolerance)
    returns (isInside: bool)
    ensures isInside <==> (exists c :: 0 <= c <= 2 * g.nns && c != g.nns && InStripWindow(g, c, p.x, eps))
                          && onBoundary && p.y < eps
    ensures isInside == NeighbourStripInside(g, p, onBoundary, eps)
  {
    isInside := false;
    if p.y < eps && onBoundary {
      isInside := ScanNeighbourWindows(g, p.x, eps);
    }
  }

  /** `BackPlaneBoundary::inside`: the back face y = depth, within the lateral extent. */
  function BackPlaneInside(b: DomainBounds, p: Vec2, onBoundary: bool, eps: Tolerance): (r: bool)
    ensures r ==> onBoundary && p.y > b.depth - eps * b.depth && b.xMin - eps < p.x < b.xMax + eps
  {
    p.y > b.depth - eps * b.depth && onBoundary && b.xMin - eps < p.x < b.xMax + eps
  }

  /** `PeriodicLateralBoundary::inside`: the left face x = 0, the target of the periodic map. */
  function PeriodicLateralInside(b: DomainBounds, p: Vec2, onBoundary: bool, eps: Tolerance): (r: bool)
    ensures r <==> -(eps as real) < p.x < eps
  {
    Abs(p.x) < eps
  }

  /** `PeriodicLateralBoundary::map`: the right face is carried onto the left face. */
  function PeriodicLateralMap(b: DomainBounds, p: Vec2): (q: Vec2)
    ensures q.y == p.y
    ensures p.x - q.x == b.xMax
  {
    Vec2(p.x - b.xMax, p.y)
  }

  /*** Weighting-potential sub-domains ***/

  /** `CentralStripBoundaryWP::inside`: gated on y below the depletion edge, not on y = 0. */
  function CentralStripWPInside(g: StripGeometry, depletionWidth: real, p: Vec2, onBoundary: bool, eps: Tolerance)
    : (r: bool)
    ensures r ==> onBoundary && p.y < depletionWidth - eps * depletionWidth
  {
    p.y < depletionWidth - eps * depletionWidth && onBoundary && InStripWindow(g, g.nns, p.x, eps)
  }

  /** `NeighbourStripBoundaryWP::inside`: the neighbour windows under the depletion-edge gate. */
  function NeighbourStripWPInside(g: StripGeometry, depletionWidth: real, p: Vec2, onBoundary: bool, eps: Tolerance)
    : (r: bool)
    ensures r ==> onBoundary && p.y < depletionWidth - eps * depletionWidth
    ensures g.nns <= 0 ==> !r
  {
    p.y < depletionWidth - eps * depletionWidth && onBoundary && InNeighbourWindow(g, p.x, eps)
  }

  /** `BackPlaneBoundaryWP::inside`: only the y test; x and `on_boundary` are not consulted. */
  function BackPlaneWPInside(b: DomainBounds, p: Vec2, onBoundary: bool, eps: Tolerance): (r: bool)
    ensures BackPlaneInside(b, p, onBoundary, eps) ==> r
    ensures r ==> p.y > b.depth - eps * b.depth
  {
    p.y > b.depth - eps * b.depth
  }

  /*** Dispatch ***/

  /** The `inside` of each sub-domain class, selected by variant. */
  function Inside(d: SubDomain, p: Vec2, onBoundary: bool, eps: Tolerance): (r: bool)
    ensures r && !d.PeriodicLateralBoundary? && !d.BackPlaneBoundaryWP? ==> onBoundary
  {
    match d
    case CentralStripBoundary(g) => CentralStripInside(g, p, onBoundary, eps)
    case NeighbourStripBoundary(g) => NeighbourStripInside(g, p, onBoundary, eps)
    case BackPlaneBoundary(b) => BackPlaneInside(b, p, onBoundary, eps)
    case PeriodicLateralBoundary(b) => PeriodicLateralInside(b, p, onBoundary, eps)
    case CentralStripBoundaryWP(g, dw) => CentralStripWPInside(g, dw, p, onBoundary, eps)
    case NeighbourStripBoundaryWP(g, dw) => NeighbourStripWPInside(g, dw, p, onBoundary, eps)
    case BackPlaneBoundaryWP(b) => BackPlaneWPInside(b, p, onBoundary, eps)
  }

  /*** Properties ***/

  /** With `nns` strips on each side the loop checks exactly `2 * nns` windows, e.g. {0, 1, 3, 4} for two. */
  lemma NeighbourIndicesExample()
    ensures NeighbourIndices(2) == [0, 1, 3, 4]
    ensures NeighbourIndices(0) == []
  {
  }

  /** The central strip accepts, in device coordinates, the open interval around strip `nns`'s cell. */
  lemma CentralStripAbsoluteWindow(g: StripGeometry, p: Vec2, onBoundary: bool, eps: Tolerance)
    ensures var cellStart := CellStart(g, g.nns);
            CentralStripInside(g, p, onBoundary, eps)
            <==> && onBoundary
                 && p.y < eps
                 && cellStart + LeftLimit(g) * (1.0 - eps) < p.x < cellStart + RightLimit(g) * (1.0 + eps)
  {
  }

  /** The central strip and the neighbour strips never claim the same point. */
  lemma CentralNeighbourExclusive(g: StripGeometry, p: Vec2, onBoundary: bool, eps: Tolerance)
    requires NarrowStrips(g, eps)
    ensures !(CentralStripInside(g, p, onBoundary, eps) && NeighbourStripInside(g, p, onBoundary, eps))
  {
    if InNeighbourWindow(g, p.x, eps) {
      var c :| c in NeighbourIndices(g.nns) && InStripWindow(g, c, p.x, eps);
      WindowsDisjoint(g, g.nns, c, p.x, eps);
    }
  }

  /** The same exclusion holds between the weighting-potential strip variants. */
  lemma CentralNeighbourWPExclusive(g: StripGeometry, depletionWidth: real, p: Vec2, onBoundary: bool, eps: Tolerance)
    requires NarrowStrips(g, eps)
    ensures !(CentralStripWPInside(g, depletionWidth, p, onBoundary, eps)
              && NeighbourStripWPInside(g, depletionWidth, p, onBoundary, eps))
  {
    if InNeighbourWindow(g, p.x, eps) {
      var c :| c in NeighbourIndices(g.nns) && InStripWindow(g, c, p.x, eps);
      WindowsDisjoint(g, g.nns, c, p.x, eps);
    }
  }

  /** The WP central strip uses the full-field window; only the y gate differs. */
  lemma CentralStripWPSharesWindow(g: StripGeometry, depletionWidth: real, p: Vec2, onBoundary: bool, eps: Tolerance)
    ensures CentralStripWPInside(g, depletionWidth, p, onBoundary, eps)
            <==> p.y < depletionWidth - eps * depletionWidth && CentralStripInside(g, Vec2(p.x, 0.0), onBoundary, eps)
  {
  }

  /** The WP neighbour strips use the full-field windows; only the y gate differs. */
  lemma NeighbourStripWPSharesWindow(g: StripGeometry, depletionWidth: real, p: Vec2, onBoundary: bool, eps: Tolerance)
    ensures NeighbourStripWPInside(g, depletionWidth, p, onBoundary, eps)
            <==> p.y < depletionWidth - eps * depletionWidth && NeighbourStripInside(g, Vec2(p.x, 0.0), onBoundary, eps)
  {
  }

  /** Away from the front face the WP central strip still matches, where the full-field one does not. */
  lemma CentralStripWPBeyondFrontFace(g: StripGeometry, depletionWidth: real, p: Vec2, eps: Tolerance)
    requires eps <= p.y < depletionWidth - eps * depletionWidth
    requires InStripWindow(g, g.nns, p.x, eps)
    ensures CentralStripWPInside(g, depletionWidth, p, true, eps)
    ensures !CentralStripInside(g, p, true, eps)
  {
  }

  /** The full-field strip and back-plane sub-domains claim nothing strictly between the two faces. */
  lemma FullFieldInteriorUnmarked(d: SubDomain, p: Vec2, onBoundary: bool, eps: Tolerance)
    requires d.CentralStripBoundary? || d.NeighbourStripBoundary? || d.BackPlaneBoundary?
    requires eps <= p.y
    requires d.BackPlaneBoundary? ==> p.y <= d.bounds.depth - eps * d.bounds.depth
    ensures !Inside(d, p, onBoundary, eps)
  {
  }

  /** `BackPlaneBoundaryWP` depends on y alone. */
  lemma BackPlaneWPIgnoresXAndFlag(b: DomainBounds, p: Vec2, q: Vec2, onP: bool, onQ: bool, eps: Tolerance)
    requires p.y == q.y
    ensures BackPlaneWPInside(b, p, onP, eps) == BackPlaneWPInside(b, q, onQ, eps)
  {
  }

  /** At equal depth the WP back plane accepts every point the full-field back plane accepts. */
  lemma BackPlaneWPContainsBackPlane(b: DomainBounds, p: Vec2, onBoundary: bool, eps: Tolerance)
    requires BackPlaneInside(b, p, onBoundary, eps)
    ensures BackPlaneWPInside(b, p, onBoundary, eps)
  {
  }

  /** The inclusion is strict: beyond the lateral extent, or off the mesh boundary, only the WP variant matches. */
  lemma BackPlaneVariantsDisagree(b: DomainBounds, p: Vec2, onBoundary: bool, eps: Tolerance)
    requires p.y > b.depth - eps * b.depth
    requires !onBoundary || p.x <= b.xMin - eps || b.xMax + eps <= p.x
    ensures BackPlaneWPInside(b, p, onBoundary, eps)
    ensures !BackPlaneInside(b, p, onBoundary, eps)
  {
  }

  /** `PeriodicLateralBoundary::inside` depends on x alone. */
  lemma PeriodicLateralIgnoresYAndFlag(b: DomainBounds, p: Vec2, y: real, onP: bool, onQ: bool, eps: Tolerance)
    ensures PeriodicLateralInside(b, p, onP, eps) == PeriodicLateralInside(b, Vec2(p.x, y), onQ, eps)
  {
  }

  /** The map sends a point onto the target face exactly when it lies within `eps` of x = xMax. */
  lemma PeriodicMapOntoTarget(b: DomainBounds, p: Vec2, onBoundary: bool, eps: Tolerance)
    ensures PeriodicLateralInside(b, PeriodicLateralMap(b, p), onBoundary, eps) <==> Abs(p.x - b.xMax) < eps
  {
  }

  /** A point of the right face lands on x = 0, at the same height, inside the target face. */
  lemma RightFaceMapsToLeftFace(b: DomainBounds, p: Vec2, onBoundary: bool, eps: Tolerance)
    requires p.x == b.xMax
    ensures PeriodicLateralMap(b, p) == Vec2(0.0, p.y)
    ensures PeriodicLateralInside(b, PeriodicLateralMap(b, p), onBoundary, eps)
  {
  }

  /** The map is a rigid translation: it preserves the displacement between any two points. */
  lemma PeriodicMapIsTranslation(b: DomainBounds, p: Vec2, q: Vec2)
    ensures Sub(PeriodicLateralMap(b, p), PeriodicLateralMap(b, q)) == Sub(p, q)
  {
  }

  /**
   Pitch 80, width 20, central strip 1, dolfin's tolerance: the local window is
   (30 (1 - eps), 50 (1 + eps)), so both strip edges x = 110 and x = 130 are
   accepted, x = 131 and x = 79 are not, and the strip centre x = 120 is.
   */
  lemma CentralStripWorkedExample()
    ensures var g := StripGeometry(80.0, 20.0, 1);
            && CentralStripInside(g, Vec2(110.0, 0.0), true, DolfinEps)
            && CentralStripInside(g, Vec2(120.0, 0.0), true, DolfinEps)
            && CentralStripInside(g, Vec2(130.0, 0.0), true, DolfinEps)
            && !CentralStripInside(g, Vec2(131.0, 0.0), true, DolfinEps)
            && !CentralStripInside(g, Vec2(79.0, 0.0), true, DolfinEps)
            && !CentralStripInside(g, Vec2(120.0, 0.0), false, DolfinEps)
  {
  }
}
