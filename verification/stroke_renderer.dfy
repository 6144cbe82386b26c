/**
 * The smoothing renderer of the signature pad: `drawDividedSmoothPath` cuts one
 * quadratic curve into equal parameter pieces and strokes each with a linearly
 * interpolated width.
 */
module StrokeRenderer {
  import opened Wrappers
  import opened CurveSlicer
  import opened Canvas

  /** A captured pointer position with its stroke weight `k`. */
  datatype StrokePoint = StrokePoint(x: real, y: real, k: real)

  /** One stroked piece of a subdivided curve. */
  datatype Piece = Piece(width: real, curve: Quad)

  /** The pieces drawn by one `drawDividedSmoothPath` call and the start point it hands on. */
  datatype Divided = Divided(pieces: seq<Piece>, next: StrokePoint)

  function Pos(p: StrokePoint): Pt {
    Pt(p.x, p.y)
  }

  function Mid(a: StrokePoint, b: StrokePoint): Pt {
    Pt((a.x + b.x) / 2.0, (a.y + b.y) / 2.0)
  }

  function Abs(r: real): real {
    if r < 0.0 then -r else r
  }

  /** `1 + floor(|k2 - k1| * 5)`: more pieces for larger weight changes. */
  function Divisions(k1: real, k2: real): (n: nat)
    ensures n >= 1
    ensures (n - 1) as real <= Abs(k2 - k1) * 5.0 < n as real
  {
    1 + (Abs(k2 - k1) * 5.0).Floor
  }

  /** The parameter where piece `i` of `divs` ends: the cut points run from 0 to 1. */
  function Cut(i: int, divs: nat): (t: real)
    requires divs >= 1
    ensures i == 0 ==> t == 0.0
    ensures i == divs ==> t == 1.0
    ensures i > 0 ==> t > 0.0
  {
    var n := divs as real;
    assert i == divs ==> (i as real) / n == 1.0 by {
      if i == divs {
        assert (i as real) == n;
      }
    }
    (i as real) / n
  }

  lemma CutIncreasing(i: int, divs: nat)
    requires divs >= 1
    ensures Cut(i - 1, divs) < Cut(i, divs)
  {
    var n := divs as real;
    assert Cut(i, divs) - Cut(i - 1, divs) == 1.0 / n;
  }

  /** `p1.k + dk * i`: the line width of piece `i`. */
  function Ramp(k0: real, step: real, i: int): real {
    k0 + step * (i as real)
  }

  /** The weight a fraction `f` of the way from `k1` to `k2`. */
  function Interpolate(k1: real, k2: real, f: real): real {
    k1 + f * (k2 - k1)
  }

  /** The per-piece weight increment `dk / divs`. */
  function StepOf(k1: real, k2: real): real {
    (k2 - k1) / (Divisions(k1, k2) as real)
  }

  /**
   * The loop of `drawDividedSmoothPath` from piece `i` on; `t1` is where the
   * previous piece ended and `step` the per-piece weight increment.
   */
  function SubdividePieces(q: Quad, k0: real, step: real, divs: nat, i: nat, t1: real): (ps: seq<Piece>)
    requires 1 <= divs && 1 <= i <= divs + 1
    requires t1 == Cut(i - 1, divs)
    decreases divs + 1 - i
    ensures |ps| == divs + 1 - i
    ensures forall j :: 0 <= j < |ps| ==> ps[j].width == Ramp(k0, step, i + j)
    ensures forall j :: 0 <= j < |ps| ==> ps[j].curve == Slice(q, Cut(i + j - 1, divs), Cut(i + j, divs))
  {
    if i > divs then []
    else
      var t2 := Cut(i, divs);
      CutIncreasing(i, divs);
      var rest := SubdividePieces(q, k0, step, divs, i + 1, t2);
      [Piece(Ramp(k0, step, i), Slice(q, t1, t2))] + rest
  }

  function DividedPieces(p1: StrokePoint, cp: StrokePoint, p2: Pt): seq<Piece> {
    SubdividePieces(Quad(Pos(p1), Pos(cp), p2), p1.k, StepOf(p1.k, cp.k), Divisions(p1.k, cp.k), 1, 0.0)
  }

  /**
   * `drawDividedSmoothPath(p1, cp, p2)`: the pieces of the curve from `p1`
   * through control `cp` to `p2`, one per division, and the start point for
   * the next call (the last piece's end, at the control point's weight).
   */
  function DividedSmoothPath(p1: StrokePoint, cp: StrokePoint, p2: Pt): (r: Divided)
    ensures |r.pieces| == Divisions(p1.k, cp.k)
    ensures r.next.k == cp.k
  {
    var ps := DividedPieces(p1, cp, p2);
    var stop := ps[|ps| - 1].curve.stop;
    Divided(ps, StrokePoint(stop.x, stop.y, cp.k))
  }

  /**
   * Piece `i` is drawn at the weight reached after `i + 1` equal steps from
   * `p1.k` to `cp.k`, so the last piece is drawn at exactly `cp.k`.
   */
  lemma DividedWidths(p1: StrokePoint, cp: StrokePoint, p2: Pt)
    ensures var r := DividedSmoothPath(p1, cp, p2);
      forall i :: 0 <= i < |r.pieces| ==> r.pieces[i].width == Interpolate(p1.k, cp.k, Cut(i + 1, |r.pieces|))
    ensures var r := DividedSmoothPath(p1, cp, p2);
      r.pieces[|r.pieces| - 1].width == cp.k
  {
    var divs := Divisions(p1.k, cp.k);
    var q := Quad(Pos(p1), Pos(cp), p2);
    var ps := DividedPieces(p1, cp, p2);
    PiecesInterpolate(p1.k, cp.k, divs, ps);
  }

  /**
   * The pieces run from `p1` to `p2` end to end, and the next call starts at
   * `p2` with the control point's weight.
   */
  lemma DividedChained(p1: StrokePoint, cp: StrokePoint, p2: Pt)
    ensures var r := DividedSmoothPath(p1, cp, p2);
      && Chained(r.pieces, Pos(p1))
      && r.pieces[|r.pieces| - 1].curve.stop == p2
      && r.next == StrokePoint(p2.x, p2.y, cp.k)
  {
    var divs := Divisions(p1.k, cp.k);
    var q := Quad(Pos(p1), Pos(cp), p2);
    var ps := DividedPieces(p1, cp, p2);
    assert forall j :: 0 <= j < |ps| ==> ps[j].curve == Slice(q, Cut(j, divs), Cut(j + 1, divs)) by {
      forall j | 0 <= j < |ps|
        ensures ps[j].curve == Slice(q, Cut(j, divs), Cut(j + 1, divs))
      {
        assert 1 + j - 1 == j;
      }
    }
    PiecesChained(q, divs, ps);
  }

  /** Piece `i` of `divs` is exactly the part of the curve between cut points `i` and `i + 1`. */
  lemma PieceIsSlice(p1: StrokePoint, cp: StrokePoint, p2: Pt, i: nat)
    requires i < Divisions(p1.k, cp.k)
    ensures var n := Divisions(p1.k, cp.k);
      DividedSmoothPath(p1, cp, p2).pieces[i].curve == Slice(Quad(Pos(p1), Pos(cp), p2), Cut(i, n), Cut(i + 1, n))
  {
    var n := Divisions(p1.k, cp.k);
    var q := Quad(Pos(p1), Pos(cp), p2);
    var ps := DividedPieces(p1, cp, p2);
    assert ps[i].curve == Slice(q, Cut(1 + i - 1, n), Cut(1 + i, n));
  }

  /** Traced at any `u`, `c` runs along `q` between parameters `a` and `b`. */
  ghost predicate TracesBetween(c: Quad, q: Quad, a: real, b: real) {
    forall u :: At(c, u) == At(q, a + (b - a) * u)
  }

  /** Piece `i` of `n` runs along the whole curve from parameter `i / n` to `(i + 1) / n`. */
  lemma PieceTracesCurve(p1: StrokePoint, cp: StrokePoint, p2: Pt, i: nat)
    requires i < Divisions(p1.k, cp.k)
    ensures var n := Divisions(p1.k, cp.k);
      TracesBetween(DividedSmoothPath(p1, cp, p2).pieces[i].curve, Quad(Pos(p1), Pos(cp), p2),
                    Cut(i, n), Cut(i + 1, n))
  {
    var n := Divisions(p1.k, cp.k);
    PieceIsSlice(p1, cp, p2, i);
    CutIncreasing(i + 1, n);
    SliceTraces(Quad(Pos(p1), Pos(cp), p2), Cut(i, n), Cut(i + 1, n), DividedSmoothPath(p1, cp, p2).pieces[i].curve);
  }

  lemma SliceTraces(q: Quad, a: real, b: real, c: Quad)
    requires 0.0 <= a < b
    requires c == Slice(q, a, b)
    ensures TracesBetween(c, q, a, b)
  {
    forall u {
      SliceReparam(q, a, b, u);
    }
  }

  /** The pieces start at `pen` and each starts where the previous one stopped. */
  ghost predicate Chained(ps: seq<Piece>, pen: Pt) {
    && |ps| > 0
    && ps[0].curve.start == pen
    && forall i, j :: 0 <= i && j == i + 1 && j < |ps| ==> ps[j].curve.start == ps[i].curve.stop
  }

  lemma PiecesChained(q: Quad, divs: nat, ps: seq<Piece>)
    requires divs >= 1 && |ps| == divs
    requires forall j :: 0 <= j < |ps| ==> ps[j].curve == Slice(q, Cut(j, divs), Cut(j + 1, divs))
    ensures Chained(ps, q.start)
    ensures ps[|ps| - 1].curve.stop == q.stop
  {
    AtZeroAndOne(q);
    forall j | 0 <= j < |ps|
      ensures ps[j].curve.start == At(q, Cut(j, divs)) && ps[j].curve.stop == At(q, Cut(j + 1, divs))
    {
      PieceEnds(q, divs, j, ps[j].curve);
    }
    forall i, j | 0 <= i && j == i + 1 && j < |ps|
      ensures ps[j].curve.start == ps[i].curve.stop
    {
      assert ps[j].curve.start == At(q, Cut(j, divs));
    }
    assert ps[0].curve.start == At(q, 0.0);
    assert ps[|ps| - 1].curve.stop == At(q, Cut(divs, divs));
  }

  lemma PieceEnds(q: Quad, divs: nat, j: nat, c: Quad)
    requires divs >= 1
    requires c == Slice(q, Cut(j, divs), Cut(j + 1, divs))
    ensures c.start == At(q, Cut(j, divs)) && c.stop == At(q, Cut(j + 1, divs))
  {
    CutIncreasing(j + 1, divs);
    SliceEnds(q, Cut(j, divs), Cut(j + 1, divs));
  }

  lemma PiecesInterpolate(k1: real, k2: real, divs: nat, ps: seq<Piece>)
    requires divs >= 1 && |ps| == divs
    requires divs == Divisions(k1, k2)
    requires forall j :: 0 <= j < |ps| ==> ps[j].width == Ramp(k1, StepOf(k1, k2), 1 + j)
    ensures forall j :: 0 <= j < |ps| ==> ps[j].width == Interpolate(k1, k2, Cut(j + 1, divs))
    ensures ps[|ps| - 1].width == k2
  {
    forall j | 0 <= j < |ps|
      ensures ps[j].width == Interpolate(k1, k2, Cut(j + 1, divs))
    {
      StepScale(k2 - k1, divs as real, (j + 1) as real);
    }
  }

  lemma StepScale(dk: real, n: real, i: real)
    requires n > 0.0
    ensures dk / n * i == i / n * dk
  {
  }

  /**
   * What the loop body of `drawDividedSmoothPath` issues for one piece: set the
   * width, continue the current path with the piece, stroke it, and open a new
   * path at the piece's end.
   */
  function PieceCommands(p: Piece): seq<Cmd> {
    [LineWidth(p.width), QuadTo(p.curve.ctrl, p.curve.stop), Stroke, BeginPath, MoveTo(p.curve.stop)]
  }

  /** One piece's commands stroke once and, from `pen`, draw the piece's curve started at `pen`. */
  lemma PieceCommandsReplay(p: Piece, pen: Pt)
    ensures StrokeCount(PieceCommands(p)) == 1
    ensures Rendered(PieceCommands(p), Some(pen)) == [Quad(pen, p.curve.ctrl, p.curve.stop)]
    ensures PenAfter(PieceCommands(p), Some(pen)) == Some(p.curve.stop)
  {
    var (c, e) := (p.curve.ctrl, p.curve.stop);
    var t4: seq<Cmd> := [MoveTo(e)];
    var t3 := [BeginPath] + t4;
    var t2 := [Stroke] + t3;
    var t1 := [QuadTo(c, e)] + t2;
    var t0 := [LineWidth(p.width)] + t1;
    assert t0 == PieceCommands(p);
    assert t4[1..] == [] && t3[1..] == t4 && t2[1..] == t3 && t1[1..] == t2 && t0[1..] == t1;
    assert |t4| == 1 && t4[0] == MoveTo(e);
    assert PenStep(t4[0], None) == Some(e);
    assert PenAfter(t4, None) == PenAfter(t4[1..], Some(e));
    assert StrokeCount(t4) == 0 && Rendered(t4, None) == [] && PenAfter(t4, None) == Some(e);
    assert StrokeCount(t3) == 0 && Rendered(t3, Some(e)) == [] && PenAfter(t3, Some(e)) == Some(e);
    assert StrokeCount(t2) == 1 && Rendered(t2, Some(e)) == [] && PenAfter(t2, Some(e)) == Some(e);
    assert StrokeCount(t1) == 1 && Rendered(t1, Some(pen)) == [Quad(pen, c, e)] && PenAfter(t1, Some(pen)) == Some(e);
  }

  /** The commands for a run of pieces, in order. */
  function Emit(ps: seq<Piece>): (cmds: seq<Cmd>)
    ensures |cmds| == 5 * |ps|
  {
    if |ps| == 0 then [] else PieceCommands(ps[0]) + Emit(ps[1..])
  }

  /** The curves of a run of pieces, in order. */
  function Curves(ps: seq<Piece>): (qs: seq<Quad>)
    ensures |qs| == |ps|
    ensures forall i :: 0 <= i < |ps| ==> qs[i] == ps[i].curve
  {
    if |ps| == 0 then [] else [ps[0].curve] + Curves(ps[1..])
  }

  /** Every piece is stroked exactly once. */
  lemma {:induction false} EmitStrokesEachPiece(ps: seq<Piece>)
    ensures StrokeCount(Emit(ps)) == |ps|
  {
    if |ps| > 0 {
      StrokeCountAppend(PieceCommands(ps[0]), Emit(ps[1..]));
      PieceCommandsReplay(ps[0], ps[0].curve.start);
      EmitStrokesEachPiece(ps[1..]);
    }
  }

  /**
   * Replayed from the start of a chained run, the commands draw exactly the
   * pieces' curves, and leave the pen at the end of the last one.
   */
  lemma {:induction false} EmitDrawsPieces(ps: seq<Piece>, pen: Pt)
    requires Chained(ps, pen)
    ensures Rendered(Emit(ps), Some(pen)) == Curves(ps)
    ensures PenAfter(Emit(ps), Some(pen)) == Some(ps[|ps| - 1].curve.stop)
    decreases |ps|
  {
    var head := PieceCommands(ps[0]);
    ReplayAppend(head, Emit(ps[1..]), Some(pen));
    PieceCommandsReplay(ps[0], pen);
    if |ps| == 1 {
      assert ps[1..] == [];
    } else {
      var rest := ps[1..];
      assert Chained(rest, ps[0].curve.stop) by {
        forall i, j | 0 <= i && j == i + 1 && j < |rest|
          ensures rest[j].curve.start == rest[i].curve.stop
        {
          assert rest[j] == ps[j + 1] && rest[i] == ps[i + 1];
        }
        assert rest[0] == ps[1];
      }
      EmitDrawsPieces(rest, ps[0].curve.stop);
    }
  }

  /** Two chained runs, the second starting where the first stops, chain together. */
  lemma ChainedAppend(a: seq<Piece>, b: seq<Piece>, pen: Pt)
    requires Chained(a, pen) && Chained(b, a[|a| - 1].curve.stop)
    ensures Chained(a + b, pen)
    ensures (a + b)[|a + b| - 1] == b[|b| - 1]
  {
    var ab := a + b;
    forall i, j | 0 <= i && j == i + 1 && j < |ab|
      ensures ab[j].curve.start == ab[i].curve.stop
    {
      if j < |a| {
        assert ab[j] == a[j] && ab[i] == a[i];
      } else if j == |a| {
        assert ab[j] == b[0] && ab[i] == a[|a| - 1];
      } else {
        assert ab[j] == b[j - |a|] && ab[i] == b[i - |a|];
      }
    }
  }
}
