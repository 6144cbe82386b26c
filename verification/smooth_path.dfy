/**
 * `drawSmoothPath`: after a gesture ends with the awesome pen on, the canvas
 * is cleared and every stored stroke of three or more points is redrawn as a
 * chain of quadratic curves; shorter strokes are not drawn again. Each curve
 * runs from one midpoint of consecutive points to the next, with the point
 * between them as control; the first starts at the first point and the last
 * ends at the last point.
 */
module SmoothPath {
  import opened Wrappers
  import opened CurveSlicer
  import opened Canvas
  import opened StrokeRenderer

  /** Curves joined end to start, from `from` to `to`. */
  ghost predicate Joined(qs: seq<Quad>, from: Pt, to: Pt) {
    && |qs| > 0
    && qs[0].start == from
    && qs[|qs| - 1].stop == to
    && forall i, j :: 0 <= i && j == i + 1 && j < |qs| ==> qs[j].start == qs[i].stop
  }

  /**
   * Where call `i` of the loop starts: at the first point for the first call,
   * afterwards at the midpoint the previous call ended at, carrying the weight
   * of the previous control point.
   */
  function CallStart(points: seq<StrokePoint>, i: nat): (s: StrokePoint)
    requires 1 <= i < |points|
    ensures s.k == points[i - 1].k
  {
    if i == 1 then points[0]
    else StrokePoint(Mid(points[i - 1], points[i]).x, Mid(points[i - 1], points[i]).y, points[i - 1].k)
  }

  /**
   * The inner loop of `drawSmoothPath` from index `i` on: `sp` is the start
   * point handed on by the previous `drawDividedSmoothPath` call, and each
   * call ends at the midpoint of `points[i]` and `points[i + 1]`.
   */
  function DividedRun(points: seq<StrokePoint>, i: nat, sp: StrokePoint): (r: Divided)
    requires 1 <= i <= |points| - 2
    decreases |points| - 2 - i
    ensures i == |points| - 2 ==> r == Divided([], sp)
    ensures |r.pieces| >= |points| - 2 - i
  {
    if i == |points| - 2 then Divided([], sp)
    else
      var d := DividedSmoothPath(sp, points[i], Mid(points[i], points[i + 1]));
      var rest := DividedRun(points, i + 1, d.next);
      Divided(d.pieces + rest.pieces, rest.next)
  }

  /**
   * The loop's pieces run end to end from `sp` to the last midpoint, which is
   * where the closing curve starts.
   */
  lemma {:induction false} RunChained(points: seq<StrokePoint>, i: nat, sp: StrokePoint)
    requires 1 <= i < |points| - 2
    decreases |points| - 2 - i
    ensures var r := DividedRun(points, i, sp);
      && Chained(r.pieces, Pos(sp))
      && r.pieces[|r.pieces| - 1].curve.stop == Pos(r.next)
  {
    var d := DividedSmoothPath(sp, points[i], Mid(points[i], points[i + 1]));
    var rest := DividedRun(points, i + 1, d.next);
    DividedChained(sp, points[i], Mid(points[i], points[i + 1]));
    var more := i + 1 < |points| - 2;
    if more {
      RunChained(points, i + 1, d.next);
    }
    ChainStep(d.pieces, d.next, rest.pieces, rest.next, sp, more);
    assert DividedRun(points, i, sp) == Divided(d.pieces + rest.pieces, rest.next);
  }

  /**
   * The loop hands the closing curve the last midpoint, that of `points[n - 3]`
   * and `points[n - 2]`, at the weight of `points[n - 3]`.
   */
  lemma {:induction false} RunEndsAtLastMid(points: seq<StrokePoint>, i: nat, sp: StrokePoint)
    requires 1 <= i < |points| - 2
    decreases |points| - 2 - i
    ensures DividedRun(points, i, sp).next == CallStart(points, |points| - 2)
    ensures var n := |points|; var next := DividedRun(points, i, sp).next;
      Pos(next) == Mid(points[n - 3], points[n - 2]) && next.k == points[n - 3].k
  {
    var d := DividedSmoothPath(sp, points[i], Mid(points[i], points[i + 1]));
    if i + 1 < |points| - 2 {
      RunEndsAtLastMid(points, i + 1, d.next);
    } else {
      DividedChained(sp, points[i], Mid(points[i], points[i + 1]));
    }
  }

  /** One call's chained pieces followed by the chained rest of the loop. */
  lemma ChainStep(dp: seq<Piece>, dnext: StrokePoint, rp: seq<Piece>, rnext: StrokePoint, sp: StrokePoint, more: bool)
    requires Chained(dp, Pos(sp)) && dp[|dp| - 1].curve.stop == Pos(dnext)
    requires more ==> Chained(rp, Pos(dnext)) && rp[|rp| - 1].curve.stop == Pos(rnext)
    requires !more ==> rp == [] && rnext == dnext
    ensures Chained(dp + rp, Pos(sp))
    ensures (dp + rp)[|dp + rp| - 1].curve.stop == Pos(rnext)
  {
    if more {
      ChainedAppend(dp, rp, Pos(sp));
    } else {
      assert dp + rp == dp;
    }
  }

  /**
   * The pieces of the calls from `i` on, each computed directly from the
   * stroke's points rather than from the previous call's result.
   */
  ghost function CallPieces(points: seq<StrokePoint>, i: nat): seq<Piece>
    requires 1 <= i <= |points| - 2
    decreases |points| - 2 - i
  {
    if i == |points| - 2 then []
    else
      DividedSmoothPath(CallStart(points, i), points[i], Mid(points[i], points[i + 1])).pieces
        + CallPieces(points, i + 1)
  }

  /**
   * Threading the start point through the loop is the same as starting call
   * `i` at `CallStart(points, i)`: the previous midpoint, at the previous
   * point's weight.
   */
  lemma {:induction false} RunFollowsCalls(points: seq<StrokePoint>, i: nat)
    requires 1 <= i <= |points| - 2
    ensures DividedRun(points, i, CallStart(points, i)).pieces == CallPieces(points, i)
    decreases |points| - 2 - i
  {
    if i < |points| - 2 {
      var d := DividedSmoothPath(CallStart(points, i), points[i], Mid(points[i], points[i + 1]));
      NextCallStart(points, i);
      RunFollowsCalls(points, i + 1);
      calc {
        DividedRun(points, i, CallStart(points, i)).pieces;
        d.pieces + DividedRun(points, i + 1, d.next).pieces;
        d.pieces + DividedRun(points, i + 1, CallStart(points, i + 1)).pieces;
        d.pieces + CallPieces(points, i + 1);
        CallPieces(points, i);
      }
    }
  }

  /** Each call hands on exactly the start of the next one. */
  lemma NextCallStart(points: seq<StrokePoint>, i: nat)
    requires 1 <= i < |points| - 2
    ensures DividedSmoothPath(CallStart(points, i), points[i], Mid(points[i], points[i + 1])).next
      == CallStart(points, i + 1)
  {
    DividedChained(CallStart(points, i), points[i], Mid(points[i], points[i + 1]));
  }

  /** The commands `drawSmoothPath` issues for one stroke. */
  function StrokeCommands(points: seq<StrokePoint>): (cmds: seq<Cmd>)
    ensures |points| <= 2 ==> cmds == []
    ensures |points| > 2 ==> |cmds| > 0 && cmds[0] == BeginPath
  {
    if |points| <= 2 then []
    else
      var n := |points|;
      var run := DividedRun(points, 1, points[0]);
      [BeginPath, MoveTo(Pos(points[0]))] + Emit(run.pieces)
        + [QuadTo(Pos(points[n - 2]), Pos(points[n - 1])), Stroke]
  }

  /**
   * The closing curve of a stroke, controlled by the second-to-last point and
   * ending at the last: it starts at the last midpoint, or at the first point
   * when the stroke has exactly three points and the loop makes no call.
   */
  function ClosingCurve(points: seq<StrokePoint>): (c: Quad)
    requires |points| > 2
    ensures |points| == 3 ==> c.start == Pos(points[0])
    ensures |points| > 3 ==> c.start == Mid(points[|points| - 3], points[|points| - 2])
    ensures c.ctrl == Pos(points[|points| - 2]) && c.stop == Pos(points[|points| - 1])
  {
    var n := |points|;
    Quad(Pos(CallStart(points, n - 2)), Pos(points[n - 2]), Pos(points[n - 1]))
  }

  /**
   * A stroke's commands: open a path at the first point, the loop's pieces,
   * then the closing curve.
   */
  lemma StrokeCommandsShape(points: seq<StrokePoint>)
    requires |points| > 2
    ensures var n := |points|;
      StrokeCommands(points)
        == [BeginPath, MoveTo(Pos(points[0]))] + Emit(DividedRun(points, 1, points[0]).pieces)
           + [QuadTo(Pos(points[n - 2]), Pos(points[n - 1])), Stroke]
    ensures DividedRun(points, 1, points[0]).pieces == CallPieces(points, 1)
  {
    RunFollowsCalls(points, 1);
  }

  /**
   * Whatever the pen was, one stroke's commands draw the divided pieces of
   * every loop call and then the closing curve.
   */
  lemma StrokeReplay(points: seq<StrokePoint>, pen: Option<Pt>)
    requires |points| > 2
    ensures Rendered(StrokeCommands(points), pen) == Curves(CallPieces(points, 1)) + [ClosingCurve(points)]
  {
    var n := |points|;
    var run := DividedRun(points, 1, points[0]);
    StrokeCommandsShape(points);
    if n > 3 {
      RunChained(points, 1, points[0]);
      RunEndsAtLastMid(points, 1, points[0]);
    }
    ReplayOpenRunClose(Pos(points[0]), run.pieces, Pos(run.next), Pos(points[n - 2]), Pos(points[n - 1]), pen);
  }

  /** Replaying an opened path, a chained run from its start, and a closing curve. */
  lemma ReplayOpenRunClose(p0: Pt, ps: seq<Piece>, start: Pt, c: Pt, e: Pt, pen: Option<Pt>)
    requires ps == [] ==> start == p0
    requires ps != [] ==> Chained(ps, p0) && ps[|ps| - 1].curve.stop == start
    ensures Rendered([BeginPath, MoveTo(p0)] + Emit(ps) + [QuadTo(c, e), Stroke], pen)
      == Curves(ps) + [Quad(start, c, e)]
  {
    var open: seq<Cmd> := [BeginPath, MoveTo(p0)];
    var body := Emit(ps);
    var close: seq<Cmd> := [QuadTo(c, e), Stroke];
    ReplayOpen(p0, pen);
    ReplayAppend(open, body, pen);
    ReplayAppend(open + body, close, pen);
    if ps != [] {
      EmitDrawsPieces(ps, p0);
    }
    assert PenAfter(open + body, pen) == Some(start);
    ReplayClose(start, c, e);
  }

  /** One stroke's commands stroke once per divided piece and once for the closing curve. */
  lemma StrokeCountOfStroke(points: seq<StrokePoint>)
    requires |points| > 2
    ensures StrokeCount(StrokeCommands(points)) == |CallPieces(points, 1)| + 1
  {
    var n := |points|;
    var run := DividedRun(points, 1, points[0]);
    var open: seq<Cmd> := [BeginPath, MoveTo(Pos(points[0]))];
    var body := Emit(run.pieces);
    var close: seq<Cmd> := [QuadTo(Pos(points[n - 2]), Pos(points[n - 1])), Stroke];
    StrokeCommandsShape(points);
    ReplayOpen(Pos(points[0]), None);
    ReplayClose(Pos(points[0]), Pos(points[n - 2]), Pos(points[n - 1]));
    StrokeCountAppend(open, body);
    StrokeCountAppend(open + body, close);
    EmitStrokesEachPiece(run.pieces);
  }

  lemma ReplayOpen(p: Pt, pen: Option<Pt>)
    ensures Rendered([BeginPath, MoveTo(p)], pen) == []
    ensures PenAfter([BeginPath, MoveTo(p)], pen) == Some(p)
    ensures StrokeCount([BeginPath, MoveTo(p)]) == 0
  {
    var t1: seq<Cmd> := [MoveTo(p)];
    var t0 := [BeginPath] + t1;
    assert t0 == [BeginPath, MoveTo(p)];
    assert t1[1..] == [] && t0[1..] == t1;
    assert PenAfter(t1, None) == PenAfter(t1[1..], Some(p));
    assert Rendered(t1, None) == [] && PenAfter(t1, None) == Some(p) && StrokeCount(t1) == 0;
  }

  lemma ReplayClose(start: Pt, c: Pt, e: Pt)
    ensures Rendered([QuadTo(c, e), Stroke], Some(start)) == [Quad(start, c, e)]
    ensures StrokeCount([QuadTo(c, e), Stroke]) == 1
  {
    var t1: seq<Cmd> := [Stroke];
    var t0 := [QuadTo(c, e)] + t1;
    assert t0 == [QuadTo(c, e), Stroke];
    assert t1[1..] == [] && t0[1..] == t1;
    assert Rendered(t1, Some(e)) == [] && StrokeCount(t1) == 1;
  }

  /**
   * Every drawn curve of a stroke of more than two points joins the next, from
   * its first point to its last.
   */
  lemma StrokeJoined(points: seq<StrokePoint>, pen: Option<Pt>)
    requires |points| > 2
    ensures Joined(Rendered(StrokeCommands(points), pen), Pos(points[0]), Pos(points[|points| - 1]))
  {
    var n := |points|;
    var run := DividedRun(points, 1, points[0]);
    StrokeCommandsShape(points);
    StrokeReplay(points, pen);
    if n > 3 {
      RunChained(points, 1, points[0]);
      RunEndsAtLastMid(points, 1, points[0]);
    }
    JoinedRunClose(Pos(points[0]), run.pieces, Pos(run.next), Pos(points[n - 2]), Pos(points[n - 1]));
  }

  lemma {:induction false} JoinedRunClose(p0: Pt, ps: seq<Piece>, start: Pt, c: Pt, e: Pt)
    requires ps == [] ==> start == p0
    requires ps != [] ==> Chained(ps, p0) && ps[|ps| - 1].curve.stop == start
    ensures Joined(Curves(ps) + [Quad(start, c, e)], p0, e)
  {
    var qs := Curves(ps) + [Quad(start, c, e)];
    if ps != [] {
      forall i, j | 0 <= i && j == i + 1 && j < |qs|
        ensures qs[j].start == qs[i].stop
      {
        assert qs[i] == ps[i].curve;
        if j < |ps| {
          assert qs[j] == ps[j].curve;
        } else {
          assert qs[j] == Quad(start, c, e);
        }
      }
    }
  }

  /** What `drawSmoothPath` draws for one stroke: nothing for two points or fewer. */
  ghost function StrokeDrawing(points: seq<StrokePoint>): seq<Quad> {
    if |points| <= 2 then [] else Curves(CallPieces(points, 1)) + [ClosingCurve(points)]
  }

  /** How many times `drawSmoothPath` strokes for one stroke. */
  ghost function StrokeStrokes(points: seq<StrokePoint>): nat {
    if |points| <= 2 then 0 else |CallPieces(points, 1)| + 1
  }

  /** The commands of the stroke loop of `drawSmoothPath`, stroke by stroke. */
  function AllStrokes(curves: seq<seq<StrokePoint>>): (cmds: seq<Cmd>)
    ensures (forall j :: 0 <= j < |curves| ==> |curves[j]| <= 2) ==> cmds == []
  {
    if |curves| == 0 then []
    else AllStrokes(curves[..|curves| - 1]) + StrokeCommands(curves[|curves| - 1])
  }

  /**
   * `drawSmoothPath`: clear the whole canvas, then redraw every stored stroke
   * of three or more points.
   */
  function SmoothPathCommands(curves: seq<seq<StrokePoint>>): (cmds: seq<Cmd>)
    ensures |cmds| > 0 && cmds[0] == ClearRect
    ensures (forall j :: 0 <= j < |curves| ==> |curves[j]| <= 2) ==> cmds == [ClearRect]
  {
    [ClearRect] + AllStrokes(curves)
  }

  /** The drawings of all strokes, in order. */
  ghost function Drawings(curves: seq<seq<StrokePoint>>): seq<Quad> {
    if |curves| == 0 then [] else Drawings(curves[..|curves| - 1]) + StrokeDrawing(curves[|curves| - 1])
  }

  /** The stroke calls of all strokes together. */
  ghost function TotalStrokes(curves: seq<seq<StrokePoint>>): nat {
    if |curves| == 0 then 0 else TotalStrokes(curves[..|curves| - 1]) + StrokeStrokes(curves[|curves| - 1])
  }

  /**
   * One stroke's commands draw its drawing whatever the pen, and leave no curve
   * behind for the next.
   */
  lemma StrokeCommandsDraw(points: seq<StrokePoint>, pen: Option<Pt>)
    ensures Rendered(StrokeCommands(points), pen) == StrokeDrawing(points)
    ensures StrokeCount(StrokeCommands(points)) == StrokeStrokes(points)
  {
    if |points| > 2 {
      StrokeReplay(points, pen);
      StrokeCountOfStroke(points);
    }
  }

  /**
   * Whatever the pen was before, the redraw draws each stroke's drawing in
   * stroke order, independently of the strokes before it, and strokes once
   * per divided piece plus once per closing curve.
   */
  lemma {:induction false} SmoothPathDraws(curves: seq<seq<StrokePoint>>, pen: Option<Pt>)
    ensures Rendered(SmoothPathCommands(curves), pen) == Drawings(curves)
    ensures StrokeCount(SmoothPathCommands(curves)) == TotalStrokes(curves)
  {
    AllStrokesDraw(curves, PenStep(ClearRect, pen));
    var t: seq<Cmd> := [ClearRect];
    ReplayAppend(t, AllStrokes(curves), pen);
    StrokeCountAppend(t, AllStrokes(curves));
    assert t[1..] == [];
    assert Rendered(t, pen) == [] && StrokeCount(t) == 0;
  }

  lemma {:induction false} AllStrokesDraw(curves: seq<seq<StrokePoint>>, pen: Option<Pt>)
    ensures Rendered(AllStrokes(curves), pen) == Drawings(curves)
    ensures StrokeCount(AllStrokes(curves)) == TotalStrokes(curves)
    decreases |curves|
  {
    if |curves| > 0 {
      var init := curves[..|curves| - 1];
      var last := curves[|curves| - 1];
      AllStrokesDraw(init, pen);
      ReplayAppend(AllStrokes(init), StrokeCommands(last), pen);
      StrokeCountAppend(AllStrokes(init), StrokeCommands(last));
      StrokeCommandsDraw(last, PenAfter(AllStrokes(init), pen));
    }
  }
}
