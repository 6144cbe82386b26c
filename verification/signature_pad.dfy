/**
 * The signature pad's gesture state machine: pointer down starts a stroke,
 * pointer moves while drawing add points (and draw a straight segment at
 * once), pointer up ends the gesture and, with the awesome pen on, wipes the
 * canvas and redraws smoothly every stroke of three or more points. Each
 * handler returns the pad's next state and the drawing commands it issued.
 *
 * Coordinates arrive already local and whole (the handlers floor them); the
 * normalised travel distance of a move arrives as an input.
 */
module SignaturePad {
  import opened Wrappers
  import opened CurveSlicer
  import opened Canvas
  import opened StrokeWidth
  import opened StrokeRenderer
  import opened SmoothPath

  /** The pad's `strokeColor`. */
  const StrokeColor: string := "#0d3d78"

  /** The pad's `strokeThickness`: the plain pen's width and the width `clear` sets. */
  const StrokeThickness: real := 10.0

  /**
   * The pad's state. The stroke list `curves` is `done` followed by the
   * current stroke `points` when that reference is set: the current stroke is
   * the same array as the last element of `curves`, so growing one grows the
   * other. `last` is the last recorded position.
   */
  datatype Pad = Pad(
    isDrawing: bool,
    isAwesome: bool,
    done: seq<seq<StrokePoint>>,
    points: Option<seq<StrokePoint>>,
    last: Pt)
  {
    /** The pad's `curves`. */
    function curves(): seq<seq<StrokePoint>> {
      if points.Some? then done + [points.value] else done
    }
  }

  /** A handler's effect: the next state and the commands issued to the canvas. */
  datatype Step = Step(pad: Pad, cmds: seq<Cmd>)

  /** A move while drawing with no current stroke dereferences a null `points`. */
  datatype PadError = NoActiveStroke

  /**
   * A handler that threw: the error, together with the state and the commands
   * it had already produced when it threw (the JavaScript does not roll them back).
   */
  datatype Fault = Fault(error: PadError, partial: Step)

  /** What a handler left behind, whether it returned or threw. */
  function Effect(r: Result<Step, Fault>): Step {
    match r
    case Success(s) => s
    case Failure(f) => f.partial
  }

  /** The errors a handler threw: none, or one. */
  function Thrown(r: Result<Step, Fault>): seq<PadError> {
    match r
    case Success(_) => []
    case Failure(f) => [f.error]
  }

  /** One pointer move: local position and travel distance divided by the canvas width. */
  datatype Move = Move(x: int, y: int, dist: real)

  /** Every stroke has at least one point. */
  ghost predicate Valid(p: Pad) {
    forall i :: 0 <= i < |p.curves()| ==> |p.curves()[i]| > 0
  }

  /** `clear`: drop every stroke, wipe the canvas and reset the pen style. */
  function Clear(p: Pad): (r: Step)
    ensures r.pad.curves() == [] && r.pad.points.None?
    ensures r.pad.isDrawing == p.isDrawing && r.pad.isAwesome == p.isAwesome
    ensures r.cmds == [ClearRect, StrokeStyle(StrokeColor), LineCapRound, LineWidth(StrokeThickness)]
  {
    Step(p.(done := [], points := None),
         [ClearRect, StrokeStyle(StrokeColor), LineCapRound, LineWidth(StrokeThickness)])
  }

  /** The state after `initialize`: the prototype's defaults, then `clear`. */
  function Initial(): (r: Step)
    ensures Valid(r.pad) && !r.pad.isDrawing && !r.pad.isAwesome && r.pad.curves() == []
  {
    Clear(Pad(false, false, [], None, Pt(0.0, 0.0)))
  }

  /** `eventStart`: begin a new stroke holding the pointer position at weight 1. */
  function Start(p: Pad, x: int, y: int): (r: Step)
    ensures r.pad.isDrawing && r.pad.points.Some? && r.pad.isAwesome == p.isAwesome
    ensures r.pad.curves() == p.curves() + [[StrokePoint(x as real, y as real, 1.0)]]
    ensures r.cmds == []
  {
    Step(p.(isDrawing := true, done := p.curves(),
            points := Some([StrokePoint(x as real, y as real, 1.0)]),
            last := Pt(x as real, y as real)),
         [])
  }

  /** The weight of a new point: the table width with the awesome pen, else the plain thickness. */
  function Thickness(isAwesome: bool, dist: real): (k: real)
    ensures isAwesome ==> k == PadStrokeWidth(dist)
    ensures !isAwesome ==> k == StrokeThickness
  {
    if isAwesome then PadStrokeWidth(dist) else StrokeThickness
  }

  /** The position of a move, as a point. */
  function MovePos(m: Move): Pt {
    Pt(m.x as real, m.y as real)
  }

  /** The commands of one straight segment of `drawPoint`. */
  function SegmentCommands(from: Pt, to: Pt, w: real): seq<Cmd> {
    [BeginPath, MoveTo(from), LineTo(to), LineWidth(w), Stroke]
  }

  /**
   * `drawPoint`: stroke a straight segment from the last position to the new
   * one, record the new position, then append the new point to the current
   * stroke. With no current stroke the append throws, after the segment has
   * been drawn and the position recorded.
   */
  function DrawPoint(p: Pad, m: Move): (r: Result<Step, Fault>)
    ensures Effect(r).cmds == SegmentCommands(p.last, MovePos(m), Thickness(p.isAwesome, m.dist))
    ensures Effect(r).pad.last == MovePos(m)
    ensures Effect(r).pad.isDrawing == p.isDrawing && Effect(r).pad.isAwesome == p.isAwesome
    ensures Effect(r).pad.done == p.done
    ensures r.Failure? <==> p.points.None?
    ensures r.Failure? ==> r.error.error == NoActiveStroke && Effect(r).pad.points.None?
    ensures r.Success? ==>
      Effect(r).pad.points ==
        Some(p.points.value + [StrokePoint(m.x as real, m.y as real, Thickness(p.isAwesome, m.dist))])
  {
    var at := MovePos(m);
    var thick := Thickness(p.isAwesome, m.dist);
    var drawn := p.(last := at);
    var cmds := SegmentCommands(p.last, at, thick);
    if p.points.None? then Failure(Fault(NoActiveStroke, Step(drawn, cmds)))
    else Success(Step(drawn.(points := Some(p.points.value + [StrokePoint(at.x, at.y, thick)])), cmds))
  }

  /** `eventMove`: nothing unless a gesture is under way. */
  function OnMove(p: Pad, m: Move): (r: Result<Step, Fault>)
    ensures !p.isDrawing ==> r == Success(Step(p, []))
    ensures p.isDrawing && p.points.None? ==> r.Failure? && r.error.error == NoActiveStroke
    ensures p.isDrawing && p.points.Some? ==> r.Success? && |r.value.pad.curves()| == |p.curves()|
  {
    if !p.isDrawing then Success(Step(p, [])) else DrawPoint(p, m)
  }

  /**
   * `eventStop`: the gesture ends; with the awesome pen the canvas is wiped and
   * every stroke of three or more points is redrawn smoothly.
   */
  function Stop(p: Pad): (r: Step)
    ensures !r.pad.isDrawing && r.pad.curves() == p.curves() && r.pad.isAwesome == p.isAwesome
    ensures !p.isAwesome ==> r.cmds == []
  {
    Step(p.(isDrawing := false), if p.isAwesome then SmoothPathCommands(p.curves()) else [])
  }

  /** `toggleAwesomePen`. */
  function Toggle(p: Pad): (r: Pad)
    ensures r.isAwesome != p.isAwesome
    ensures r.(isAwesome := p.isAwesome) == p
  {
    p.(isAwesome := !p.isAwesome)
  }

  lemma ToggleTwice(p: Pad)
    ensures Toggle(Toggle(p)) == p
  {
  }

  /**
   * A move changes only the last stroke, by exactly one point at the move's
   * position and weight.
   */
  lemma MoveAppendsToLastStroke(p: Pad, m: Move)
    requires p.isDrawing && p.points.Some?
    ensures var r := OnMove(p, m);
      && r.Success?
      && var q := r.value.pad; var n := |p.curves()|;
      && |q.curves()| == n
      && q.curves()[..n - 1] == p.curves()[..n - 1]
      && q.curves()[n - 1] ==
         p.curves()[n - 1] + [StrokePoint(m.x as real, m.y as real, Thickness(p.isAwesome, m.dist))]
      && q.isDrawing && q.points.Some? && q.isAwesome == p.isAwesome
  {
    var n := |p.curves()|;
    var q := OnMove(p, m).value.pad;
    assert q.curves()[..n - 1] == p.done == p.curves()[..n - 1];
  }

  /** The recorded position is the current stroke's last point. */
  ghost predicate Tracking(p: Pad) {
    p.points.Some? ==> |p.points.value| > 0 && Pos(p.points.value[|p.points.value| - 1]) == p.last
  }

  /**
   * While drawing, a move strokes exactly one straight segment, from the
   * current stroke's last point to the new one, and the pad keeps tracking
   * the new point.
   */
  lemma MoveDrawsSegment(p: Pad, m: Move)
    requires Tracking(p) && p.isDrawing && p.points.Some?
    ensures var r := OnMove(p, m);
      && r.Success?
      && var pts := r.value.pad.points.value;
      && Tracking(r.value.pad)
      && StrokeCount(r.value.cmds) == 1
      && Rendered(r.value.cmds, None) == []
      && r.value.cmds[1] == MoveTo(Pos(p.points.value[|p.points.value| - 1]))
      && r.value.cmds[2] == LineTo(Pos(pts[|pts| - 1]))
      && r.value.cmds[3] == LineWidth(pts[|pts| - 1].k)
  {
    SegmentReplay(p.last, MovePos(m), Thickness(p.isAwesome, m.dist), None);
  }

  /** A straight segment's commands stroke once and add no curve. */
  lemma SegmentReplay(a: Pt, b: Pt, w: real, pen: Option<Pt>)
    ensures StrokeCount(SegmentCommands(a, b, w)) == 1
    ensures Rendered(SegmentCommands(a, b, w), pen) == []
  {
    var t4: seq<Cmd> := [Stroke];
    var t3 := [LineWidth(w)] + t4;
    var t2 := [LineTo(b)] + t3;
    var t1 := [MoveTo(a)] + t2;
    var t0 := [BeginPath] + t1;
    assert t4[1..] == [] && t3[1..] == t4 && t2[1..] == t3 && t1[1..] == t2 && t0[1..] == t1;
    assert StrokeCount(t4) == 1 && Rendered(t4, Some(b)) == [];
    assert StrokeCount(t3) == 1 && Rendered(t3, Some(b)) == [];
    assert StrokeCount(t2) == 1 && Rendered(t2, Some(a)) == [];
    assert StrokeCount(t1) == 1 && Rendered(t1, None) == [];
    assert t0 == [BeginPath, MoveTo(a), LineTo(b), LineWidth(w), Stroke];
  }

  /** Starting a gesture begins tracking; every handler keeps tracking. */
  lemma HandlersKeepTracking(p: Pad, x: int, y: int, m: Move)
    requires Tracking(p)
    ensures Tracking(Start(p, x, y).pad)
    ensures Tracking(Effect(OnMove(p, m)).pad)
    ensures Tracking(Stop(p).pad) && Tracking(Clear(p).pad) && Tracking(Toggle(p))
  {
    MoveKeepsTracking(p, m);
  }

  /**
   * A move, whether it returns or throws, leaves the recorded position on the
   * current stroke's last point.
   */
  lemma MoveKeepsTracking(p: Pad, m: Move)
    requires Tracking(p)
    ensures Tracking(Effect(OnMove(p, m)).pad)
  {
    var q := Effect(OnMove(p, m)).pad;
    if p.isDrawing && p.points.Some? {
      var pts := q.points.value;
      assert pts[|pts| - 1] == StrokePoint(m.x as real, m.y as real, Thickness(p.isAwesome, m.dist));
    }
  }

  /** Every handler keeps the pad valid. */
  lemma HandlersKeepValid(p: Pad, x: int, y: int, m: Move)
    requires Valid(p)
    ensures Valid(Start(p, x, y).pad)
    ensures Valid(Effect(OnMove(p, m)).pad)
    ensures Valid(Stop(p).pad)
    ensures Valid(Clear(p).pad)
    ensures Valid(Toggle(p))
  {
    var r := OnMove(p, m);
    if r.Success? && p.isDrawing {
      var n := |p.curves()|;
      var q := r.value.pad;
      forall i | 0 <= i < |q.curves()|
        ensures |q.curves()[i]| > 0
      {
        if i < n - 1 {
          assert q.curves()[i] == p.curves()[i];
        }
      }
    }
  }

  /**
   * A run of handler calls: the final state, every command issued and every
   * error thrown, in order.
   */
  datatype Run = Run(pad: Pad, cmds: seq<Cmd>, thrown: seq<PadError>)

  /**
   * Moves applied in order. A move whose handler throws still leaves its
   * effects, and the browser goes on dispatching the later moves.
   */
  function Moves(p: Pad, ms: seq<Move>): Run
    decreases |ms|
  {
    if |ms| == 0 then Run(p, [], [])
    else
      var before := Moves(p, ms[..|ms| - 1]);
      var last := OnMove(before.pad, ms[|ms| - 1]);
      Run(Effect(last).pad, before.cmds + Effect(last).cmds, before.thrown + Thrown(last))
  }

  /** The points a gesture records: where it started, then every move at its weight. */
  function GesturePoints(isAwesome: bool, x: int, y: int, ms: seq<Move>): (pts: seq<StrokePoint>)
    ensures |pts| == |ms| + 1
  {
    if |ms| == 0 then [StrokePoint(x as real, y as real, 1.0)]
    else
      var m := ms[|ms| - 1];
      GesturePoints(isAwesome, x, y, ms[..|ms| - 1])
        + [StrokePoint(m.x as real, m.y as real, Thickness(isAwesome, m.dist))]
  }

  /**
   * A gesture of `k` moves never throws, strokes one straight segment per
   * move, and records one new stroke of `k + 1` points, the first at weight 1
   * and each later one at its move's weight, leaving every earlier stroke as
   * it was.
   */
  lemma {:induction false} GestureRecordsStroke(p: Pad, x: int, y: int, ms: seq<Move>)
    ensures var r := Moves(Start(p, x, y).pad, ms);
      && r.thrown == []
      && StrokeCount(r.cmds) == |ms|
      && r.pad.curves() == p.curves() + [GesturePoints(p.isAwesome, x, y, ms)]
      && r.pad.isDrawing && r.pad.points.Some? && r.pad.isAwesome == p.isAwesome
    decreases |ms|
  {
    if |ms| > 0 {
      var init := ms[..|ms| - 1];
      var m := ms[|ms| - 1];
      assert ms == init + [m];
      GestureRecordsStroke(p, x, y, init);
      var s := Start(p, x, y).pad;
      var before := Moves(s, init);
      MovesSplit(s, init, m);
      GestureStep(before.pad, m, p.curves(), GesturePoints(p.isAwesome, x, y, init));
      StrokeCountAppend(before.cmds, Effect(OnMove(before.pad, m)).cmds);
    }
  }

  /**
   * One move of a gesture in progress: it returns, strokes once, and extends
   * the current stroke.
   */
  lemma GestureStep(q: Pad, m: Move, earlier: seq<seq<StrokePoint>>, current: seq<StrokePoint>)
    requires q.isDrawing && q.points.Some? && q.curves() == earlier + [current]
    ensures var r := OnMove(q, m);
      && Thrown(r) == []
      && StrokeCount(Effect(r).cmds) == 1
      && Effect(r).pad.curves() ==
         earlier + [current + [StrokePoint(m.x as real, m.y as real, Thickness(q.isAwesome, m.dist))]]
      && Effect(r).pad.isDrawing && Effect(r).pad.points.Some? && Effect(r).pad.isAwesome == q.isAwesome
  {
    SegmentReplay(q.last, MovePos(m), Thickness(q.isAwesome, m.dist), None);
    var n := |q.curves()|;
    assert q.curves()[..n - 1] == earlier;
  }

  /** Running moves then one more is running the last move on the earlier result. */
  lemma MovesSplit(p: Pad, ms: seq<Move>, m: Move)
    ensures Moves(p, ms + [m]).pad == Effect(OnMove(Moves(p, ms).pad, m)).pad
    ensures Moves(p, ms + [m]).cmds == Moves(p, ms).cmds + Effect(OnMove(Moves(p, ms).pad, m)).cmds
    ensures Moves(p, ms + [m]).thrown == Moves(p, ms).thrown + Thrown(OnMove(Moves(p, ms).pad, m))
  {
    assert (ms + [m])[..|ms|] == ms;
  }

  /**
   * Clearing in the middle of a gesture leaves the pad drawing with no current
   * stroke: the next move still strokes its segment from the gesture's start
   * and records its position, then throws, and no stroke is recorded.
   */
  lemma ClearWhileDrawingBreaksMove(p: Pad, x: int, y: int, m: Move)
    ensures var s := Clear(Start(p, x, y).pad).pad; var r := OnMove(s, m);
      && s.isDrawing
      && r.Failure? && r.error.error == NoActiveStroke
      && Effect(r).cmds == SegmentCommands(Pt(x as real, y as real), MovePos(m), Thickness(p.isAwesome, m.dist))
      && Effect(r).pad.last == MovePos(m)
      && Effect(r).pad.curves() == []
  {
  }

  /**
   * Once drawing goes on with no current stroke, every later move strokes its
   * segment and throws, and the recorded strokes never change.
   */
  lemma {:induction false} StrandedMoves(s: Pad, ms: seq<Move>)
    requires s.isDrawing && s.points.None?
    ensures var r := Moves(s, ms);
      && |r.thrown| == |ms|
      && (forall i :: 0 <= i < |r.thrown| ==> r.thrown[i] == NoActiveStroke)
      && StrokeCount(r.cmds) == |ms|
      && r.pad.curves() == s.curves()
      && r.pad.isDrawing && r.pad.points.None?
    decreases |ms|
  {
    if |ms| > 0 {
      var init := ms[..|ms| - 1];
      var m := ms[|ms| - 1];
      StrandedMoves(s, init);
      var before := Moves(s, init);
      var last := OnMove(before.pad, m);
      SegmentReplay(before.pad.last, MovePos(m), Thickness(before.pad.isAwesome, m.dist), None);
      StrokeCountAppend(before.cmds, Effect(last).cmds);
    }
  }

  /**
   * After `clear` mid-gesture, every remaining move of the gesture throws and
   * no stroke is recorded.
   */
  lemma ClearedGestureKeepsThrowing(p: Pad, x: int, y: int, ms: seq<Move>)
    ensures var r := Moves(Clear(Start(p, x, y).pad).pad, ms);
      && |r.thrown| == |ms|
      && (forall i :: 0 <= i < |r.thrown| ==> r.thrown[i] == NoActiveStroke)
      && StrokeCount(r.cmds) == |ms|
      && r.pad.curves() == []
  {
    StrandedMoves(Clear(Start(p, x, y).pad).pad, ms);
  }

  /** With the plain pen, a gesture's later points all carry the plain thickness. */
  lemma PlainPenWeights(x: int, y: int, ms: seq<Move>)
    ensures var pts := GesturePoints(false, x, y, ms);
      forall i :: 1 <= i < |pts| ==> pts[i].k == StrokeThickness && pts[i].x == ms[i - 1].x as real
  {
    PenWeights(false, x, y, ms);
  }

  /** Point `i` of a gesture (after the first) is move `i - 1` at its weight. */
  lemma {:induction false} PenWeights(isAwesome: bool, x: int, y: int, ms: seq<Move>)
    ensures var pts := GesturePoints(isAwesome, x, y, ms);
      && pts[0] == StrokePoint(x as real, y as real, 1.0)
      && forall i :: 1 <= i < |pts| ==>
           pts[i] == StrokePoint(ms[i - 1].x as real, ms[i - 1].y as real, Thickness(isAwesome, ms[i - 1].dist))
    decreases |ms|
  {
    if |ms| > 0 {
      var init := ms[..|ms| - 1];
      PenWeights(isAwesome, x, y, init);
      var pts := GesturePoints(isAwesome, x, y, ms);
      var before := GesturePoints(isAwesome, x, y, init);
      assert pts == before + [pts[|ms|]];
      forall i | 1 <= i < |pts|
        ensures pts[i] == StrokePoint(ms[i - 1].x as real, ms[i - 1].y as real, Thickness(isAwesome, ms[i - 1].dist))
      {
        if i < |ms| {
          assert pts[i] == before[i];
          assert ms[i - 1] == init[i - 1];
        }
      }
    }
  }

  /**
   * Ending a gesture with the awesome pen draws, after clearing, each
   * stroke's smoothed curves in stroke order; with the plain pen it draws
   * nothing.
   */
  lemma StopRedraws(p: Pad, pen: Option<Pt>)
    ensures p.isAwesome ==> Rendered(Stop(p).cmds, pen) == Drawings(p.curves())
    ensures p.isAwesome ==> Stop(p).cmds[0] == ClearRect
    ensures !p.isAwesome ==> Rendered(Stop(p).cmds, pen) == []
  {
    if p.isAwesome {
      SmoothPathDraws(p.curves(), pen);
    }
  }

  /**
   * A gesture of at most one move records a stroke of at most two points. Its
   * segment is drawn while the pointer moves, but the redraw at pointer-up
   * skips the stroke, so the pointer-up issues exactly what it would have
   * issued without the gesture: with the awesome pen the stroke is wiped.
   */
  lemma ShortGestureWiped(p: Pad, x: int, y: int, ms: seq<Move>)
    requires |ms| <= 1
    ensures var r := Moves(Start(p, x, y).pad, ms);
      && StrokeCount(r.cmds) == |ms|
      && Stop(r.pad).cmds == Stop(p).cmds
    ensures p.isAwesome && (forall j :: 0 <= j < |p.curves()| ==> |p.curves()[j]| <= 2) ==>
      Stop(Moves(Start(p, x, y).pad, ms).pad).cmds == [ClearRect]
  {
    GestureRecordsStroke(p, x, y, ms);
    var c := p.curves();
    var g := GesturePoints(p.isAwesome, x, y, ms);
    assert (c + [g])[..|c|] == c;
    assert AllStrokes(c + [g]) == AllStrokes(c) + StrokeCommands(g);
    assert AllStrokes(c + [g]) == AllStrokes(c);
  }

  /** After `clear`, an awesome redraw only wipes the canvas. */
  lemma ClearThenStopOnlyWipes(p: Pad)
    requires p.isAwesome
    ensures Stop(Clear(p).pad).cmds == [ClearRect]
  {
  }
}
