/**
 * The 2D drawing context, seen only through the commands issued to it. A
 * replay of a command trace recovers the quadratic curves it draws, using the
 * canvas rule that a curve starts at the current pen position (or, with no
 * current sub-path, at its own control point).
 */
module Canvas {
  import opened Wrappers
  import opened CurveSlicer

  datatype Cmd =
    | BeginPath
    | MoveTo(to: Pt)
    | LineTo(to: Pt)
    | QuadTo(ctrl: Pt, to: Pt)
    | LineWidth(w: real)
    | Stroke
    | ClearRect
    | StrokeStyle(color: string)
    | LineCapRound

  /** Number of `stroke()` calls in a trace. */
  function StrokeCount(cmds: seq<Cmd>): nat {
    if |cmds| == 0 then 0
    else (if cmds[0].Stroke? then 1 else 0) + StrokeCount(cmds[1..])
  }

  /** The pen position after one command; `None` when there is no current sub-path. */
  function PenStep(c: Cmd, pen: Option<Pt>): Option<Pt> {
    match c
    case BeginPath => None
    case MoveTo(p) => Some(p)
    case LineTo(p) => Some(p)
    case QuadTo(_, e) => Some(e)
    case _ => pen
  }

  function PenAfter(cmds: seq<Cmd>, pen: Option<Pt>): Option<Pt>
    decreases |cmds|
  {
    if |cmds| == 0 then pen else PenAfter(cmds[1..], PenStep(cmds[0], pen))
  }

  /** The quadratic curves a trace adds to the canvas paths, in order. */
  function Rendered(cmds: seq<Cmd>, pen: Option<Pt>): seq<Quad>
    decreases |cmds|
  {
    if |cmds| == 0 then []
    else
      var drawn := match cmds[0]
        case QuadTo(c, e) => [Quad(if pen.Some? then pen.value else c, c, e)]
        case _ => [];
      drawn + Rendered(cmds[1..], PenStep(cmds[0], pen))
  }

  lemma {:induction false} StrokeCountAppend(a: seq<Cmd>, b: seq<Cmd>)
    ensures StrokeCount(a + b) == StrokeCount(a) + StrokeCount(b)
    decreases |a|
  {
    if |a| > 0 {
      assert (a + b)[1..] == a[1..] + b;
      StrokeCountAppend(a[1..], b);
    } else {
      assert a + b == b;
    }
  }

  /** Replaying a concatenation replays the second part from where the first left the pen. */
  lemma {:induction false} ReplayAppend(a: seq<Cmd>, b: seq<Cmd>, pen: Option<Pt>)
    ensures Rendered(a + b, pen) == Rendered(a, pen) + Rendered(b, PenAfter(a, pen))
    ensures PenAfter(a + b, pen) == PenAfter(b, PenAfter(a, pen))
    decreases |a|
  {
    if |a| > 0 {
      assert (a + b)[0] == a[0];
      assert (a + b)[1..] == a[1..] + b;
      ReplayAppend(a[1..], b, PenStep(a[0], pen));
    } else {
      assert a + b == b;
    }
  }
}
