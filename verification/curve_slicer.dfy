/**
 * Quadratic Bezier curves and the de Casteljau splits used by the signature pad
 * to cut one smoothing curve into several sub-curves.
 *
 * The JavaScript keeps a curve as a six-number array `[sx, sy, cx, cy, ex, ey]`
 * and mutates it in place; here a curve is an immutable `Quad` and every split
 * returns the new curve.
 */
module CurveSlicer {

  datatype Pt = Pt(x: real, y: real)

  /** A quadratic Bezier curve: start point, control point, end point. */
  datatype Quad = Quad(start: Pt, ctrl: Pt, stop: Pt)

  /** As `a + (b - a) * t`, one coordinate at a time. */
  function Lerp(a: Pt, b: Pt, t: real): Pt {
    Pt(a.x + (b.x - a.x) * t, a.y + (b.y - a.y) * t)
  }

  /** The quadratic Bernstein polynomial with coefficients `s`, `c`, `e`. */
  function Bernstein(s: real, c: real, e: real, t: real): real {
    (1.0 - t) * (1.0 - t) * s + 2.0 * t * (1.0 - t) * c + t * t * e
  }

  /** The point of curve `q` at parameter `t` (the reference definition of the curve). */
  function At(q: Quad, t: real): Pt {
    Pt(Bernstein(q.start.x, q.ctrl.x, q.stop.x, t), Bernstein(q.start.y, q.ctrl.y, q.stop.y, t))
  }

  lemma AtZeroAndOne(q: Quad)
    ensures At(q, 0.0) == q.start
    ensures At(q, 1.0) == q.stop
  {
  }

  /** One step of de Casteljau's construction lands on the curve. */
  lemma DeCasteljau(q: Quad, t: real)
    ensures Lerp(Lerp(q.start, q.ctrl, t), Lerp(q.ctrl, q.stop, t), t) == At(q, t)
  {
    DeCasteljauScalar(q.start.x, q.ctrl.x, q.stop.x, t);
    DeCasteljauScalar(q.start.y, q.ctrl.y, q.stop.y, t);
  }

  lemma DeCasteljauScalar(s: real, c: real, e: real, t: real)
    ensures (s + (c - s) * t) + ((c + (e - c) * t) - (s + (c - s) * t)) * t
         == (1.0 - t) * (1.0 - t) * s + 2.0 * t * (1.0 - t) * c + t * t * e
  {
  }

  /**
   * `curveSliceUpTo`: the part of `q` over parameters `[0, t]`.
   * When `t == 1` the curve is returned untouched.
   */
  function SliceUpTo(q: Quad, t: real): (r: Quad)
    ensures r.start == q.start
    ensures t == 1.0 ==> r == q
  {
    if t != 1.0 then
      var m := Lerp(q.ctrl, q.stop, t);
      var c := Lerp(q.start, q.ctrl, t);
      Quad(q.start, c, Lerp(c, m, t))
    else
      q
  }

  /**
   * `curveSliceFrom`: the part of `q` over parameters `[t, 1]`.
   * When `t == 1` the curve is returned untouched (whole, not shrunk to its end point).
   */
  function SliceFrom(q: Quad, t: real): (r: Quad)
    ensures r.stop == q.stop
    ensures t == 1.0 ==> r == q
  {
    if t != 1.0 then
      var m := Lerp(q.start, q.ctrl, t);
      var c := Lerp(q.ctrl, q.stop, t);
      Quad(Lerp(m, c, t), c, q.stop)
    else
      q
  }

  /** The slice up to `t` ends on the curve at `t`. */
  lemma UpToEnds(q: Quad, t: real)
    ensures SliceUpTo(q, t).stop == At(q, t)
  {
    DeCasteljau(q, t);
    AtZeroAndOne(q);
  }

  /** Unless `t == 1`, the slice from `t` starts on the curve at `t`. */
  lemma FromEnds(q: Quad, t: real)
    requires t != 1.0
    ensures SliceFrom(q, t).start == At(q, t)
  {
    DeCasteljau(q, t);
  }

  /** At `t == 1` the slice from `t` is the whole curve, so it does not start at the curve's end. */
  lemma FromOneKeepsWholeCurve(q: Quad)
    requires q.start != q.stop
    ensures SliceFrom(q, 1.0).start != At(q, 1.0)
  {
    AtZeroAndOne(q);
  }

  /**
   * `curveSlice`: the part of `q` over parameters `[t1, t2]`. The general case
   * first cuts at `t2` and then cuts the result at `t1 / t2`, so `t2` must not be
   * zero there.
   */
  function Slice(q: Quad, t1: real, t2: real): (r: Quad)
    requires t1 == 0.0 || t2 != 0.0
    ensures t1 == 0.0 ==> r.start == q.start
    ensures t2 == 1.0 ==> r.stop == q.stop
    ensures t1 == 0.0 && t2 == 1.0 ==> r == q
  {
    if t1 == 0.0 then
      SliceUpTo(q, t2)
    else if t2 == 1.0 then
      SliceFrom(q, t1)
    else
      SliceFrom(SliceUpTo(q, t2), t1 / t2)
  }

  /**
   * A slice between two increasing parameters starts and stops on the curve at
   * those parameters.
   */
  lemma SliceEnds(q: Quad, t1: real, t2: real)
    requires 0.0 <= t1 < t2
    ensures Slice(q, t1, t2).start == At(q, t1)
    ensures Slice(q, t1, t2).stop == At(q, t2)
  {
    var r := Slice(q, t1, t2);
    AtZeroAndOne(r);
    SliceReparam(q, t1, t2, 0.0);
    SliceReparam(q, t1, t2, 1.0);
    assert t1 + (t2 - t1) * 0.0 == t1;
    assert t1 + (t2 - t1) * 1.0 == t2;
  }

  /** The slice up to `t`, followed at `u`, is the original curve at `t * u`. */
  lemma UpToReparam(q: Quad, t: real, u: real)
    ensures At(SliceUpTo(q, t), u) == At(q, t * u)
  {
    if t != 1.0 {
      UpToShape(q, t);
      var r := Quad(q.start, Lerp(q.start, q.ctrl, t), At(q, t));
      UpToReparamX(q, t, u);
      UpToReparamY(q, t, u);
      assert At(r, u) == At(q, t * u);
    }
  }

  lemma UpToReparamX(q: Quad, t: real, u: real)
    ensures At(Quad(q.start, Lerp(q.start, q.ctrl, t), At(q, t)), u).x == At(q, t * u).x
  {
    var (s, c, e) := (q.start, q.ctrl, q.stop);
    calc {
      At(Quad(s, Lerp(s, c, t), At(q, t)), u).x;
      Bernstein(s.x, Lerp(s, c, t).x, At(q, t).x, u);
      Bernstein(s.x, s.x + (c.x - s.x) * t, Bernstein(s.x, c.x, e.x, t), u);
      { UpToBernstein(s.x, c.x, e.x, t, u); }
      Bernstein(s.x, c.x, e.x, t * u);
    }
  }

  lemma UpToReparamY(q: Quad, t: real, u: real)
    ensures At(Quad(q.start, Lerp(q.start, q.ctrl, t), At(q, t)), u).y == At(q, t * u).y
  {
    var (s, c, e) := (q.start, q.ctrl, q.stop);
    calc {
      At(Quad(s, Lerp(s, c, t), At(q, t)), u).y;
      Bernstein(s.y, Lerp(s, c, t).y, At(q, t).y, u);
      Bernstein(s.y, s.y + (c.y - s.y) * t, Bernstein(s.y, c.y, e.y, t), u);
      { UpToBernstein(s.y, c.y, e.y, t, u); }
      Bernstein(s.y, c.y, e.y, t * u);
    }
  }

  lemma UpToShape(q: Quad, t: real)
    requires t != 1.0
    ensures SliceUpTo(q, t) == Quad(q.start, Lerp(q.start, q.ctrl, t), At(q, t))
  {
  }

  /**
   * For `t != 1`, the slice from `t`, followed at `u`, is the original curve at
   * `t + (1 - t) * u`.
   */
  lemma FromReparam(q: Quad, t: real, u: real)
    requires t != 1.0
    ensures At(SliceFrom(q, t), u) == At(q, t + (1.0 - t) * u)
  {
    FromShape(q, t);
    var r := Quad(At(q, t), Lerp(q.ctrl, q.stop, t), q.stop);
    FromReparamX(q, t, u);
    FromReparamY(q, t, u);
    assert At(r, u) == At(q, t + (1.0 - t) * u);
  }

  lemma FromReparamX(q: Quad, t: real, u: real)
    ensures At(Quad(At(q, t), Lerp(q.ctrl, q.stop, t), q.stop), u).x == At(q, t + (1.0 - t) * u).x
  {
    var (s, c, e) := (q.start, q.ctrl, q.stop);
    calc {
      At(Quad(At(q, t), Lerp(c, e, t), e), u).x;
      Bernstein(At(q, t).x, Lerp(c, e, t).x, e.x, u);
      Bernstein(Bernstein(s.x, c.x, e.x, t), c.x + (e.x - c.x) * t, e.x, u);
      { FromBernstein(s.x, c.x, e.x, t, u); }
      Bernstein(s.x, c.x, e.x, t + (1.0 - t) * u);
    }
  }

  lemma FromReparamY(q: Quad, t: real, u: real)
    ensures At(Quad(At(q, t), Lerp(q.ctrl, q.stop, t), q.stop), u).y == At(q, t + (1.0 - t) * u).y
  {
    var (s, c, e) := (q.start, q.ctrl, q.stop);
    calc {
      At(Quad(At(q, t), Lerp(c, e, t), e), u).y;
      Bernstein(At(q, t).y, Lerp(c, e, t).y, e.y, u);
      Bernstein(Bernstein(s.y, c.y, e.y, t), c.y + (e.y - c.y) * t, e.y, u);
      { FromBernstein(s.y, c.y, e.y, t, u); }
      Bernstein(s.y, c.y, e.y, t + (1.0 - t) * u);
    }
  }

  lemma FromShape(q: Quad, t: real)
    requires t != 1.0
    ensures SliceFrom(q, t) == Quad(At(q, t), Lerp(q.ctrl, q.stop, t), q.stop)
  {
  }

  /**
   * Whenever the two cut points differ (or the slice starts at 0), the slice
   * traced at `u` is the original curve at `t1 + (t2 - t1) * u`: it is exactly
   * the piece of `q` between `t1` and `t2`.
   */
  lemma SliceReparam(q: Quad, t1: real, t2: real, u: real)
    requires t1 == 0.0 || (t2 != 0.0 && t1 != t2)
    ensures At(Slice(q, t1, t2), u) == At(q, t1 + (t2 - t1) * u)
  {
    if t1 == 0.0 {
      UpToReparam(q, t2, u);
    } else if t2 == 1.0 {
      FromReparam(q, t1, u);
    } else {
      var v := t1 / t2;
      assert v != 1.0 by {
        if v == 1.0 {
          assert t1 == v * t2;
        }
      }
      var w := v + (1.0 - v) * u;
      assert Slice(q, t1, t2) == SliceFrom(SliceUpTo(q, t2), v);
      FromReparam(SliceUpTo(q, t2), v, u);
      UpToReparam(q, t2, w);
      calc {
        t2 * w;
        t2 * v + (t2 - t2 * v) * u;
        { assert t2 * v == t1; }
        t1 + (t2 - t1) * u;
      }
      assert At(q, t2 * w) == At(q, t1 + (t2 - t1) * u);
    }
  }

  lemma UpToBernstein(s: real, c: real, e: real, t: real, u: real)
    ensures Bernstein(s, s + (c - s) * t, Bernstein(s, c, e, t), u) == Bernstein(s, c, e, t * u)
  {
    UpToReparamScalar(s, c, e, t, u);
  }

  lemma FromBernstein(s: real, c: real, e: real, t: real, u: real)
    ensures Bernstein(Bernstein(s, c, e, t), c + (e - c) * t, e, u) == Bernstein(s, c, e, t + (1.0 - t) * u)
  {
    FromReparamScalar(s, c, e, t, u);
  }

  /**
   * `Bernstein(s, s + (c - s) * t, Bernstein(s, c, e, t), u) == Bernstein(s, c,
   * e, t * u)`, expanded.
   */
  lemma UpToReparamScalar(s: real, c: real, e: real, t: real, u: real)
    ensures (1.0 - u) * (1.0 - u) * s + 2.0 * u * (1.0 - u) * (s + (c - s) * t)
              + u * u * ((1.0 - t) * (1.0 - t) * s + 2.0 * t * (1.0 - t) * c + t * t * e)
         == (1.0 - t * u) * (1.0 - t * u) * s + 2.0 * (t * u) * (1.0 - t * u) * c + (t * u) * (t * u) * e
  {
  }

  /**
   * `Bernstein(Bernstein(s, c, e, t), c + (e - c) * t, e, u) == Bernstein(s, c,
   * e, t + (1 - t) * u)`, expanded.
   */
  lemma FromReparamScalar(s: real, c: real, e: real, t: real, u: real)
    ensures (1.0 - u) * (1.0 - u) * ((1.0 - t) * (1.0 - t) * s + 2.0 * t * (1.0 - t) * c + t * t * e)
              + 2.0 * u * (1.0 - u) * (c + (e - c) * t) + u * u * e
         == (1.0 - (t + (1.0 - t) * u)) * (1.0 - (t + (1.0 - t) * u)) * s
              + 2.0 * (t + (1.0 - t) * u) * (1.0 - (t + (1.0 - t) * u)) * c
              + (t + (1.0 - t) * u) * (t + (1.0 - t) * u) * e
  {
  }
}
