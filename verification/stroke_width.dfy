/**
 * The "awesome pen" width model: a normalised pointer travel distance is looked
 * up in a tolerance table; the last entry whose tolerance covers the distance
 * gives the width, 3 when none does, and the result is scaled by the pad's
 * thickness multiplier.
 */
module StrokeWidth {

  /** One row of the width table: distances up to `tol` may use `width`. */
  datatype StrokeEntry = StrokeEntry(tol: real, width: real)

  /** The width used when no table entry covers the distance. */
  const DefaultWidth: real := 3.0

  /** The pad's `strokeThicknessMultiplier`. */
  const StrokeThicknessMultiplier: real := 1.35

  /** The pad's shipped table, coarse tolerances (thin lines) first. */
  const Strokes: seq<StrokeEntry> := [
    StrokeEntry(0.350, 0.81),
    StrokeEntry(0.300, 0.83),
    StrokeEntry(0.250, 0.86),
    StrokeEntry(0.200, 0.9),
    StrokeEntry(0.150, 0.93),
    StrokeEntry(0.100, 0.96),
    StrokeEntry(0.095, 0.99),
    StrokeEntry(0.090, 1.3),
    StrokeEntry(0.085, 1.4),
    StrokeEntry(0.080, 1.6),
    StrokeEntry(0.075, 1.8),
    StrokeEntry(0.070, 1.9),
    StrokeEntry(0.065, 2.1),
    StrokeEntry(0.060, 2.3),
    StrokeEntry(0.055, 2.5),
    StrokeEntry(0.050, 2.7),
    StrokeEntry(0.045, 2.9),
    StrokeEntry(0.040, 3.1),
    StrokeEntry(0.035, 3.3),
    StrokeEntry(0.030, 3.5),
    StrokeEntry(0.025, 3.7),
    StrokeEntry(0.020, 3.9),
    StrokeEntry(0.015, 4.1),
    StrokeEntry(0.010, 4.3),
    StrokeEntry(0.005, 4.5),
    StrokeEntry(0.001, 4.7)
  ]

  /** Entry `j` covers `d` and no later entry does. */
  ghost predicate IsLastMatch(table: seq<StrokeEntry>, d: real, j: int) {
    && 0 <= j < |table|
    && d <= table[j].tol
    && forall k :: j < k < |table| ==> table[k].tol < d
  }

  /** No entry at or after `i` covers `d`. */
  ghost predicate NoMatchFrom(table: seq<StrokeEntry>, d: real, i: nat) {
    forall k :: i <= k < |table| ==> table[k].tol < d
  }

  /**
   * The loop of `calcStrokeWidth` from index `i` on, with `acc` the width chosen
   * so far: every covering entry overwrites the choice.
   */
  function Scan(table: seq<StrokeEntry>, d: real, i: nat, acc: real): (w: real)
    requires i <= |table|
    decreases |table| - i
    ensures !NoMatchFrom(table, d, i) ==> exists j :: i <= j && IsLastMatch(table, d, j) && w == table[j].width
    ensures NoMatchFrom(table, d, i) ==> w == acc
  {
    if i == |table| then acc
    else Scan(table, d, i + 1, if d <= table[i].tol then table[i].width else acc)
  }

  /** `calcStrokeWidth`, for any table and multiplier. */
  function CalcStrokeWidth(table: seq<StrokeEntry>, multiplier: real, d: real): (w: real)
    ensures !NoMatchFrom(table, d, 0) ==>
      exists j {:trigger IsLastMatch(table, d, j)} :: IsLastMatch(table, d, j) && w == multiplier * table[j].width
    ensures NoMatchFrom(table, d, 0) ==> w == multiplier * DefaultWidth
  {
    multiplier * Scan(table, d, 0, DefaultWidth)
  }

  /** The width the pad itself uses: shipped table, shipped multiplier. */
  function PadStrokeWidth(d: real): real {
    CalcStrokeWidth(Strokes, StrokeThicknessMultiplier, d)
  }

  /** Tolerances strictly decrease down the table. */
  ghost predicate Descending(table: seq<StrokeEntry>) {
    forall i, j :: 0 <= i < j < |table| ==> table[i].tol > table[j].tol
  }

  /** Widths strictly increase down the table. */
  ghost predicate Ascending(table: seq<StrokeEntry>) {
    forall i, j :: 0 <= i < j < |table| ==> table[i].width < table[j].width
  }

  /** Each entry against the next one only. */
  ghost predicate NeighboursOrdered(table: seq<StrokeEntry>) {
    forall i :: 0 <= i < |table| - 1 ==> table[i].tol > table[i + 1].tol && table[i].width < table[i + 1].width
  }

  /** Neighbouring order extends to every pair of entries. */
  lemma {:induction false} NeighboursToPairs(table: seq<StrokeEntry>, i: int, j: int)
    requires NeighboursOrdered(table)
    requires 0 <= i < j < |table|
    ensures table[i].tol > table[j].tol && table[i].width < table[j].width
    decreases j - i
  {
    if j > i + 1 {
      NeighboursToPairs(table, i + 1, j);
    }
  }

  lemma ShippedTableShape()
    ensures Descending(Strokes)
    ensures Ascending(Strokes)
    ensures |Strokes| == 26
  {
    forall i | 0 <= i < |Strokes| - 1
      ensures Strokes[i].tol > Strokes[i + 1].tol && Strokes[i].width < Strokes[i + 1].width
    {
      if i < 13 {
        assert i in {0, 1, 2, 3, 4, 5, 6, 7, 8, 9, 10, 11, 12};
      } else {
        assert i in {13, 14, 15, 16, 17, 18, 19, 20, 21, 22, 23, 24};
      }
    }
    assert NeighboursOrdered(Strokes);
    forall i, j | 0 <= i < j < |Strokes|
      ensures Strokes[i].tol > Strokes[j].tol && Strokes[i].width < Strokes[j].width
    {
      NeighboursToPairs(Strokes, i, j);
    }
  }

  /** At most one entry is the last covering one. */
  lemma LastMatchUnique(table: seq<StrokeEntry>, d: real, j: int, j': int)
    requires IsLastMatch(table, d, j) && IsLastMatch(table, d, j')
    ensures j == j'
  {
  }

  /** The scan's result is the width of the last covering entry. */
  lemma ScanPicksLastMatch(table: seq<StrokeEntry>, d: real, j: int)
    requires IsLastMatch(table, d, j)
    ensures Scan(table, d, 0, DefaultWidth) == table[j].width
  {
    assert !NoMatchFrom(table, d, 0);
    var j' :| IsLastMatch(table, d, j') && Scan(table, d, 0, DefaultWidth) == table[j'].width;
    LastMatchUnique(table, d, j, j');
  }

  /** Some entry is the last covering one as soon as any entry covers the distance. */
  lemma {:induction false} LastMatchExists(table: seq<StrokeEntry>, d: real, k: int) returns (j: int)
    requires 0 <= k < |table| && d <= table[k].tol
    ensures IsLastMatch(table, d, j) && k <= j
    decreases |table| - k
  {
    if exists k' :: k < k' < |table| && d <= table[k'].tol {
      var k' :| k < k' < |table| && d <= table[k'].tol;
      j := LastMatchExists(table, d, k');
    } else {
      j := k;
    }
  }

  /**
   * With tolerances in descending order, the last covering entry is the one
   * with the smallest tolerance that still covers the distance.
   */
  lemma SmallestCoveringTolWins(table: seq<StrokeEntry>, multiplier: real, d: real, k: int)
    requires Descending(table)
    requires 0 <= k < |table| && d <= table[k].tol
    ensures exists j :: && 0 <= j < |table| && d <= table[j].tol
                        && (forall k' :: 0 <= k' < |table| && d <= table[k'].tol ==> table[j].tol <= table[k'].tol)
                        && CalcStrokeWidth(table, multiplier, d) == multiplier * table[j].width
  {
    var j := LastMatchExists(table, d, k);
    ScanPicksLastMatch(table, d, j);
    forall k' | 0 <= k' < |table| && d <= table[k'].tol
      ensures table[j].tol <= table[k'].tol
    {
    }
  }

  /** A distance beyond the coarsest tolerance falls back to the default width. */
  lemma BeyondCoarsestIsDefault(d: real)
    requires d > 0.350
    ensures PadStrokeWidth(d) == DefaultWidth * StrokeThicknessMultiplier
  {
    ShippedTableShape();
    assert NoMatchFrom(Strokes, d, 0);
  }

  /**
   * With descending tolerances and ascending widths, a larger distance (still
   * within the coarsest tolerance) never gets a wider line.
   */
  lemma WidthNonIncreasing(table: seq<StrokeEntry>, d1: real, d2: real)
    requires Ascending(table)
    requires |table| > 0
    requires d1 <= d2 <= table[0].tol
    ensures CalcStrokeWidth(table, StrokeThicknessMultiplier, d2)
      <= CalcStrokeWidth(table, StrokeThicknessMultiplier, d1)
  {
    LookupNonIncreasing(table, d1, d2);
  }

  /** The pad's own width never grows with the distance up to the coarsest tolerance. */
  lemma PadWidthNonIncreasing(d1: real, d2: real)
    requires d1 <= d2 <= 0.350
    ensures PadStrokeWidth(d2) <= PadStrokeWidth(d1)
  {
    ShippedTableShape();
    WidthNonIncreasing(Strokes, d1, d2);
  }

  /**
   * Every width the pad produces lies between the thinnest and the thickest
   * table entry, scaled.
   */
  lemma PadWidthRange(d: real)
    ensures 0.81 * StrokeThicknessMultiplier <= PadStrokeWidth(d) <= 4.7 * StrokeThicknessMultiplier
  {
    ShippedWidths();
    ScanWithin(Strokes, d, 0, DefaultWidth, 0.81, 4.7);
  }

  /** The shipped widths run from 0.81 to 4.7. */
  lemma ShippedWidths()
    ensures forall k :: 0 <= k < |Strokes| ==> 0.81 <= Strokes[k].width <= 4.7
  {
    ShippedTableShape();
    forall k | 0 <= k < |Strokes|
      ensures 0.81 <= Strokes[k].width <= 4.7
    {
      if k > 0 {
        assert Strokes[0].width < Strokes[k].width;
      }
      if k < 25 {
        assert Strokes[k].width < Strokes[25].width;
      }
    }
  }

  /**
   * The scan only ever picks the running choice or a table width, so it stays
   * within bounds of both.
   */
  lemma {:induction false} ScanWithin(table: seq<StrokeEntry>, d: real, i: nat, acc: real, lo: real, hi: real)
    requires i <= |table|
    requires forall k :: 0 <= k < |table| ==> lo <= table[k].width <= hi
    requires lo <= acc <= hi
    ensures lo <= Scan(table, d, i, acc) <= hi
    decreases |table| - i
  {
    if i < |table| {
      ScanWithin(table, d, i + 1, if d <= table[i].tol then table[i].width else acc, lo, hi);
    }
  }

  lemma LookupNonIncreasing(table: seq<StrokeEntry>, d1: real, d2: real)
    requires Ascending(table)
    requires |table| > 0
    requires d1 <= d2 <= table[0].tol
    ensures Scan(table, d2, 0, DefaultWidth) <= Scan(table, d1, 0, DefaultWidth)
  {
    var j1 := LastMatchExists(table, d1, 0);
    var j2 := LastMatchExists(table, d2, 0);
    ScanPicksLastMatch(table, d1, j1);
    ScanPicksLastMatch(table, d2, j2);
    if j2 < j1 {
      assert table[j2].width < table[j1].width;
    }
  }

  /** The pad's width drops to its thinnest at 0.350 and jumps back to the default just beyond. */
  lemma WidthJumpsPastCoarsest()
    ensures PadStrokeWidth(0.350) == 0.81 * StrokeThicknessMultiplier
    ensures PadStrokeWidth(0.351) == DefaultWidth * StrokeThicknessMultiplier
    ensures PadStrokeWidth(0.350) < PadStrokeWidth(0.351)
  {
    ShippedTableShape();
    assert IsLastMatch(Strokes, 0.350, 0);
    ScanPicksLastMatch(Strokes, 0.350, 0);
    BeyondCoarsestIsDefault(0.351);
  }

  /**
   * The lookup keeps the last covering entry, so its result depends on the
   * table's order: on a table in ascending tolerance order the last covering
   * entry is the coarsest one, and a small distance does not get the first row.
   */
  lemma AscendingTableScenario()
    ensures CalcStrokeWidth([StrokeEntry(0.1, 2.0), StrokeEntry(0.2, 4.0)], 1.0, 0.05) == 4.0
    ensures CalcStrokeWidth([StrokeEntry(0.1, 2.0), StrokeEntry(0.2, 4.0)], 1.0, 0.15) == 4.0
    ensures CalcStrokeWidth([StrokeEntry(0.1, 2.0), StrokeEntry(0.2, 4.0)], 1.0, 0.5) == DefaultWidth
  {
  }
}
