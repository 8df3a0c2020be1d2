/** The bounding-margin search of `wk/webknossos_annotation.py` (`cal_distance`,
    `find_borders`) over one annotation slice, and what its result means: how many
    empty lines surround the annotation on each side. */
module Borders {
  import opened Wrappers
  import opened Grid
  import opened Sequences

  /** One annotation slice: rows of unsigned labels, 0 meaning unannotated. */
  type Mask = seq<seq<nat>>

  /** `img` is an h-by-w array. */
  predicate IsShape(img: Mask, h: nat, w: nat) {
    |img| == h && forall i :: 0 <= i < h ==> |img[i]| == w
  }

  predicate ZeroRow(row: seq<nat>) {
    forall j :: 0 <= j < |row| ==> row[j] == 0
  }

  predicate ZeroCol(img: Mask, j: int) {
    forall i :: 0 <= i < |img| && 0 <= j < |img[i]| ==> img[i][j] == 0
  }

  predicate AllZero(img: Mask) {
    forall i :: 0 <= i < |img| ==> ZeroRow(img[i])
  }

  /** `np.sum(row)`: zero exactly when the row holds no label. */
  function RowSum(row: seq<nat>): (s: nat)
    ensures s == 0 <==> ZeroRow(row)
  {
    if |row| == 0 then 0 else row[0] + RowSum(row[1..])
  }

  function RowMax(row: seq<nat>): (m: nat)
    ensures forall j :: 0 <= j < |row| ==> row[j] <= m
    ensures m > 0 ==> exists j :: 0 <= j < |row| && row[j] == m
  {
    if |row| == 0 then 0
    else
      var rest := RowMax(row[1..]);
      if row[0] >= rest then row[0] else rest
  }

  /** `np.max(img)`: the largest label; it is 0 exactly when the slice is unannotated. */
  function ImageMax(img: Mask): (m: nat)
    ensures forall i, j :: 0 <= i < |img| && 0 <= j < |img[i]| ==> img[i][j] <= m
    ensures m > 0 ==> exists i, j :: 0 <= i < |img| && 0 <= j < |img[i]| && img[i][j] == m
  {
    if |img| == 0 then 0
    else
      var first, rest := RowMax(img[0]), ImageMax(img[1..]);
      if first >= rest then first
      else
        assert forall i :: 1 <= i < |img| ==> img[i] == img[1..][i - 1];
        rest
  }

  lemma ImageMaxZero(img: Mask)
    ensures ImageMax(img) == 0 <==> AllZero(img)
  {
  }

  /** `cal_distance(img)`: the index of the first row with a positive sum, or the
      number of rows when every row sums to zero. */
  function CalDistance(img: Mask): (d: nat)
    ensures d <= |img|
    ensures forall k :: 0 <= k < d ==> ZeroRow(img[k])
    ensures d < |img| ==> !ZeroRow(img[d])
  {
    if |img| == 0 then 0
    else if RowSum(img[0]) > 0 then 0
    else
      var d := CalDistance(img[1..]);
      assert forall k :: 1 <= k < |img| ==> img[k] == img[1..][k - 1];
      1 + d
  }

  /** `np.rot90(img, k=3)` of an h-by-w array (a quarter turn clockwise): row i is
      column i read from the bottom up. */
  function RotClockwise(img: Mask, w: nat): (r: Mask)
    requires IsShape(img, |img|, w)
    ensures IsShape(r, w, |img|)
    ensures forall i, j :: 0 <= i < w && 0 <= j < |img| ==> r[i][j] == img[|img| - 1 - j][i]
  {
    seq(w, i requires 0 <= i < w => seq(|img|, j requires 0 <= j < |img| => img[|img| - 1 - j][i]))
  }

  /** `np.rot90(img, k=1)` of an h-by-w array (a quarter turn counter-clockwise): row i
      is column w-1-i read from the top down. */
  function RotCounterClockwise(img: Mask, w: nat): (r: Mask)
    requires IsShape(img, |img|, w)
    ensures IsShape(r, w, |img|)
    ensures forall i, j :: 0 <= i < w && 0 <= j < |img| ==> r[i][j] == img[j][w - 1 - i]
  {
    seq(w, i requires 0 <= i < w => seq(|img|, j requires 0 <= j < |img| => img[j][w - 1 - i]))
  }

  // ----- Emptiness profiles: the reference description of the four margins -----

  /** For each row from the top, whether it holds no label. */
  function RowProfile(img: Mask): (e: seq<bool>)
    ensures |e| == |img| && forall i :: 0 <= i < |img| ==> e[i] == ZeroRow(img[i])
  {
    seq(|img|, i requires 0 <= i < |img| => ZeroRow(img[i]))
  }

  /** For each column from the left, whether it holds no label. */
  function ColProfile(img: Mask, w: nat): (e: seq<bool>)
    ensures |e| == w && forall j :: 0 <= j < w ==> e[j] == ZeroCol(img, j)
  {
    seq(w, j requires 0 <= j < w => ZeroCol(img, j))
  }


  /** `v` is the margin `find_borders` reports for an emptiness profile with at least
      one non-empty line: one less than the number of empty lines before the first
      non-empty one, and 0 when there is at most one such line. */
  ghost predicate IsMargin(e: seq<bool>, v: int) {
    && 0 <= v < |e|
    && ((v == 0 && !e[0]) || ((forall k :: 0 <= k <= v ==> e[k]) && v + 1 < |e| && !e[v + 1]))
  }

  /** `bs` are the four borders `[t, b, l, r]` of an annotated h-by-w slice: the
      margins of its top, bottom, left and right emptiness profiles. */
  ghost predicate MarginsOf(img: Mask, w: nat, bs: seq<int>) {
    && |bs| == 4
    && IsMargin(RowProfile(img), bs[0])
    && IsMargin(Reverse(RowProfile(img)), bs[1])
    && IsMargin(ColProfile(img, w), bs[2])
    && IsMargin(Reverse(ColProfile(img, w)), bs[3])
  }

  function Max0(x: int): nat { if x > 0 then x else 0 }

  /** A `cal_distance` result on an array whose row-emptiness is `e` gives, minus one
      and clamped at zero, the margin of `e`. */
  lemma DistanceIsMargin(x: Mask, e: seq<bool>)
    requires |x| == |e| && forall k :: 0 <= k < |e| ==> e[k] == ZeroRow(x[k])
    requires exists k :: 0 <= k < |e| && !e[k]
    ensures IsMargin(e, Max0(CalDistance(x) - 1))
  {
    var d := CalDistance(x);
    var k :| 0 <= k < |e| && !e[k];
    assert d <= k;
  }

  /** The four borders `[t, b, l, r]` of a slice given as an h-by-w array. A zero-size
      array makes `np.max` raise; an unannotated slice gives the sentinel
      `[-1, -1, -1, -1]`; otherwise t, b, l, r are the margins of the top, bottom, left
      and right emptiness profiles. */
  function FindBorders(img: Mask, w: nat): (r: Result<seq<int>>)
    requires IsShape(img, |img|, w)
    ensures r.Err? <==> |img| == 0 || w == 0
    ensures r.Err? ==> r.error == ValueError
    ensures r.Ok? ==> |r.value| == 4
    ensures r.Ok? ==> (r.value == [-1, -1, -1, -1] <==> AllZero(img))
    ensures r.Ok? && !AllZero(img) ==> MarginsOf(img, w, r.value)
  {
    ImageMaxZero(img);
    if |img| == 0 || w == 0 then Err(ValueError)
    else if ImageMax(img) == 0 then
      var sentinel: seq<int> := [-1, -1, -1, -1];
      Ok(sentinel)
    else Ok(AnnotatedBorders(img, w))
  }

  /** The borders of an annotated slice, from four `cal_distance` calls on the slice,
      its row flip and its two quarter turns. */
  function AnnotatedBorders(img: Mask, w: nat): (bs: seq<int>)
    requires IsShape(img, |img|, w) && !AllZero(img)
    ensures MarginsOf(img, w, bs)
    ensures bs[0] >= 0 && bs[1] >= 0 && bs[2] >= 0 && bs[3] >= 0
  {
    FourMargins(img, w);
    Measured(img, w)
  }

  function Measured(img: Mask, w: nat): (m: seq<int>)
    requires IsShape(img, |img|, w)
    ensures |m| == 4 && m[0] >= 0 && m[1] >= 0 && m[2] >= 0 && m[3] >= 0
  {
    [ Max0(CalDistance(img) - 1), Max0(CalDistance(Reverse(img)) - 1),
      Max0(CalDistance(RotClockwise(img, w)) - 1), Max0(CalDistance(RotCounterClockwise(img, w)) - 1) ]
  }

  /** The four `cal_distance` calls of `find_borders` measure the four profiles. */
  lemma FourMargins(img: Mask, w: nat)
    requires IsShape(img, |img|, w) && !AllZero(img)
    ensures MarginsOf(img, w, Measured(img, w))
    ensures IsMargin(RowProfile(img), Max0(CalDistance(img) - 1))
    ensures IsMargin(Reverse(RowProfile(img)), Max0(CalDistance(Reverse(img)) - 1))
    ensures IsMargin(ColProfile(img, w), Max0(CalDistance(RotClockwise(img, w)) - 1))
    ensures IsMargin(Reverse(ColProfile(img, w)), Max0(CalDistance(RotCounterClockwise(img, w)) - 1))
  {
    var i0 :| 0 <= i0 < |img| && !ZeroRow(img[i0]);
    var j0 :| 0 <= j0 < |img[i0]| && img[i0][j0] != 0;
    RowMargins(img, i0);
    ColumnMargins(img, w, i0, j0);
  }

  lemma RowMargins(img: Mask, i0: int)
    requires 0 <= i0 < |img| && !ZeroRow(img[i0])
    ensures IsMargin(RowProfile(img), Max0(CalDistance(img) - 1))
    ensures IsMargin(Reverse(RowProfile(img)), Max0(CalDistance(Reverse(img)) - 1))
  {
    var rows := RowProfile(img);
    assert !rows[i0];
    DistanceIsMargin(img, rows);
    BottomMargin(img, i0);
  }

  lemma BottomMargin(img: Mask, i0: int)
    requires 0 <= i0 < |img| && !ZeroRow(img[i0])
    ensures IsMargin(Reverse(RowProfile(img)), Max0(CalDistance(Reverse(img)) - 1))
  {
    var h, flipped := |img|, Reverse(img);
    var back := Reverse(RowProfile(img));
    assert !back[h - 1 - i0];
    DistanceIsMargin(flipped, back);
  }

  lemma ColumnMargins(img: Mask, w: nat, i0: int, j0: int)
    requires IsShape(img, |img|, w)
    requires 0 <= i0 < |img| && 0 <= j0 < w && img[i0][j0] != 0
    ensures IsMargin(ColProfile(img, w), Max0(CalDistance(RotClockwise(img, w)) - 1))
    ensures IsMargin(Reverse(ColProfile(img, w)), Max0(CalDistance(RotCounterClockwise(img, w)) - 1))
  {
    var cols := ColProfile(img, w);
    assert !cols[j0];
    ClockwiseRows(img, w);
    DistanceIsMargin(RotClockwise(img, w), cols);
    CounterClockwiseRows(img, w);
    assert !Reverse(cols)[w - 1 - j0];
    DistanceIsMargin(RotCounterClockwise(img, w), Reverse(cols));
  }

  /** Row k of the clockwise turn is empty exactly when column k is. */
  lemma ClockwiseRows(img: Mask, w: nat)
    requires IsShape(img, |img|, w)
    ensures forall k :: 0 <= k < w ==> ColProfile(img, w)[k] == ZeroRow(RotClockwise(img, w)[k])
  {
    var h, cw := |img|, RotClockwise(img, w);
    forall k | 0 <= k < w
      ensures ZeroCol(img, k) == ZeroRow(cw[k])
    {
      if !ZeroRow(cw[k]) {
        var j :| 0 <= j < h && cw[k][j] != 0;
        assert img[h - 1 - j][k] != 0;
      }
      if !ZeroCol(img, k) {
        var i :| 0 <= i < h && 0 <= k < |img[i]| && img[i][k] != 0;
        assert cw[k][h - 1 - i] != 0;
      }
    }
  }

  /** Row k of the counter-clockwise turn is empty exactly when column w-1-k is. */
  lemma CounterClockwiseRows(img: Mask, w: nat)
    requires IsShape(img, |img|, w)
    ensures forall k :: 0 <= k < w ==> Reverse(ColProfile(img, w))[k] == ZeroRow(RotCounterClockwise(img, w)[k])
  {
    var h, ccw := |img|, RotCounterClockwise(img, w);
    forall k | 0 <= k < w
      ensures ZeroCol(img, w - 1 - k) == ZeroRow(ccw[k])
    {
      if !ZeroRow(ccw[k]) {
        var j :| 0 <= j < h && ccw[k][j] != 0;
        assert img[j][w - 1 - k] != 0;
      }
      if !ZeroCol(img, w - 1 - k) {
        var i :| 0 <= i < h && 0 <= w - 1 - k < |img[i]| && img[i][w - 1 - k] != 0;
        assert ccw[k][i] != 0;
      }
    }
  }

  /** A non-empty line lies at or after the front margin and before the back margin;
      when the back margin is positive, at least one empty line separates them. */
  lemma {:induction false} LineInsideMargins(e: seq<bool>, front: int, back: int, i: int)
    requires IsMargin(e, front) && IsMargin(Reverse(e), back)
    requires 0 <= i < |e| && !e[i]
    ensures front <= i < |e| - back
    ensures back > 0 ==> i < |e| - back - 1
  {
    var rev := Reverse(e);
    assert !rev[|e| - 1 - i];
  }

  /** Every annotated pixel lies inside the crop that the borders describe:
      rows [t, h - b) and columns [l, w - r); a positive back margin leaves at least
      one empty line after the pixel. */
  lemma AnnotationInsideBorders(img: Mask, w: nat, bs: seq<int>, i: int, j: int)
    requires IsShape(img, |img|, w)
    requires MarginsOf(img, w, bs)
    requires 0 <= i < |img| && 0 <= j < w && img[i][j] != 0
    ensures bs[0] <= i < |img| - bs[1] && bs[2] <= j < w - bs[3]
    ensures bs[1] > 0 ==> i < |img| - bs[1] - 1
    ensures bs[3] > 0 ==> j < w - bs[3] - 1
  {
    var rows, cols := RowProfile(img), ColProfile(img, w);
    assert !rows[i] && !cols[j];
    LineInsideMargins(rows, bs[0], bs[1], i);
    LineInsideMargins(cols, bs[2], bs[3], j);
  }

  /** One axis of the scaled crop: a coarse line i between margins front and back of
      n lines, scaled by s onto a fine extent greater than (n - 1) * s, keeps its fine
      lines [i*s, (i+1)*s), clipped to the extent, inside [front*s, fine - back*s). */
  lemma ScaledLine(n: int, front: int, back: int, i: int, s: nat, fine: int)
    requires 0 <= front <= i < n - back && (back > 0 ==> i < n - back - 1)
    requires s >= 1 && (n - 1) * s < fine
    ensures front * s <= i * s
    ensures Min((i + 1) * s, fine) <= fine - back * s
  {
    MulLeft(front, i, s);
    if back > 0 {
      MulLeft(i + 1 + back, n - 1, s);
      assert (i + 1 + back) * s == (i + 1) * s + back * s;
    }
  }

  /** Scaled to a finer level whose extents round up to this slice's, the crop keeps
      every fine pixel under an annotated coarse pixel (i, j): fine rows [i*s, (i+1)*s)
      and columns [j*s, (j+1)*s), clipped to the level, lie inside rows
      [t*s, H - b*s) and columns [l*s, W - r*s). */
  lemma ScaledCropKeepsAnnotation(img: Mask, w: nat, bs: seq<int>, i: int, j: int, s: nat, fineH: int, fineW: int)
    requires IsShape(img, |img|, w)
    requires MarginsOf(img, w, bs)
    requires 0 <= i < |img| && 0 <= j < w && img[i][j] != 0
    requires s >= 1 && (|img| - 1) * s < fineH && (w - 1) * s < fineW
    ensures bs[0] * s <= i * s && Min((i + 1) * s, fineH) <= fineH - bs[1] * s
    ensures bs[2] * s <= j * s && Min((j + 1) * s, fineW) <= fineW - bs[3] * s
  {
    ScaledCropRows(img, w, bs, i, j, s, fineH);
    ScaledCropCols(img, w, bs, i, j, s, fineW);
  }

  lemma ScaledCropRows(img: Mask, w: nat, bs: seq<int>, i: int, j: int, s: nat, fineH: int)
    requires IsShape(img, |img|, w)
    requires MarginsOf(img, w, bs)
    requires 0 <= i < |img| && 0 <= j < w && img[i][j] != 0
    requires s >= 1 && (|img| - 1) * s < fineH
    ensures bs[0] * s <= i * s && Min((i + 1) * s, fineH) <= fineH - bs[1] * s
  {
    AnnotationInsideBorders(img, w, bs, i, j);
    ScaledLine(|img|, bs[0], bs[1], i, s, fineH);
  }

  lemma ScaledCropCols(img: Mask, w: nat, bs: seq<int>, i: int, j: int, s: nat, fineW: int)
    requires IsShape(img, |img|, w)
    requires MarginsOf(img, w, bs)
    requires 0 <= i < |img| && 0 <= j < w && img[i][j] != 0
    requires s >= 1 && (w - 1) * s < fineW
    ensures bs[2] * s <= j * s && Min((j + 1) * s, fineW) <= fineW - bs[3] * s
  {
    AnnotationInsideBorders(img, w, bs, i, j);
    ScaledLine(w, bs[2], bs[3], j, s, fineW);
  }
}
