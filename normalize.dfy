/** Min-max normalisation of one numeric table column, with the NaN
    behaviour of a pandas float column. */
module Normalization {

  /** One entry of a numeric column: a number, or NaN (a missing or
      undefined value). */
  datatype Cell = Num(value: real) | NaN

  /** The smallest number in the column, skipping NaN entries as pandas'
      `min` does; NaN when the column holds no number at all. */
  function NumMin(col: seq<Cell>): (m: Cell)
    ensures m.NaN? <==> forall i :: 0 <= i < |col| ==> col[i].NaN?
    ensures m.Num? ==> exists i :: 0 <= i < |col| && col[i] == m
    ensures m.Num? ==> forall i :: 0 <= i < |col| && col[i].Num? ==> m.value <= col[i].value
  {
    if |col| == 0 then NaN
    else
      var rest := NumMin(col[..|col| - 1]);
      match col[|col| - 1]
      case NaN => rest
      case Num(x) => if rest.NaN? || x < rest.value then Num(x) else rest
  }

  /** The largest number in the column, skipping NaN entries as pandas'
      `max` does; NaN when the column holds no number at all. */
  function NumMax(col: seq<Cell>): (m: Cell)
    ensures m.NaN? <==> forall i :: 0 <= i < |col| ==> col[i].NaN?
    ensures m.Num? ==> exists i :: 0 <= i < |col| && col[i] == m
    ensures m.Num? ==> forall i :: 0 <= i < |col| && col[i].Num? ==> col[i].value <= m.value
  {
    if |col| == 0 then NaN
    else
      var rest := NumMax(col[..|col| - 1]);
      match col[|col| - 1]
      case NaN => rest
      case Num(x) => if rest.NaN? || x > rest.value then Num(x) else rest
  }

  /** The column holds two different numbers, so that `max - min` is not zero. */
  predicate HasSpread(col: seq<Cell>) {
    NumMin(col).Num? && NumMin(col).value < NumMax(col).value
  }

  /** The linear map that sends `lo` to 0 and `hi` to 1. */
  function Scale(x: real, lo: real, hi: real): (y: real)
    requires lo <= x <= hi && lo < hi
    ensures 0.0 <= y <= 1.0
    ensures y == 0.0 <==> x == lo
    ensures y == 1.0 <==> x == hi
  {
    QuotientBounds(x - lo, hi - lo);
    (x - lo) / (hi - lo)
  }

  /** A quotient `n / d` with `0 <= n <= d` lies in [0, 1], and it is 0 or 1
      exactly when `n` is 0 or `d`. */
  lemma QuotientBounds(n: real, d: real)
    requires d > 0.0 && 0.0 <= n <= d
    ensures 0.0 <= n / d <= 1.0
    ensures n / d == 0.0 <==> n == 0.0
    ensures n / d == 1.0 <==> n == d
  {
    var q := n / d;
    assert q * d == n;
    assert (q - 1.0) * d == n - d;
    ProductSign(q, d);
    ProductSign(q - 1.0, d);
  }

  /** Multiplying by a positive number keeps the sign. */
  lemma ProductSign(a: real, d: real)
    requires d > 0.0
    ensures a * d >= 0.0 ==> a >= 0.0
    ensures a * d <= 0.0 ==> a <= 0.0
  {
  }

  /** `normalize_column`: every number becomes `(x - min) / (max - min)`
      over the whole column. When the column has no spread every
      entry becomes NaN: a constant column divides 0 by 0, which in a pandas
      float column yields NaN, and a NaN entry stays NaN. */
  function NormalizeColumn(col: seq<Cell>): (r: seq<Cell>)
    ensures |r| == |col|
    ensures forall i :: 0 <= i < |col| ==> (r[i].Num? <==> col[i].Num? && HasSpread(col))
    ensures forall i :: 0 <= i < |col| && r[i].Num? ==> 0.0 <= r[i].value <= 1.0
    ensures forall i :: 0 <= i < |col| && r[i].Num? ==> (r[i].value == 0.0 <==> col[i] == NumMin(col))
    ensures forall i :: 0 <= i < |col| && r[i].Num? ==> (r[i].value == 1.0 <==> col[i] == NumMax(col))
  {
    if HasSpread(col) then
      var lo, hi := NumMin(col).value, NumMax(col).value;
      seq(|col|, i requires 0 <= i < |col| =>
        match col[i]
        case Num(x) => Num(Scale(x, lo, hi))
        case NaN => NaN)
    else
      seq(|col|, i => NaN)
  }

  /** A column has spread exactly when two of its numbers differ. */
  lemma HasSpreadIff(col: seq<Cell>)
    ensures HasSpread(col) <==>
      exists i, j :: 0 <= i < |col| && 0 <= j < |col| && col[i].Num? && col[j].Num? && col[i].value < col[j].value
  {
    if HasSpread(col) {
      var i :| 0 <= i < |col| && col[i] == NumMin(col);
      var j :| 0 <= j < |col| && col[j] == NumMax(col);
      assert col[i].value < col[j].value;
    }
  }

  /** With spread, some row normalises to exactly 0 and some row to exactly 1. */
  lemma NormalizeReachesBothEnds(col: seq<Cell>)
    requires HasSpread(col)
    ensures exists i :: 0 <= i < |col| && NormalizeColumn(col)[i] == Num(0.0)
    ensures exists j :: 0 <= j < |col| && NormalizeColumn(col)[j] == Num(1.0)
  {
    var i :| 0 <= i < |col| && col[i] == NumMin(col);
    var j :| 0 <= j < |col| && col[j] == NumMax(col);
    assert NormalizeColumn(col)[i] == Num(0.0);
    assert NormalizeColumn(col)[j] == Num(1.0);
  }

  /** Normalisation keeps the order of the numbers, in both directions. */
  lemma NormalizePreservesOrder(col: seq<Cell>, i: nat, j: nat)
    requires i < |col| && j < |col| && col[i].Num? && col[j].Num? && HasSpread(col)
    ensures NormalizeColumn(col)[i].Num? && NormalizeColumn(col)[j].Num?
    ensures col[i].value <= col[j].value <==> NormalizeColumn(col)[i].value <= NormalizeColumn(col)[j].value
  {
    var lo, hi := NumMin(col).value, NumMax(col).value;
    ScaleMonotone(col[i].value, col[j].value, lo, hi);
  }

  lemma ScaleMonotone(x: real, x': real, lo: real, hi: real)
    requires lo <= x <= hi && lo <= x' <= hi && lo < hi
    ensures x <= x' <==> Scale(x, lo, hi) <= Scale(x', lo, hi)
  {
    var d := hi - lo;
    assert Scale(x', lo, hi) - Scale(x, lo, hi) == (x' - x) / d;
  }

  /** The minimum of a column is any number in it that bounds all others from below. */
  lemma NumMinIs(col: seq<Cell>, k: nat)
    requires k < |col| && col[k].Num?
    requires forall i :: 0 <= i < |col| && col[i].Num? ==> col[k].value <= col[i].value
    ensures NumMin(col) == col[k]
  {
  }

  /** The maximum of a column is any number in it that bounds all others from above. */
  lemma NumMaxIs(col: seq<Cell>, k: nat)
    requires k < |col| && col[k].Num?
    requires forall i :: 0 <= i < |col| && col[i].Num? ==> col[i].value <= col[k].value
    ensures NumMax(col) == col[k]
  {
  }

  /** Normalising a normalised column changes nothing: its minimum is
      already 0 and its maximum already 1, and an all-NaN column stays so. */
  lemma NormalizeIdempotent(col: seq<Cell>)
    ensures NormalizeColumn(NormalizeColumn(col)) == NormalizeColumn(col)
  {
    var r := NormalizeColumn(col);
    if HasSpread(col) {
      NormalizedExtremes(col);
      forall k | 0 <= k < |r|
        ensures NormalizeColumn(r)[k] == r[k]
      {
        if r[k].Num? {
          ScaleUnit(r[k].value);
        }
      }
    } else {
      assert !HasSpread(r);
    }
  }

  /** With spread, the normalised column has minimum 0 and maximum 1. */
  lemma NormalizedExtremes(col: seq<Cell>)
    requires HasSpread(col)
    ensures NumMin(NormalizeColumn(col)) == Num(0.0) && NumMax(NormalizeColumn(col)) == Num(1.0)
  {
    var r := NormalizeColumn(col);
    NormalizeReachesBothEnds(col);
    var i :| 0 <= i < |col| && r[i] == Num(0.0);
    var j :| 0 <= j < |col| && r[j] == Num(1.0);
    NumMinIs(r, i);
    NumMaxIs(r, j);
  }

  /** Scaling against the range [0, 1] changes nothing. */
  lemma ScaleUnit(x: real)
    requires 0.0 <= x <= 1.0
    ensures Scale(x, 0.0, 1.0) == x
  {
  }
}
