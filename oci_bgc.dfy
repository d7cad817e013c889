/**
 * preprocess_oci_bgc.py: which PACE OCI level-2 files still lack a
 * regridded output, and the average spacing between neighbouring entries of
 * a swath's latitude or longitude array.
 */
module OciBgc {
  import opened Optional
  import opened Numeric
  import Utils
  import PendingWork

  /**
   * `remove_files_already_done` with the OB.DAAC id: every returned file is
   * an input, none has the id of an output, no two share an id, and every
   * input id without an output is represented.
   */
  method RemoveFilesAlreadyDone(inputFiles: seq<string>, outputFiles: seq<string>)
    returns (pending: seq<string>)
    ensures pending == PendingWork.Pending(inputFiles, outputFiles, Utils.FileToTimeId)
    ensures forall f :: f in pending ==> f in inputFiles
    ensures forall f, o :: f in pending && o in outputFiles ==> Utils.FileToTimeId(o) != Utils.FileToTimeId(f)
    ensures forall i, j :: 0 <= i < j < |pending| ==> Utils.FileToTimeId(pending[i]) != Utils.FileToTimeId(pending[j])
    ensures forall f :: f in inputFiles && (forall o :: o in outputFiles ==> Utils.FileToTimeId(o) != Utils.FileToTimeId(f)) ==>
      exists g :: g in pending && Utils.FileToTimeId(g) == Utils.FileToTimeId(f)
  {
    pending := PendingWork.RemoveFilesAlreadyDone(inputFiles, outputFiles, Utils.FileToTimeId);
    forall f | f in pending
      ensures forall o :: o in outputFiles ==> Utils.FileToTimeId(o) != Utils.FileToTimeId(f)
    {
      PendingWork.PendingSkipsCompleted(inputFiles, outputFiles, Utils.FileToTimeId, f);
    }
    PendingWork.PendingDistinctIds(inputFiles, outputFiles, Utils.FileToTimeId);
    forall f | f in inputFiles && (forall o :: o in outputFiles ==> Utils.FileToTimeId(o) != Utils.FileToTimeId(f))
      ensures exists g :: g in pending && Utils.FileToTimeId(g) == Utils.FileToTimeId(f)
    {
      PendingWork.PendingCoversOpenIds(inputFiles, outputFiles, Utils.FileToTimeId, f);
    }
  }

  /**
   * Once the output `<outDir>/<id>.nc` that `regrid_file` writes for a file
   * is listed, that file is no longer pending.
   */
  lemma {:induction false} ProcessedFileNotPending(inputFiles: seq<string>, outputFiles: seq<string>, outDir: string, f: string)
    requires outDir + "/" + Utils.FileToTimeId(f) + ".nc" in outputFiles
    ensures f !in PendingWork.Pending(inputFiles, outputFiles, Utils.FileToTimeId)
  {
    Utils.TimeIdRoundTrip(f, outDir);
    if f in PendingWork.Pending(inputFiles, outputFiles, Utils.FileToTimeId) {
      PendingWork.PendingSkipsCompleted(inputFiles, outputFiles, Utils.FileToTimeId, f);
    }
  }

  /** A 2-D array: every row as long as the first. */
  predicate Rectangular(a: seq<seq<real>>)
  {
    forall i :: 0 <= i < |a| ==> |a[i]| == |a[0]|
  }

  /** `abs(diff(row))`: the distances between horizontal neighbours of one row. */
  function RowSteps(row: seq<real>): (d: seq<real>)
    ensures |d| == if |row| < 2 then 0 else |row| - 1
    ensures forall k :: 0 <= k < |d| ==> d[k] == Abs(row[k + 1] - row[k]) && d[k] >= 0.0
  {
    if |row| < 2 then [] else [Abs(row[1] - row[0])] + RowSteps(row[1..])
  }

  /** The distances between vertically adjacent entries of two rows. */
  function RowGaps(upper: seq<real>, lower: seq<real>): (d: seq<real>)
    requires |upper| == |lower|
    ensures |d| == |upper|
    ensures forall k :: 0 <= k < |d| ==> d[k] == Abs(lower[k] - upper[k])
  {
    seq(|upper|, k requires 0 <= k < |upper| => Abs(lower[k] - upper[k]))
  }

  /** `abs(diff(array, axis=0))`, row after row. */
  function SouthDifferences(a: seq<seq<real>>): (d: seq<real>)
    requires Rectangular(a)
    ensures |d| == if |a| < 2 then 0 else (|a| - 1) * |a[0]|
    ensures forall k :: 0 <= k < |d| ==> d[k] >= 0.0
  {
    if |a| < 2 then []
    else
      assert Rectangular(a[1..]);
      RowGaps(a[0], a[1]) + SouthDifferences(a[1..])
  }

  /** `abs(diff(array, axis=1))`, row after row. */
  function EastDifferences(a: seq<seq<real>>): (d: seq<real>)
    requires Rectangular(a)
    ensures |d| == if |a| == 0 || |a[0]| < 2 then 0 else |a| * (|a[0]| - 1)
    ensures forall k :: 0 <= k < |d| ==> d[k] >= 0.0
  {
    if |a| == 0 then []
    else
      assert Rectangular(a[1..]);
      assert |a| > 1 ==> |a[1..][0]| == |a[0]|;
      assert |a[0]| >= 2 ==> |a| * (|a[0]| - 1) == (|a[0]| - 1) + (|a| - 1) * (|a[0]| - 1);
      RowSteps(a[0]) + EastDifferences(a[1..])
  }

  /** Row `i + 1` of an array starts `c` entries after row `i`. */
  lemma NextRowOffset(i: nat, c: nat)
    ensures (i + 1) * c == c + i * c && i * c >= 0
  {
  }

  /** Entry (i, j) of `abs(diff(array, axis=0))` is the gap between rows i and i + 1 in column j. */
  lemma {:induction false} SouthEntry(a: seq<seq<real>>, i: nat, j: nat)
    requires Rectangular(a)
    requires i < |a| - 1 && j < |a[0]|
    ensures i * |a[0]| + j < |SouthDifferences(a)|
    ensures SouthDifferences(a)[i * |a[0]| + j] == Abs(a[i + 1][j] - a[i][j])
  {
    SouthEntryAt(a, i, j);
    RowStartIsProduct(i, |a[0]|);
  }

  lemma {:induction false} SouthEntryAt(a: seq<seq<real>>, i: nat, j: nat)
    requires Rectangular(a)
    requires i < |a| - 1 && j < |a[0]|
    ensures RowStart(i, |a[0]|) + j < |SouthDifferences(a)|
    ensures SouthDifferences(a)[RowStart(i, |a[0]|) + j] == Abs(a[i + 1][j] - a[i][j])
  {
    var tail := a[1..];
    assert Rectangular(tail) && |tail[0]| == |a[0]|;
    if i == 0 {
      assert SouthDifferences(a) == RowGaps(a[0], a[1]) + SouthDifferences(tail);
    } else {
      SouthEntryAt(tail, i - 1, j);
      assert tail[i - 1] == a[i] && tail[i] == a[i + 1];
      SouthEntryStep(a, i, j);
    }
  }

  /** The entries of rows after the first sit one row of gaps further on. */
  lemma {:induction false} SouthEntryStep(a: seq<seq<real>>, i: nat, j: nat)
    requires Rectangular(a) && 0 < i < |a| - 1
    requires Rectangular(a[1..]) && j < |a[0]| == |a[1..][0]|
    requires RowStart(i - 1, |a[0]|) + j < |SouthDifferences(a[1..])|
    requires SouthDifferences(a[1..])[RowStart(i - 1, |a[0]|) + j] == Abs(a[i + 1][j] - a[i][j])
    ensures RowStart(i, |a[0]|) + j < |SouthDifferences(a)|
    ensures SouthDifferences(a)[RowStart(i, |a[0]|) + j] == Abs(a[i + 1][j] - a[i][j])
  {
    var c := |a[0]|;
    var gaps, rest := RowGaps(a[0], a[1]), SouthDifferences(a[1..]);
    assert SouthDifferences(a) == gaps + rest;
    var k := RowStart(i - 1, c) + j;
    assert RowStart(i, c) + j == c + k;
    assert (gaps + rest)[c + k] == rest[k];
  }

  /** Where row `i` starts when every row holds `w` entries: `w` added `i` times. */
  function RowStart(i: nat, w: nat): nat
  {
    if i == 0 then 0 else w + RowStart(i - 1, w)
  }

  lemma {:induction false} RowStartIsProduct(i: nat, w: nat)
    ensures RowStart(i, w) == i * w
  {
    if i > 0 {
      RowStartIsProduct(i - 1, w);
      NextRowOffset(i - 1, w);
    }
  }

  /** Entry (i, j) of `abs(diff(array, axis=1))` is the step from column j to j + 1 in row i. */
  lemma {:induction false} EastEntry(a: seq<seq<real>>, i: nat, j: nat)
    requires Rectangular(a)
    requires i < |a| && j < |a[0]| - 1
    ensures i * (|a[0]| - 1) + j < |EastDifferences(a)|
    ensures EastDifferences(a)[i * (|a[0]| - 1) + j] == Abs(a[i][j + 1] - a[i][j])
  {
    EastEntryAt(a, i, j);
    RowStartIsProduct(i, |a[0]| - 1);
  }

  lemma {:induction false} EastEntryAt(a: seq<seq<real>>, i: nat, j: nat)
    requires Rectangular(a)
    requires i < |a| && j < |a[0]| - 1
    ensures RowStart(i, |a[0]| - 1) + j < |EastDifferences(a)|
    ensures EastDifferences(a)[RowStart(i, |a[0]| - 1) + j] == Abs(a[i][j + 1] - a[i][j])
  {
    var tail := a[1..];
    assert Rectangular(tail);
    if i == 0 {
      assert EastDifferences(a) == RowSteps(a[0]) + EastDifferences(tail);
    } else {
      assert |tail[0]| == |a[0]|;
      EastEntryAt(tail, i - 1, j);
      assert tail[i - 1] == a[i];
      EastEntryStep(a, i, j);
    }
  }

  /** The entries of rows after the first sit one row of steps further on. */
  lemma {:induction false} EastEntryStep(a: seq<seq<real>>, i: nat, j: nat)
    requires Rectangular(a) && 0 < i < |a|
    requires Rectangular(a[1..]) && j < |a[0]| - 1 && |a[0]| == |a[1..][0]|
    requires RowStart(i - 1, |a[0]| - 1) + j < |EastDifferences(a[1..])|
    requires EastDifferences(a[1..])[RowStart(i - 1, |a[0]| - 1) + j] == Abs(a[i][j + 1] - a[i][j])
    ensures RowStart(i, |a[0]| - 1) + j < |EastDifferences(a)|
    ensures EastDifferences(a)[RowStart(i, |a[0]| - 1) + j] == Abs(a[i][j + 1] - a[i][j])
  {
    var w := |a[0]| - 1;
    var steps, rest := RowSteps(a[0]), EastDifferences(a[1..]);
    assert EastDifferences(a) == steps + rest;
    var k := RowStart(i - 1, w) + j;
    assert RowStart(i, w) + j == w + k;
    assert |steps| == w;
    assert (steps + rest)[w + k] == rest[k];
  }

  /** A later row starts no earlier. */
  lemma {:induction false} LaterRowOffset(x: nat, y: nat, w: nat)
    requires x <= y
    ensures x * w <= y * w
    decreases y - x
  {
    if x < y {
      LaterRowOffset(x + 1, y, w);
      NextRowOffset(x, w);
    }
  }

  predicate NonNegative(xs: seq<real>)
  {
    forall k :: 0 <= k < |xs| ==> xs[k] >= 0.0
  }

  /** `np.sum`. */
  function Sum(xs: seq<real>): real
  {
    if xs == [] then 0.0 else xs[0] + Sum(xs[1..])
  }

  /** A sum of non-negative terms is non-negative. */
  lemma {:induction false} SumNonNegative(xs: seq<real>)
    requires NonNegative(xs)
    ensures Sum(xs) >= 0.0
  {
    if xs != [] {
      SumNonNegative(xs[1..]);
    }
  }

  /** Bounds on every element bound the sum. */
  lemma {:induction false} SumBetween(xs: seq<real>, lo: real, hi: real)
    requires forall k :: 0 <= k < |xs| ==> lo <= xs[k] <= hi
    ensures lo * (|xs| as real) <= Sum(xs) <= hi * (|xs| as real)
  {
    if xs != [] {
      SumBetween(xs[1..], lo, hi);
      BoundsStep(xs[0], Sum(xs[1..]), |xs[1..]| as real, lo, hi);
    }
  }

  /** Adding one term in [`lo`, `hi`] to a sum of `n` such terms. */
  lemma BoundsStep(x: real, rest: real, n: real, lo: real, hi: real)
    requires lo <= x <= hi && lo * n <= rest <= hi * n
    ensures lo * (n + 1.0) <= x + rest <= hi * (n + 1.0)
  {
    assert lo * (n + 1.0) == lo * n + lo && hi * (n + 1.0) == hi * n + hi;
  }

  /**
   * `get_avg_distance`: the mean of all vertical and horizontal neighbour
   * distances. With no neighbours at all the script divides zero by zero
   * and gets NaN, which is `None` here; otherwise the mean is never
   * negative.
   */
  function GetAvgDistance(a: seq<seq<real>>): (avg: Option<real>)
    requires Rectangular(a)
    ensures avg.None? <==> |a| == 0 || |a[0]| == 0 || (|a| == 1 && |a[0]| == 1)
    ensures avg.Some? ==> avg.value >= 0.0
  {
    var d := SouthDifferences(a) + EastDifferences(a);
    NoDistances(a);
    if |d| == 0 then None
    else
      SumNonNegative(d);
      QuotientNonNegative(Sum(d), |d| as real);
      Some(Sum(d) / (|d| as real))
  }

  /** An array has no neighbours exactly when it is empty or a single entry. */
  lemma {:induction false} NoDistances(a: seq<seq<real>>)
    requires Rectangular(a)
    ensures |SouthDifferences(a) + EastDifferences(a)| == 0 <==> |a| == 0 || |a[0]| == 0 || (|a| == 1 && |a[0]| == 1)
  {
    if |a| >= 2 && |a[0]| >= 1 {
      PositiveProduct(|a| - 1, |a[0]|);
    } else if |a| >= 1 && |a[0]| >= 2 {
      PositiveProduct(|a|, |a[0]| - 1);
    }
  }

  lemma {:induction false} QuotientNonNegative(x: real, y: real)
    requires x >= 0.0 && y > 0.0
    ensures x / y >= 0.0
  {
  }

  lemma {:induction false} PositiveProduct(x: int, y: int)
    requires x > 0 && y > 0
    ensures x * y > 0
  {
  }

  /** For an `r x c` array with `r, c >= 1`, the mean is taken over `(r-1)*c + r*(c-1)` distances. */
  lemma {:induction false} DifferenceCount(a: seq<seq<real>>)
    requires Rectangular(a) && |a| > 0 && |a[0]| > 0
    ensures |SouthDifferences(a) + EastDifferences(a)| == (|a| - 1) * |a[0]| + |a| * (|a[0]| - 1)
  {
  }

  /** Every distance between row `i` and row `i + 1` lies in [`lo`, `hi`]. */
  predicate RowPairWithin(a: seq<seq<real>>, i: nat, lo: real, hi: real)
    requires i + 1 < |a|
  {
    forall j :: 0 <= j < |a[i]| && j < |a[i + 1]| ==> lo <= Abs(a[i + 1][j] - a[i][j]) <= hi
  }

  /** Every vertical neighbour distance lies in [`lo`, `hi`]. */
  predicate VerticalWithin(a: seq<seq<real>>, lo: real, hi: real)
  {
    forall i: nat :: i + 1 < |a| ==> RowPairWithin(a, i, lo, hi)
  }

  /** Every horizontal neighbour distance lies in [`lo`, `hi`]. */
  predicate HorizontalWithin(a: seq<seq<real>>, lo: real, hi: real)
  {
    forall i, j :: 0 <= i < |a| && 0 <= j < |a[i]| - 1 ==> lo <= Abs(a[i][j + 1] - a[i][j]) <= hi
  }

  lemma {:induction false} SouthWithin(a: seq<seq<real>>, lo: real, hi: real)
    requires Rectangular(a) && VerticalWithin(a, lo, hi)
    ensures forall k :: 0 <= k < |SouthDifferences(a)| ==> lo <= SouthDifferences(a)[k] <= hi
  {
    if |a| >= 2 {
      var tail := a[1..];
      assert Rectangular(tail);
      assert VerticalWithin(tail, lo, hi) by {
        forall i: nat | i + 1 < |tail| ensures RowPairWithin(tail, i, lo, hi) {
          assert RowPairWithin(a, i + 1, lo, hi);
          assert tail[i] == a[i + 1] && tail[i + 1] == a[i + 2];
        }
      }
      SouthWithin(tail, lo, hi);
      var gaps := RowGaps(a[0], a[1]);
      assert RowPairWithin(a, 0, lo, hi);
    }
  }

  lemma {:induction false} EastWithin(a: seq<seq<real>>, lo: real, hi: real)
    requires Rectangular(a) && HorizontalWithin(a, lo, hi)
    ensures forall k :: 0 <= k < |EastDifferences(a)| ==> lo <= EastDifferences(a)[k] <= hi
  {
    if |a| >= 1 {
      var tail := a[1..];
      assert Rectangular(tail);
      assert HorizontalWithin(tail, lo, hi) by {
        forall i, j | 0 <= i < |tail| && 0 <= j < |tail[i]| - 1
          ensures lo <= Abs(tail[i][j + 1] - tail[i][j]) <= hi
        {
          assert tail[i] == a[i + 1];
        }
      }
      EastWithin(tail, lo, hi);
      var steps := RowSteps(a[0]);
      forall k | 0 <= k < |steps| ensures lo <= steps[k] <= hi {
        assert steps[k] == Abs(a[0][k + 1] - a[0][k]);
      }
    }
  }

  /**
   * When every neighbour distance lies in [`lo`, `hi`], so does their mean:
   * a uniformly spaced grid yields its spacing.
   */
  lemma {:induction false} AvgDistanceWithin(a: seq<seq<real>>, lo: real, hi: real)
    requires Rectangular(a)
    requires VerticalWithin(a, lo, hi) && HorizontalWithin(a, lo, hi)
    ensures var avg := GetAvgDistance(a); avg.Some? ==> lo <= avg.value <= hi
  {
    var d := SouthDifferences(a) + EastDifferences(a);
    SouthWithin(a, lo, hi);
    EastWithin(a, lo, hi);
    if |d| > 0 {
      assert forall k :: 0 <= k < |d| ==> lo <= d[k] <= hi by {
        forall k | 0 <= k < |d| ensures lo <= d[k] <= hi {
          if k < |SouthDifferences(a)| {
            assert d[k] == SouthDifferences(a)[k];
          } else {
            assert d[k] == EastDifferences(a)[k - |SouthDifferences(a)|];
          }
        }
      }
      MeanWithin(d, lo, hi);
    }
  }

  /** The mean of values in [`lo`, `hi`] lies in [`lo`, `hi`]. */
  lemma {:induction false} MeanWithin(xs: seq<real>, lo: real, hi: real)
    requires |xs| > 0
    requires forall k :: 0 <= k < |xs| ==> lo <= xs[k] <= hi
    ensures lo <= Sum(xs) / (|xs| as real) <= hi
  {
    var total, n := Sum(xs), |xs| as real;
    SumBetween(xs, lo, hi);
    QuotientBetween(total, n, lo, hi);
  }

  lemma {:induction false} QuotientBetween(total: real, n: real, lo: real, hi: real)
    requires n > 0.0 && lo * n <= total <= hi * n
    ensures lo <= total / n <= hi
  {
    assert total / n * n == total;
  }

  /** A constant array has mean neighbour distance zero. */
  lemma {:induction false} AvgOfConstant(a: seq<seq<real>>, v: real)
    requires Rectangular(a)
    requires forall i, j :: 0 <= i < |a| && 0 <= j < |a[i]| ==> a[i][j] == v
    ensures var avg := GetAvgDistance(a); avg.Some? ==> avg.value == 0.0
  {
    AvgDistanceWithin(a, 0.0, 0.0);
  }
}
