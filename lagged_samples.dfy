/**
 * The sample builder `prepare_data` shared verbatim by timeseries.py,
 * timeseriesLSTM.py, neural-networks/timeseries.py and
 * neural-networks/timePrediction.py, with the fixed 8000-row train/test split,
 * the LSTM reshape, the `lags` argument and the prediction-plot offsets.
 */
module LaggedSamples {
  import opened Base
  import opened Seqs
  import Text

  /** A two-dimensional float array, row by row; every row has column 0. */
  predicate IsTable(data: seq<seq<real>>)
  {
    forall i :: 0 <= i < |data| ==> |data[i]| >= 1
  }

  /** `range(len(data) - lags - 1)` has this many rows (none when the bound is negative). */
  function SampleCount(n: nat, lags: nat): nat
  {
    if n >= lags + 1 then n - lags - 1 else 0
  }

  /** `data[row:row + lags, 0]`. */
  function Window(data: seq<seq<real>>, lags: nat, row: nat): (r: seq<real>)
    requires IsTable(data) && row + lags <= |data|
    ensures |r| == lags
  {
    seq(lags, k requires 0 <= k < lags => data[row + k][0])
  }

  /** `data[row + lags, 0]`. */
  function Target(data: seq<seq<real>>, lags: nat, row: nat): real
    requires IsTable(data) && row + lags < |data|
  {
    data[row + lags][0]
  }

  /** `prepare_data(data, lags)`: the append loop building `X` and `y`. */
  method PrepareData(data: seq<seq<real>>, lags: nat) returns (xs: seq<seq<real>>, ys: seq<real>)
    requires IsTable(data)
    ensures |xs| == |ys| == SampleCount(|data|, lags)
    ensures forall i :: 0 <= i < |xs| ==> i + lags < |data| && xs[i] == Window(data, lags, i) && ys[i] == Target(data, lags, i)
  {
    xs, ys := [], [];
    var count := if |data| >= lags + 1 then |data| - lags - 1 else 0;
    var row := 0;
    while row < count
      invariant 0 <= row <= count
      invariant |xs| == |ys| == row
      invariant forall i :: 0 <= i < row ==> xs[i] == Window(data, lags, i) && ys[i] == Target(data, lags, i)
    {
      var a := seq(lags, k requires 0 <= k < lags => data[row + k][0]);
      xs := xs + [a];
      ys := ys + [data[row + lags][0]];
      row := row + 1;
    }
  }

  /** Each target is the last input of the next sample, so consecutive samples overlap by a shift of one. */
  lemma TargetIsNextWindowsLast(data: seq<seq<real>>, lags: nat, row: nat)
    requires IsTable(data) && lags >= 1 && row + 1 < SampleCount(|data|, lags)
    ensures Target(data, lags, row) == Window(data, lags, row + 1)[lags - 1]
    ensures Window(data, lags, row + 1)[..lags - 1] == Window(data, lags, row)[1..]
  {
    var next, cur := Window(data, lags, row + 1), Window(data, lags, row);
    assert forall k :: 0 <= k < lags - 1 ==> next[..lags - 1][k] == data[row + 1 + k][0] == cur[1..][k];
  }

  /** With `lags == 1` (timeseriesLSTM.py) each input is the single previous value. */
  lemma SingleLag(data: seq<seq<real>>, row: nat)
    requires IsTable(data) && row < SampleCount(|data|, 1)
    ensures Window(data, 1, row) == [data[row][0]]
    ensures Target(data, 1, row) == data[row + 1][0]
  {
  }

  // ----- the fixed split -----

  const TrainRows: nat := 8000

  /** `train = data[0:8000, :]`, `test = data[8000:, :]`. */
  function Split<T>(data: seq<T>): (r: (seq<T>, seq<T>))
    ensures |r.0| <= TrainRows
    ensures |data| >= TrainRows ==> |r.0| == TrainRows
  {
    (Slice(data, 0, TrainRows), SliceFrom(data, TrainRows))
  }

  /** The split covers every row once, in order: the first 8000 (or all) train, the rest test. */
  lemma SplitPartitions<T>(data: seq<T>)
    ensures Split(data).0 + Split(data).1 == data
    ensures |Split(data).0| == if |data| < TrainRows then |data| else TrainRows
  {
    if |data| <= TrainRows {
      assert Split(data).0 == data;
      assert Split(data).1 == [];
    } else {
      assert Split(data).0 == data[..TrainRows];
      assert Split(data).1 == data[TrainRows..];
    }
  }

  // ----- timeseriesLSTM.py's reshape -----

  /**
   * `np.reshape(X, (X.shape[0], 1, X.shape[1]))`. With no samples `np.array(X)`
   * is one-dimensional and `X.shape[1]` raises, which is None here.
   */
  function Reshape(xs: seq<seq<real>>): (r: Option<seq<seq<seq<real>>>>)
    ensures r.Some? <==> xs != []
    ensures r.Some? ==> |r.value| == |xs| && forall i :: 0 <= i < |xs| ==> |r.value[i]| == 1 && r.value[i][0] == xs[i]
  {
    if xs == [] then None else Some(seq(|xs|, i requires 0 <= i < |xs| => [xs[i]]))
  }

  /** The reshape keeps the sample count and gives each sample one time step holding its `lags` inputs. */
  lemma ReshapeShape(xs: seq<seq<real>>, lags: nat)
    requires xs != [] && forall i :: 0 <= i < |xs| ==> |xs[i]| == lags
    ensures Reshape(xs).Some? && |Reshape(xs).value| == |xs|
    ensures forall i :: 0 <= i < |xs| ==>
              |Reshape(xs).value[i]| == 1 && |Reshape(xs).value[i][0]| == lags && Reshape(xs).value[i][0] == xs[i]
  {
  }

  // ----- neural-networks/timePrediction.py's argument -----

  /** `lags = int(lags)` on the command-line argument. */
  function ParseLags(arg: string): (r: Option<int>)
    ensures Text.IsNumeral(arg) ==> r == Some(Text.DigitsValue(arg))
  {
    var r := Text.ParseInt(arg);
    assert Text.IsNumeral(arg) ==> r == Some(Text.DigitsValue(arg)) by {
      if Text.IsNumeral(arg) {
        Text.ParseNumeral(arg);
      }
    }
    r
  }

  /** The written-out number of lags reads back as itself. */
  lemma LagsFromArgument(lags: nat)
    ensures ParseLags(Text.NatToString(lags)) == Some(lags)
  {
    Text.ParseIntToString(lags);
    assert Text.IntToString(lags) == Text.NatToString(lags);
  }

  // ----- prediction-plot offsets -----

  /** The rows `train_predict_plot[lags : len(train_predict) + lags]` covers. */
  function TrainPlotRows(trainCount: nat, lags: nat): (nat, nat)
  {
    (lags, trainCount + lags)
  }

  /** The rows `test_predict_plot[len(train_predict) + lags * 2 + 1 : len(data) - 1]` covers (clamped as numpy does). */
  function TestPlotRows(n: nat, trainCount: nat, lags: nat): (nat, nat)
  {
    var start := trainCount + lags * 2 + 1;
    var stop := if n >= 1 then n - 1 else 0;
    if start <= stop then (start, stop) else (stop, stop)
  }

  /**
   * With fewer than 8000 lags, each plotted slice is exactly as long as its
   * predictions (so the assignments do not raise), and every prediction is
   * drawn on the data row it predicts: train sample i at row `i + lags`,
   * test sample i at row `8000 + i + lags`.
   */
  lemma PlotOffsets(n: nat, lags: nat)
    requires lags < TrainRows
    ensures var trainRows := if n < TrainRows then n else TrainRows;
            var testRows := n - trainRows;
            var trainCount := SampleCount(trainRows, lags);
            var testCount := SampleCount(testRows, lags);
            var (a, b) := TrainPlotRows(trainCount, lags);
            var (c, d) := TestPlotRows(n, trainCount, lags);
            b - a == trainCount && d - c == testCount &&
            (testCount > 0 ==> c == trainRows + lags)
  {
  }
}
