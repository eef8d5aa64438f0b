/**
 * utils/correlation.py: reading the currency and subscriber files, lagged
 * correlations, first differences and percent changes, and the ranking of
 * lags by the strength of their correlation. `np.corrcoef` is a parameter.
 */
module Correlation {
  import opened Base
  import opened Seqs
  import Text
  import opened CsvRows
  import MovingAverages

  // ----- reading -----

  /** `read_currency_file`: the `read_file` pipeline, parsing dates without `datefix`. */
  function ReadCurrencyFile(data: seq<seq<string>>, cols: MovingAverages.ColumnMap, header: bool, reverse: bool,
                            numRows: int, rd: MovingAverages.Readers): (r: Result<MovingAverages.PriceTable, ReadError>)
    ensures r.Ok? ==>
              var n := |SelectRows(data, header, reverse, numRows)|;
              n > 0 && |r.value.date| == n && |r.value.open| == n && |r.value.high| == n &&
              |r.value.low| == n && |r.value.close| == n && |r.value.volume| == n
  {
    var rows := SelectRows(data, header, reverse, numRows);
    var date :- ReadColumn(rows, cols.date, rd.parseDate);
    var open :- ReadColumn(rows, cols.open, rd.parseFloat);
    var high :- ReadColumn(rows, cols.high, rd.parseFloat);
    var low :- ReadColumn(rows, cols.low, rd.parseFloat);
    var close :- ReadColumn(rows, cols.close, rd.parseFloat);
    var volume :- ReadColumn(rows, cols.volume, rd.parseFloat);
    Ok(MovingAverages.PriceTable(date, open, high, low, close, volume))
  }

  /** On files whose date cells hold no 'v', the currency reader and `read_file` agree. */
  lemma CurrencyFileIsReadFile(data: seq<seq<string>>, cols: MovingAverages.ColumnMap, header: bool, reverse: bool,
                               numRows: int, rd: MovingAverages.Readers)
    requires var rows := SelectRows(data, header, reverse, numRows);
             forall i :: 0 <= i < |rows| && cols.date < |rows[i]| ==> 'v' !in rows[i][cols.date]
    ensures ReadCurrencyFile(data, cols, header, reverse, numRows, rd) ==
            MovingAverages.ReadFile(data, cols, header, reverse, numRows, rd)
  {
    var rows := SelectRows(data, header, reverse, numRows);
    var dateOf := (d: string) => rd.parseDate(MovingAverages.Datefix(d));
    forall i | 0 <= i < |rows| && cols.date < |rows[i]|
      ensures dateOf(rows[i][cols.date]) == rd.parseDate(rows[i][cols.date])
    {
      var d := rows[i][cols.date];
      assert MovingAverages.Datefix(d) == d;
    }
    SameColumn(rows, cols.date, dateOf, rd.parseDate);
  }

  /** Two conversions that agree on a column read it alike. */
  lemma SameColumn(rows: seq<seq<string>>, j: nat, f: string -> Option<real>, g: string -> Option<real>)
    requires forall i :: 0 <= i < |rows| && j < |rows[i]| ==> f(rows[i][j]) == g(rows[i][j])
    ensures ReadColumn(rows, j, f) == ReadColumn(rows, j, g)
  {
    if rows != [] && Rectangular(rows) {
      ColumnIff(rows, j);
    }
    if rows != [] && Rectangular(rows) && Column(rows, j).Some? {
      var cells := Column(rows, j).value;
      SameConversion(cells, f, g);
    }
  }

  lemma {:induction false} SameConversion(cells: seq<string>, f: string -> Option<real>, g: string -> Option<real>)
    requires forall i :: 0 <= i < |cells| ==> f(cells[i]) == g(cells[i])
    ensures ConvertAll(cells, f) == ConvertAll(cells, g)
  {
    if cells != [] {
      assert forall i :: 0 <= i < |cells| - 1 ==> cells[1..][i] == cells[i + 1];
      SameConversion(cells[1..], f, g);
    }
  }

  /** `read_subscriber_file`: dates from column 0, subscriber growth from column 1 as integers. */
  function ReadSubscriberFile(data: seq<seq<string>>, header: bool, reverse: bool, numRows: int,
                              parseDate: string -> Option<real>): (r: Result<(seq<real>, seq<int>), ReadError>)
    ensures r.Ok? ==> var n := |SelectRows(data, header, reverse, numRows)|;
                      n > 0 && |r.value.0| == n && |r.value.1| == n
  {
    var rows := SelectRows(data, header, reverse, numRows);
    var date :- ReadColumn(rows, 0, parseDate);
    var growth :- ReadColumn(rows, 1, Text.ParseInt);
    Ok((date, growth))
  }

  /** The subscriber reader takes row i's date from field 0 and its growth from field 1. */
  lemma SubscriberColumns(data: seq<seq<string>>, header: bool, reverse: bool, numRows: int,
                          parseDate: string -> Option<real>)
    ensures var rows := SelectRows(data, header, reverse, numRows);
            var r := ReadSubscriberFile(data, header, reverse, numRows, parseDate);
            (r.Ok? <==> rows != [] && Rectangular(rows) && forall i :: 0 <= i < |rows| ==>
                          2 <= |rows[i]| && parseDate(rows[i][0]).Some? && Text.ParseInt(rows[i][1]).Some?) &&
            (r.Ok? ==> |r.value.0| == |rows| == |r.value.1| &&
                       forall i :: 0 <= i < |rows| ==>
                         parseDate(rows[i][0]) == Some(r.value.0[i]) && Text.ParseInt(rows[i][1]) == Some(r.value.1[i]))
  {
    var rows := SelectRows(data, header, reverse, numRows);
    ReadColumnIff(rows, 0, parseDate);
    ReadColumnIff(rows, 1, Text.ParseInt);
  }

  // ----- autocorr and autocorr_range -----

  /** `np.corrcoef(x, y)[0, 1]`, left uninterpreted. */
  type Coefficient = (seq<real>, seq<real>) -> real

  /** `autocorr(a, b, time_lag)`: correlate `a[time_lag:]` with `b[:len(b) - time_lag]`. */
  function Autocorr(a: seq<real>, b: seq<real>, lag: int, corr: Coefficient): (r: real)
    ensures lag == 0 ==> r == corr(a, b)
  {
    assert SliceFrom(a, 0) == a && SliceTo(b, |b|) == b;
    corr(SliceFrom(a, lag), SliceTo(b, |b| - lag))
  }

  /** For equally long inputs and `0 <= lag <= n`, `a` from `lag` on is paired with the first `n - lag` of `b`. */
  lemma AutocorrPairs(a: seq<real>, b: seq<real>, lag: nat, corr: Coefficient)
    requires |a| == |b| && lag <= |a|
    ensures |SliceFrom(a, lag)| == |SliceTo(b, |b| - lag)| == |a| - lag
    ensures Autocorr(a, b, lag, corr) == corr(a[lag..], b[..|b| - lag])
  {
    assert SliceFrom(a, lag) == a[lag..];
    assert SliceTo(b, |b| - lag) == b[..|b| - lag];
  }

  function Abs(x: int): nat
  {
    if x < 0 then -x else x
  }

  /** `autocorr_range(a, b, lag_range)`. */
  function AutocorrRange(a: seq<real>, b: seq<real>, lagRange: int, corr: Coefficient): (r: seq<real>)
    ensures |r| == 2 * Abs(lagRange) + 1
    ensures r[Abs(lagRange)] == corr(a, b)
  {
    if lagRange == 0 then [Autocorr(a, b, 0, corr)]
    else
      var t := Abs(lagRange);
      var pos := seq(t + 1, i requires 0 <= i <= t => Autocorr(a, b, i, corr));
      var neg := seq(t, k requires 0 <= k < t => Autocorr(b, a, t - k, corr));
      neg + pos
  }

  /** The correlation at lag l: `a` lagged behind `b` for l >= 0, the arguments swapped for l < 0. */
  function LagCorrelation(a: seq<real>, b: seq<real>, lag: int, corr: Coefficient): real
  {
    if lag < 0 then Autocorr(b, a, -lag, corr) else Autocorr(a, b, lag, corr)
  }

  /**
   * `autocorr_range` lists lags `-|r| .. |r|` in ascending order: 2|r|+1
   * values, entry k being the correlation at lag `k - |r|`. For `r == 0` this
   * is the single `autocorr(a, b, 0)`.
   */
  lemma AutocorrRangeLags(a: seq<real>, b: seq<real>, lagRange: int, corr: Coefficient)
    ensures var r := AutocorrRange(a, b, lagRange, corr);
            |r| == 2 * Abs(lagRange) + 1 &&
            forall k :: 0 <= k < |r| ==> r[k] == LagCorrelation(a, b, k - Abs(lagRange), corr)
  {
    var t := Abs(lagRange);
    var r := AutocorrRange(a, b, lagRange, corr);
    if lagRange != 0 {
      forall k | 0 <= k < |r| ensures r[k] == LagCorrelation(a, b, k - t, corr) {
        if k < t {
          assert r[k] == Autocorr(b, a, t - k, corr);
        } else {
          assert r[k] == Autocorr(a, b, k - t, corr);
        }
      }
    }
  }

  /** A negative lag range gives the same list as its absolute value. */
  lemma AutocorrRangeSign(a: seq<real>, b: seq<real>, lagRange: int, corr: Coefficient)
    ensures AutocorrRange(a, b, -lagRange, corr) == AutocorrRange(a, b, lagRange, corr)
  {
    assert Abs(-lagRange) == Abs(lagRange);
  }

  // ----- change and percent_change -----

  /** Why `np.diff` or the division in `percent_change` raises. */
  datatype ChangeError = NegativeOrder | ShapeMismatch

  /** One round of `np.diff`: consecutive differences. */
  function Diff(a: seq<real>): (r: seq<real>)
    ensures |r| == if |a| == 0 then 0 else |a| - 1
  {
    if |a| <= 1 then [] else seq(|a| - 1, i requires 0 <= i < |a| - 1 => a[i + 1] - a[i])
  }

  /** `np.diff(a, n)`: `n` rounds of differences. */
  function Differences(a: seq<real>, n: nat): (r: seq<real>)
    ensures |r| == if n <= |a| then |a| - n else 0
    decreases n
  {
    if n == 0 then a else Differences(Diff(a), n - 1)
  }

  /** `change(a, offset)`. */
  function Change(a: seq<real>, offset: int): (r: Result<seq<real>, ChangeError>)
    ensures r.Err? <==> offset < 0
    ensures r.Ok? ==> |r.value| == if offset <= |a| then |a| - offset else 0
  {
    if offset < 0 then Err(NegativeOrder) else Ok(Differences(a, offset))
  }

  /** With the default offset, `change` lists the n-1 consecutive differences. */
  lemma ChangeFirstOrder(a: seq<real>)
    requires |a| >= 1
    ensures Change(a, 1).Ok? && |Change(a, 1).value| == |a| - 1
    ensures forall i :: 0 <= i < |a| - 1 ==> Change(a, 1).value[i] == a[i + 1] - a[i]
  {
    assert Change(a, 1).value == Differences(Diff(a), 0) == Diff(a);
  }

  /** The differences undo a running sum: the first value plus the first k differences is value k. */
  lemma {:induction false} DiffTelescopes(a: seq<real>, k: nat)
    requires k < |a|
    ensures a[0] + Sum(Diff(a)[..k]) == a[k]
  {
    if k > 0 {
      DiffTelescopes(a, k - 1);
      assert Diff(a)[..k] == Diff(a)[..k - 1] + [a[k] - a[k - 1]];
      SumSnoc(Diff(a)[..k - 1], a[k] - a[k - 1]);
    } else {
      assert Diff(a)[..0] == [];
    }
  }

  /** The stand-in `percent_change` writes over zeros, `0.0000000001`. */
  const Tiny: real := 0.0000000001

  /** `c = a.copy(); c[c == 0] = 0.0000000001` on a float array. */
  function ReplaceZeros(a: seq<real>): (c: seq<real>)
    ensures |c| == |a|
    ensures forall i :: 0 <= i < |a| ==> c[i] != 0.0
    ensures forall i :: 0 <= i < |a| ==> c[i] == if a[i] == 0.0 then Tiny else a[i]
  {
    seq(|a|, i requires 0 <= i < |a| => if a[i] == 0.0 then Tiny else a[i])
  }

  /** numpy's cast of a float stored into an integer array: truncation toward zero. */
  function TruncateToInt(x: real): int
  {
    if x >= 0.0 then x.Floor else -((-x).Floor)
  }

  /** The same assignment on an integer array (the subscriber growth, read with `dtype=int`). */
  function ReplaceZerosInt(a: seq<int>): (c: seq<int>)
    ensures |c| == |a|
  {
    seq(|a|, i requires 0 <= i < |a| => if a[i] == 0 then TruncateToInt(Tiny) else a[i])
  }

  /** On an integer array the stand-in truncates to 0, so the copy keeps every zero. */
  lemma ReplaceZerosIntKeepsZeros(a: seq<int>)
    ensures ReplaceZerosInt(a) == a
  {
    assert TruncateToInt(Tiny) == 0;
  }

  /** The floats numpy's true division promotes integers to. */
  function IntsAsReals(a: seq<int>): (r: seq<real>)
    ensures |r| == |a| && forall i :: 0 <= i < |a| ==> r[i] == a[i] as real
  {
    seq(|a|, i requires 0 <= i < |a| => a[i] as real)
  }

  function AbsReal(x: real): real
  {
    if x < 0.0 then -x else x
  }

  /** A float quotient: finite, or the infinity or NaN numpy yields (with a warning) for a zero divisor. */
  datatype Quotient = Finite(value: real) | PlusInfinity | MinusInfinity | NotANumber

  /** IEEE division of `n` by a non-negative `d`. */
  function FloatDivide(n: real, d: real): (q: Quotient)
    ensures q.Finite? <==> d != 0.0
    ensures q.Finite? ==> q.value * d == n
    ensures d == 0.0 ==> (q == PlusInfinity <==> n > 0.0) && (q == NotANumber <==> n == 0.0)
  {
    if d != 0.0 then Finite(n / d)
    else if n > 0.0 then PlusInfinity
    else if n < 0.0 then MinusInfinity
    else NotANumber
  }

  /** Element-wise division with numpy broadcasting of a length-1 operand; other shape pairs raise. */
  function Divide(num: seq<real>, den: seq<real>): (r: Result<seq<Quotient>, ChangeError>)
    ensures r.Ok? <==> |num| == |den| || |num| == 1 || |den| == 1
    ensures r.Ok? ==> |r.value| == (if |num| == 1 then |den| else |num|)
    ensures r.Ok? ==> forall k :: 0 <= k < |r.value| ==>
              r.value[k] == FloatDivide(num[if |num| == 1 then 0 else k], den[if |den| == 1 then 0 else k])
  {
    if |num| == |den| then Ok(seq(|num|, i requires 0 <= i < |num| => FloatDivide(num[i], den[i])))
    else if |num| == 1 then Ok(seq(|den|, i requires 0 <= i < |den| => FloatDivide(num[0], den[i])))
    else if |den| == 1 then Ok(seq(|num|, i requires 0 <= i < |num| => FloatDivide(num[i], den[0])))
    else Err(ShapeMismatch)
  }

  /**
   * `np.diff(c, offset) / np.abs(c[:-1])` for the copy `c` after the zero
   * replacement. It raises for a negative order and when the n-offset
   * differences and the n-1 earlier values neither match nor broadcast.
   */
  function DiffOverEarlier(c: seq<real>, offset: int): (r: Result<seq<Quotient>, ChangeError>)
    ensures offset < 0 ==> r == Err(NegativeOrder)
    ensures offset >= 0 ==>
              var dl := if offset <= |c| then |c| - offset else 0;
              var bl := if c == [] then 0 else |c| - 1;
              (r.Ok? <==> dl == bl || dl == 1 || bl == 1)
  {
    var d :- Change(c, offset);
    var before := SliceTo(c, -1);
    assert |before| == if c == [] then 0 else |c| - 1;
    Divide(d, seq(|before|, i requires 0 <= i < |before| => AbsReal(before[i])))
  }

  /** With the default offset, entry i divides `c[i+1] - c[i]` by `|c[i]|`; there are n-1 entries (none for an empty input). */
  lemma DiffOverEarlierFirstOrder(c: seq<real>)
    ensures var r := DiffOverEarlier(c, 1);
            r.Ok? && |r.value| == (if c == [] then 0 else |c| - 1) &&
            forall i :: 0 <= i < |r.value| ==> r.value[i] == FloatDivide(c[i + 1] - c[i], AbsReal(c[i]))
  {
    if c != [] {
      ChangeFirstOrder(c);
      var d := Change(c, 1).value;
      var before := SliceTo(c, -1);
      assert before == c[..|c| - 1];
      var den := seq(|before|, i requires 0 <= i < |before| => AbsReal(before[i]));
      assert DiffOverEarlier(c, 1) == Divide(d, den);
      assert |d| == |den|;
    }
  }

  /** `percent_change(a, offset)` on a float array: no zero divisor is left, so every entry is finite. */
  function PercentChange(a: seq<real>, offset: int): (r: Result<seq<Quotient>, ChangeError>)
    ensures offset < 0 ==> r == Err(NegativeOrder)
    ensures r.Ok? ==> forall k :: 0 <= k < |r.value| ==> r.value[k].Finite?
  {
    var c := ReplaceZeros(a);
    var r := DiffOverEarlier(c, offset);
    assert r.Ok? ==> forall k :: 0 <= k < |r.value| ==> r.value[k].Finite? by {
      if r.Ok? {
        var d := Change(c, offset).value;
        var before := SliceTo(c, -1);
        var den := seq(|before|, i requires 0 <= i < |before| => AbsReal(before[i]));
        assert forall i :: 0 <= i < |before| ==> before[i] == c[i];
        assert r == Divide(d, den);
      }
    }
    r
  }

  /** With the default offset, entry i is `(c[i+1] - c[i]) / |c[i]|` for the zero-free copy `c`, and there are n-1 entries. */
  lemma PercentChangeFirstOrder(a: seq<real>)
    ensures var c := ReplaceZeros(a);
            var r := PercentChange(a, 1);
            r.Ok? && |r.value| == (if a == [] then 0 else |a| - 1) &&
            forall i :: 0 <= i < |r.value| ==> r.value[i] == Finite((c[i + 1] - c[i]) / AbsReal(c[i]))
  {
    DiffOverEarlierFirstOrder(ReplaceZeros(a));
  }

  /** A higher order whose difference list is neither as long as the earlier values nor of length 1 cannot broadcast. */
  lemma PercentChangeShapes(a: seq<real>, offset: nat)
    requires |a| >= 4 && 2 <= offset <= |a| - 2
    ensures PercentChange(a, offset) == Err(ShapeMismatch)
  {
  }

  /** `percent_change(a, offset)` on an integer array: the zero replacement stores 0, so zeros reach the divisor. */
  function PercentChangeInts(a: seq<int>, offset: int): (r: Result<seq<Quotient>, ChangeError>)
    ensures offset < 0 ==> r == Err(NegativeOrder)
  {
    DiffOverEarlier(IntsAsReals(ReplaceZerosInt(a)), offset)
  }

  /**
   * The default `percent_change` of the subscriber growth: entry i is
   * `(a[i+1] - a[i]) / |a[i]|`, finite exactly when `a[i]` is not zero;
   * after a zero count it is infinite, or NaN when the next count is zero too.
   */
  lemma PercentChangeIntsFirstOrder(a: seq<int>)
    ensures var r := PercentChangeInts(a, 1);
            r.Ok? && |r.value| == (if a == [] then 0 else |a| - 1) &&
            forall i :: 0 <= i < |r.value| ==>
              r.value[i] == FloatDivide((a[i + 1] - a[i]) as real, Abs(a[i]) as real) &&
              (r.value[i].Finite? <==> a[i] != 0) &&
              (a[i] == 0 ==> r.value[i] == (if a[i + 1] > 0 then PlusInfinity
                                            else if a[i + 1] < 0 then MinusInfinity else NotANumber))
  {
    ReplaceZerosIntKeepsZeros(a);
    var c := IntsAsReals(a);
    DiffOverEarlierFirstOrder(c);
    var r := PercentChangeInts(a, 1);
    assert r == DiffOverEarlier(c, 1);
    if a != [] {
      IntQuotients(a, r.value);
    }
  }

  /** Quotients over the real copy of an integer series, restated on the integers. */
  lemma IntQuotients(a: seq<int>, q: seq<Quotient>)
    requires |q| < |a|
    requires var c := IntsAsReals(a);
             forall i :: 0 <= i < |q| ==> q[i] == FloatDivide(c[i + 1] - c[i], AbsReal(c[i]))
    ensures forall i :: 0 <= i < |q| ==>
              q[i] == FloatDivide((a[i + 1] - a[i]) as real, Abs(a[i]) as real) &&
              (q[i].Finite? <==> a[i] != 0) &&
              (a[i] == 0 ==> q[i] == (if a[i + 1] > 0 then PlusInfinity
                                      else if a[i + 1] < 0 then MinusInfinity else NotANumber))
  {
    var c := IntsAsReals(a);
    forall i | 0 <= i < |q|
      ensures q[i] == FloatDivide((a[i + 1] - a[i]) as real, Abs(a[i]) as real)
      ensures (q[i].Finite? <==> a[i] != 0)
      ensures a[i] == 0 ==> q[i] == (if a[i + 1] > 0 then PlusInfinity
                                     else if a[i + 1] < 0 then MinusInfinity else NotANumber)
    {
      assert c[i + 1] - c[i] == (a[i + 1] - a[i]) as real;
      assert AbsReal(c[i]) == Abs(a[i]) as real;
      IntQuotient(a[i + 1], a[i]);
    }
  }

  /** Dividing an integer difference by an integer's absolute value: one step of `PercentChangeIntsFirstOrder`. */
  lemma IntQuotient(next: int, prev: int)
    ensures var q := FloatDivide((next - prev) as real, Abs(prev) as real);
            (q.Finite? <==> prev != 0) &&
            (prev == 0 ==> q == (if next > 0 then PlusInfinity else if next < 0 then MinusInfinity else NotANumber))
  {
  }

  // ----- the ranking in __main__ -----

  /** `cat = [(lags[i], corr[i]) for i in range(2r + 1)]` with `lags = range(-r, r + 1)`; None is the IndexError. */
  function LagPairs(lagRange: nat, corrs: seq<real>): (r: Option<seq<(int, real)>>)
    ensures r.Some? <==> |corrs| >= 2 * lagRange + 1
    ensures r.Some? ==> |r.value| == 2 * lagRange + 1 &&
                        forall i :: 0 <= i < |r.value| ==> r.value[i] == (i - lagRange, corrs[i])
  {
    if |corrs| < 2 * lagRange + 1 then None
    else Some(seq(2 * lagRange + 1, i requires 0 <= i < 2 * lagRange + 1 => (i - lagRange, corrs[i])))
  }

  /** The sort key: the correlation's absolute value. */
  function Strength(p: (int, real)): real
  {
    AbsReal(p.1)
  }

  predicate ByStrength(s: seq<(int, real)>)
  {
    forall i, j :: 0 <= i < j < |s| ==> Strength(s[i]) >= Strength(s[j])
  }

  /** Insert into a list ordered strongest first, ahead of every pair no stronger (so earlier pairs stay first among ties). */
  function InsertByStrength(x: (int, real), s: seq<(int, real)>): (r: seq<(int, real)>)
    requires ByStrength(s)
    ensures ByStrength(r)
    ensures multiset(r) == multiset(s) + multiset{x}
  {
    if s == [] || Strength(x) >= Strength(s[0]) then [x] + s
    else
      var rest := InsertByStrength(x, s[1..]);
      assert s == [s[0]] + s[1..];
      assert forall k :: 0 <= k < |rest| ==> Strength(s[0]) >= Strength(rest[k]) by {
        forall k | 0 <= k < |rest| ensures Strength(s[0]) >= Strength(rest[k]) {
          assert rest[k] in multiset(rest);
          if rest[k] != x {
            assert rest[k] in multiset(s[1..]);
          }
        }
      }
      [s[0]] + rest
  }

  /** `sorted(cat, key=lambda x: abs(x[1]), reverse=True)`. */
  function RankByStrength(s: seq<(int, real)>): (r: seq<(int, real)>)
    ensures ByStrength(r)
    ensures multiset(r) == multiset(s)
  {
    if s == [] then []
    else
      assert s == [s[0]] + s[1..];
      InsertByStrength(s[0], RankByStrength(s[1..]))
  }

  /** The pairs of strength `v`, in their order in `s`. */
  function WithStrength(s: seq<(int, real)>, v: real): seq<(int, real)>
  {
    if s == [] then [] else (if Strength(s[0]) == v then [s[0]] else []) + WithStrength(s[1..], v)
  }

  /** Inserting `x` puts it ahead of every pair of its own strength and moves no other pair of that strength. */
  lemma {:induction false} InsertByStrengthStable(x: (int, real), s: seq<(int, real)>, v: real)
    requires ByStrength(s)
    ensures WithStrength(InsertByStrength(x, s), v) ==
            (if Strength(x) == v then [x] else []) + WithStrength(s, v)
  {
    var mine := if Strength(x) == v then [x] else [];
    if s != [] && Strength(x) < Strength(s[0]) {
      assert ByStrength(s[1..]) by {
        assert forall k :: 0 <= k < |s| - 1 ==> s[1..][k] == s[k + 1];
      }
      InsertByStrengthStable(x, s[1..], v);
      var rest := InsertByStrength(x, s[1..]);
      var first := if Strength(s[0]) == v then [s[0]] else [];
      assert InsertByStrength(x, s) == [s[0]] + rest;
      assert ([s[0]] + rest)[1..] == rest;
      assert WithStrength(InsertByStrength(x, s), v) == first + (mine + WithStrength(s[1..], v));
      var tail := WithStrength(s[1..], v);
      if first == [] {
        assert first + (mine + tail) == mine + tail;
        assert first + tail == tail;
      } else {
        assert mine == [];
        assert mine + tail == tail;
        assert mine + (first + tail) == first + tail;
      }
    } else {
      assert InsertByStrength(x, s) == [x] + s;
      assert ([x] + s)[1..] == s;
    }
  }

  /**
   * Python's sort is stable, also with `reverse=True`: pairs of equal
   * strength keep their input order in the ranking.
   */
  lemma {:induction false} RankByStrengthStable(s: seq<(int, real)>, v: real)
    ensures WithStrength(RankByStrength(s), v) == WithStrength(s, v)
  {
    if s != [] {
      RankByStrengthStable(s[1..], v);
      InsertByStrengthStable(s[0], RankByStrength(s[1..]), v);
    }
  }

  /**
   * The printed ranking of `autocorr_range`'s output: every lag from -r to r
   * appears once with its own correlation, strongest first.
   */
  lemma RankingOfLags(a: seq<real>, b: seq<real>, lagRange: nat, corr: Coefficient)
    ensures var corrs := AutocorrRange(a, b, lagRange, corr);
            var cat := LagPairs(lagRange, corrs);
            cat.Some? &&
            ByStrength(RankByStrength(cat.value)) &&
            multiset(RankByStrength(cat.value)) ==
              multiset(seq(2 * lagRange + 1, i requires 0 <= i < 2 * lagRange + 1 =>
                             (i - lagRange, LagCorrelation(a, b, i - lagRange, corr))))
  {
    var corrs := AutocorrRange(a, b, lagRange, corr);
    AutocorrRangeLags(a, b, lagRange, corr);
    var cat := LagPairs(lagRange, corrs).value;
    var want := seq(2 * lagRange + 1, i requires 0 <= i < 2 * lagRange + 1 =>
                      (i - lagRange, LagCorrelation(a, b, i - lagRange, corr)));
    assert cat == want;
  }
}
