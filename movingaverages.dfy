/**
 * utils/movingaverages.py: reading a price table, the simple moving average,
 * the crossover stance and the trade simulation it drives, and buy-and-hold.
 */
module MovingAverages {
  import opened Base
  import opened Seqs
  import Text
  import opened CsvRows

  // ----- read_file -----

  /** `column_map`: the column index of each field. */
  datatype ColumnMap = ColumnMap(date: nat, open: nat, high: nat, low: nat, close: nat, volume: nat)

  /** The six columns `read_file` returns. */
  datatype PriceTable = PriceTable(date: seq<real>, open: seq<real>, high: seq<real>,
                                   low: seq<real>, close: seq<real>, volume: seq<real>)

  /** The library conversions: `strpdate2num(dt_format)` and `float()`; None when they raise. */
  datatype Readers = Readers(parseDate: string -> Option<real>, parseFloat: string -> Option<real>)

  /** `datefix`: every 'v' becomes '/', so 01v02v2018 reads as 01/02/2018. */
  function Datefix(d: string): (r: string)
    ensures |r| == |d|
    ensures forall k :: 0 <= k < |r| ==> r[k] != 'v'
    ensures forall k :: 0 <= k < |r| && d[k] != 'v' ==> r[k] == d[k]
  {
    Text.ReplaceChar(d, 'v', '/')
  }

  /** `read_file` on the rows the csv reader produced. */
  function ReadFile(data: seq<seq<string>>, cols: ColumnMap, header: bool, reverse: bool, numRows: int,
                    rd: Readers): (r: Result<PriceTable, ReadError>)
    ensures r.Ok? ==>
              var n := |SelectRows(data, header, reverse, numRows)|;
              n > 0 && |r.value.date| == n && |r.value.open| == n && |r.value.high| == n &&
              |r.value.low| == n && |r.value.close| == n && |r.value.volume| == n
  {
    var rows := SelectRows(data, header, reverse, numRows);
    var date :- ReadColumn(rows, cols.date, d => rd.parseDate(Datefix(d)));
    var open :- ReadColumn(rows, cols.open, rd.parseFloat);
    var high :- ReadColumn(rows, cols.high, rd.parseFloat);
    var low :- ReadColumn(rows, cols.low, rd.parseFloat);
    var close :- ReadColumn(rows, cols.close, rd.parseFloat);
    var volume :- ReadColumn(rows, cols.volume, rd.parseFloat);
    Ok(PriceTable(date, open, high, low, close, volume))
  }

  /** Each cell of the selected rows converts. */
  predicate Converts(rows: seq<seq<string>>, j: nat, convert: string -> Option<real>)
  {
    forall i :: 0 <= i < |rows| ==> j < |rows[i]| && convert(rows[i][j]).Some?
  }

  /**
   * `read_file` succeeds exactly when some row is selected, the selected rows
   * are equally long and every one has each mapped field in a convertible form; then every column has one
   * entry per selected row, the date read after `datefix` and the prices with `float()`.
   */
  lemma ReadFileRows(data: seq<seq<string>>, cols: ColumnMap, header: bool, reverse: bool, numRows: int, rd: Readers)
    ensures var rows := SelectRows(data, header, reverse, numRows);
            var dateOf := (d: string) => rd.parseDate(Datefix(d));
            var r := ReadFile(data, cols, header, reverse, numRows, rd);
            (r.Ok? <==> rows != [] && Rectangular(rows) && Converts(rows, cols.date, dateOf) && Converts(rows, cols.open, rd.parseFloat) &&
                        Converts(rows, cols.high, rd.parseFloat) && Converts(rows, cols.low, rd.parseFloat) &&
                        Converts(rows, cols.close, rd.parseFloat) && Converts(rows, cols.volume, rd.parseFloat)) &&
            (r.Ok? ==> |r.value.date| == |rows| && |r.value.open| == |rows| && |r.value.high| == |rows| &&
                       |r.value.low| == |rows| && |r.value.close| == |rows| && |r.value.volume| == |rows| &&
                       forall i :: 0 <= i < |rows| ==>
                         dateOf(rows[i][cols.date]) == Some(r.value.date[i]) &&
                         rd.parseFloat(rows[i][cols.open]) == Some(r.value.open[i]) &&
                         rd.parseFloat(rows[i][cols.high]) == Some(r.value.high[i]) &&
                         rd.parseFloat(rows[i][cols.low]) == Some(r.value.low[i]) &&
                         rd.parseFloat(rows[i][cols.close]) == Some(r.value.close[i]) &&
                         rd.parseFloat(rows[i][cols.volume]) == Some(r.value.volume[i]))
  {
    var rows := SelectRows(data, header, reverse, numRows);
    var dateOf := (d: string) => rd.parseDate(Datefix(d));
    ReadColumnIff(rows, cols.date, dateOf);
    ReadColumnIff(rows, cols.open, rd.parseFloat);
    ReadColumnIff(rows, cols.high, rd.parseFloat);
    ReadColumnIff(rows, cols.low, rd.parseFloat);
    ReadColumnIff(rows, cols.close, rd.parseFloat);
    ReadColumnIff(rows, cols.volume, rd.parseFloat);
  }

  // ----- moving_average -----

  /** One output of a convolution: the sum of `a[k] * v[len(v) - 1 - k]`, the kernel read backwards. */
  function Convolved(a: seq<real>, v: seq<real>): real
    requires |a| == |v|
  {
    if a == [] then 0.0 else a[0] * v[|v| - 1] + Convolved(a[1..], v[..|v| - 1])
  }

  /** `np.repeat(x, n)`. */
  function Repeat(x: real, n: nat): (r: seq<real>)
    ensures |r| == n && forall k :: 0 <= k < n ==> r[k] == x
  {
    seq(n, _ => x)
  }

  /** `np.convolve(a, v, 'valid')` for `len(a) >= len(v)`: the kernel slides over `a`, reversed. */
  function Slide(a: seq<real>, v: seq<real>): (r: seq<real>)
    requires 1 <= |v| <= |a|
    ensures |r| == |a| - |v| + 1
  {
    seq(|a| - |v| + 1, i requires 0 <= i <= |a| - |v| => Convolved(a[i..i + |v|], v))
  }

  /** `np.convolve(a, v, 'valid')`: numpy swaps the operands when `v` is the longer. */
  function ValidConvolve(a: seq<real>, v: seq<real>): (r: seq<real>)
    requires a != [] && v != []
    ensures |r| == if |a| >= |v| then |a| - |v| + 1 else |v| - |a| + 1
  {
    if |a| >= |v| then Slide(a, v) else Slide(v, a)
  }

  /** Why `moving_average` raises: `np.repeat` with a negative count, or `np.convolve` with an empty operand. */
  datatype AverageError = NegativeWindow | EmptyOperand

  /** `moving_average(values, window)`: the 'valid' convolution with `window` weights of `1/window`. */
  function MovingAverage(values: seq<real>, window: int): (r: Result<seq<real>, AverageError>)
    ensures r.Err? <==> window <= 0 || values == []
    ensures window < 0 ==> r == Err(NegativeWindow)
  {
    if window < 0 then Err(NegativeWindow)
    else if window == 0 || values == [] then Err(EmptyOperand)
    else Ok(ValidConvolve(values, Repeat(1.0 / (window as real), window)))
  }

  /** Against a constant kernel, a convolution output is the window's sum times the constant. */
  lemma {:induction false} ConvolvedConstantKernel(a: seq<real>, v: seq<real>, c: real)
    requires |a| == |v| && forall k :: 0 <= k < |v| ==> v[k] == c
    ensures Convolved(a, v) == Sum(a) * c
  {
    if a != [] {
      ConvolvedConstantKernel(a[1..], v[..|v| - 1], c);
    }
  }

  /** With the operands swapped, a constant window gives the kernel's sum times the constant. */
  lemma {:induction false} ConvolvedConstantWindow(a: seq<real>, v: seq<real>, c: real)
    requires |a| == |v| && forall k :: 0 <= k < |a| ==> a[k] == c
    ensures Convolved(a, v) == Sum(v) * c
  {
    if a != [] {
      var init := v[..|v| - 1];
      ConvolvedConstantWindow(a[1..], init, c);
      assert init + [v[|v| - 1]] == v;
      SumSnoc(init, v[|v| - 1]);
    }
  }

  /** A sum times `1/n` is the sum divided by `n`. */
  lemma ScaleIsDivide(total: real, n: nat)
    requires n >= 1
    ensures total * (1.0 / (n as real)) == total / (n as real)
  {
  }

  /** A window convolved with `window` weights of `1/window` is its mean. */
  lemma WindowMean(x: seq<real>, weights: seq<real>, window: nat)
    requires |x| == window >= 1 && weights == Repeat(1.0 / (window as real), window)
    ensures Convolved(x, weights) == Mean(x)
  {
    ConvolvedConstantKernel(x, weights, 1.0 / (window as real));
    ScaleIsDivide(Sum(x), window);
  }

  /**
   * With `1 <= window <= len(values)` there are `len(values) - window + 1`
   * averages, and average i is the mean of `values[i .. i + window)`.
   */
  lemma MovingAverageWindows(values: seq<real>, window: nat)
    requires 1 <= window <= |values|
    ensures MovingAverage(values, window).Ok?
    ensures var r := MovingAverage(values, window).value;
            |r| == |values| - window + 1 &&
            forall i :: 0 <= i < |r| ==> r[i] == Mean(values[i..i + window])
  {
    var c := 1.0 / (window as real);
    var r := MovingAverage(values, window).value;
    assert r == Slide(values, Repeat(c, window));
    forall i | 0 <= i < |r| ensures r[i] == Mean(values[i..i + window]) {
      WindowMean(values[i..i + window], Repeat(c, window), window);
    }
  }

  /**
   * With a window longer than the values, numpy swaps the operands: there are
   * `window - len(values) + 1` entries, each `sum(values) / window`.
   */
  lemma MovingAverageLongWindow(values: seq<real>, window: nat)
    requires 1 <= |values| < window
    ensures MovingAverage(values, window).Ok?
    ensures var r := MovingAverage(values, window).value;
            |r| == window - |values| + 1 &&
            forall i :: 0 <= i < |r| ==> r[i] == Sum(values) / (window as real)
  {
    var c := 1.0 / (window as real);
    assert MovingAverage(values, window).value == Slide(Repeat(c, window), values);
    SwappedConstantWindows(values, window, c);
    ScaleIsDivide(Sum(values), window);
  }

  /** Sliding a constant window of `c`s over shorter values gives their sum times `c` at every offset. */
  lemma SwappedConstantWindows(values: seq<real>, window: nat, c: real)
    requires 1 <= |values| <= window
    ensures var r := Slide(Repeat(c, window), values);
            |r| == window - |values| + 1 && forall i :: 0 <= i < |r| ==> r[i] == Sum(values) * c
  {
    var r := Slide(Repeat(c, window), values);
    forall i | 0 <= i < |r| ensures r[i] == Sum(values) * c {
      var x := Repeat(c, window)[i..i + |values|];
      assert r[i] == Convolved(x, values);
      ConvolvedConstantWindow(x, values, c);
    }
  }

  // ----- simulate_moving_average -----

  /** `ma_type`: the two accepted kinds of moving average. */
  datatype MaKind = Simple | Exponential

  /** `ValueError('ma_type must be either "simple" or "exponential", ...')`. */
  datatype SimulationError = UnknownMaType(name: string) | MissingFirstRow

  /** The `ma_type` check shared by `graph_moving_averages` and `simulate_moving_average`. */
  function ParseMaType(name: string): (r: Result<MaKind, SimulationError>)
    ensures r.Ok? <==> name == "simple" || name == "exponential"
    ensures r.Ok? ==> (r.value == Simple <==> name == "simple")
    ensures r.Err? ==> r.error == UnknownMaType(name)
  {
    if name == "simple" then Ok(Simple)
    else if name == "exponential" then Ok(Exponential)
    else Err(UnknownMaType(name))
  }

  /** `mas - mab` for one row; None stands for NaN (a rolling mean that is not yet defined). */
  function Diff(short: Option<real>, long: Option<real>): Option<real>
  {
    if short.Some? && long.Some? then Some(short.value - long.value) else None
  }

  /** The two `np.where` lines: 1 above the zero threshold, -1 below, 0 otherwise (NaN included). */
  function Stance(diff: Option<real>): (s: int)
    ensures -1 <= s <= 1
    ensures s == 0 <==> diff.None? || diff.value == 0.0
    ensures diff.Some? ==> (s as real) * diff.value >= 0.0
  {
    if diff.Some? && diff.value > 0.0 then 1
    else if diff.Some? && diff.value < 0.0 then -1
    else 0
  }

  /** The `Stance` column. */
  function Stances(short: seq<Option<real>>, long: seq<Option<real>>): (r: seq<int>)
    requires |short| == |long|
    ensures |r| == |short|
  {
    seq(|short|, i requires 0 <= i < |short| => Stance(Diff(short[i], long[i])))
  }

  /** `Stance.diff()`: NaN (None) first, then the change from the previous row. */
  function StanceDiffs(st: seq<int>): (r: seq<Option<int>>)
    ensures |r| == |st|
  {
    if st == [] then [] else [None] + seq(|st| - 1, i requires 0 <= i < |st| - 1 => Some(st[i + 1] - st[i]))
  }

  /**
   * Each stance is -1, 0 or 1, so each stance change lies in -2..2; it is 2
   * exactly on a jump from -1 to 1, and -2 exactly on a jump from 1 to -1.
   */
  lemma StanceDiffRange(short: seq<Option<real>>, long: seq<Option<real>>, i: nat)
    requires |short| == |long| && 1 <= i < |short|
    ensures var st := Stances(short, long);
            var sd := StanceDiffs(st);
            -1 <= st[i] <= 1 && sd[i].Some? && -2 <= sd[i].value <= 2 &&
            (sd[i] == Some(2) <==> st[i - 1] == -1 && st[i] == 1) &&
            (sd[i] == Some(-2) <==> st[i - 1] == 1 && st[i] == -1)
  {
    var st := Stances(short, long);
    assert StanceDiffs(st)[i] == Some(st[i] - st[i - 1]);
  }

  /** The state of the trade loop: `earnings` and `waiting_to_sell`. */
  datatype Holding = Holding(earnings: real, waitingToSell: bool)

  /** One day of the loop: sell coins on -2 while holding them, buy back on 2 while holding cash. */
  function TradeStep(h: Holding, sd: Option<int>, price: real): Holding
    requires price != 0.0
  {
    if sd == Some(-2) && h.waitingToSell then Holding(h.earnings * price, false)
    else if sd == Some(2) && !h.waitingToSell then Holding(h.earnings / price, true)
    else h
  }

  /** Nonzero prices: the model's stand-in for numpy's division yielding `inf`. */
  predicate NonZero(prices: seq<real>)
  {
    forall i :: 0 <= i < |prices| ==> prices[i] != 0.0
  }

  /** The loop over `enumerate(df['Stance Diff'])`. */
  function TradeRun(h: Holding, sds: seq<Option<int>>, prices: seq<real>): Holding
    requires |sds| == |prices| && NonZero(prices)
    decreases |sds|
  {
    if sds == [] then h else TradeRun(TradeStep(h, sds[0], prices[0]), sds[1..], prices[1..])
  }

  /** At positive prices the loop never takes non-negative earnings below zero. */
  lemma {:induction false} TradeRunNonNegative(h: Holding, sds: seq<Option<int>>, prices: seq<real>)
    requires |sds| == |prices| && Positive(prices) && h.earnings >= 0.0
    decreases |sds|
    ensures TradeRun(h, sds, prices).earnings >= 0.0
  {
    if sds != [] {
      assert Positive(prices[1..]) by {
        assert forall i :: 0 <= i < |prices| - 1 ==> prices[1..][i] == prices[i + 1];
      }
      TradeRunNonNegative(TradeStep(h, sds[0], prices[0]), sds[1..], prices[1..]);
    }
  }

  /** Prices above zero, as quotes are. */
  predicate Positive(prices: seq<real>)
  {
    forall i :: 0 <= i < |prices| ==> prices[i] > 0.0
  }

  /**
   * The ending investment: start in coins at the first price, cash out at the
   * last if still in coins. Trading at positive prices never goes below zero.
   */
  function Simulated(prices: seq<real>, sds: seq<Option<int>>, investment: int): (r: real)
    requires |sds| == |prices| && prices != [] && NonZero(prices)
    ensures Positive(prices) && investment >= 0 ==> r >= 0.0
  {
    var start := Holding(investment as real / prices[0], true);
    var h := TradeRun(start, sds, prices);
    assert Positive(prices) && investment >= 0 ==> h.earnings >= 0.0 by {
      if Positive(prices) && investment >= 0 {
        TradeRunNonNegative(start, sds, prices);
      }
    }
    if h.waitingToSell then h.earnings * prices[|prices| - 1] else h.earnings
  }

  lemma TradeRunSnoc(h: Holding, sds: seq<Option<int>>, prices: seq<real>, i: nat)
    requires |sds| == |prices| && NonZero(prices) && i < |sds|
    ensures TradeRun(h, sds[i..], prices[i..]) == TradeRun(TradeStep(h, sds[i], prices[i]), sds[i + 1..], prices[i + 1..])
  {
    assert sds[i..][1..] == sds[i + 1..];
    assert prices[i..][1..] == prices[i + 1..];
  }

  /** One day of the trade loop: sell on -2 while in coins, buy back on 2 while in dollars. */
  method TradeDay(earnings: real, waitingToSell: bool, sd: Option<int>, price: real)
    returns (newEarnings: real, nowWaitingToSell: bool)
    requires price != 0.0
    ensures Holding(newEarnings, nowWaitingToSell) == TradeStep(Holding(earnings, waitingToSell), sd, price)
  {
    newEarnings, nowWaitingToSell := earnings, waitingToSell;
    if sd == Some(-2) && waitingToSell {
      newEarnings := earnings * price;
      nowWaitingToSell := false;
    } else if sd == Some(2) && !waitingToSell {
      newEarnings := earnings / price;
      nowWaitingToSell := true;
    }
  }

  /** The trade loop of `simulate_moving_average`. */
  method TradeLoop(prices: seq<real>, sds: seq<Option<int>>, investment: int) returns (earnings: real)
    requires |sds| == |prices| && prices != [] && NonZero(prices)
    ensures earnings == Simulated(prices, sds, investment)
  {
    earnings := investment as real / prices[0];
    var waitingToSell := true;
    ghost var final := TradeRun(Holding(earnings, waitingToSell), sds, prices);
    var day := 0;
    while day < |sds|
      invariant 0 <= day <= |sds|
      invariant TradeRun(Holding(earnings, waitingToSell), sds[day..], prices[day..]) == final
    {
      TradeRunSnoc(Holding(earnings, waitingToSell), sds, prices, day);
      earnings, waitingToSell := TradeDay(earnings, waitingToSell, sds[day], prices[day]);
      day := day + 1;
    }
    assert sds[day..] == [] && prices[day..] == [];
    assert Holding(earnings, waitingToSell) == final;
    if waitingToSell {
      earnings := earnings * prices[|prices| - 1];
    }
  }

  /**
   * `simulate_moving_average` on a price column and the two rounded moving
   * averages (`mas`, `mab`), which the model takes as given: the `ma_type`
   * check, the stance, and the trade loop.
   */
  method SimulateMovingAverage(prices: seq<real>, short: seq<Option<real>>, long: seq<Option<real>>,
                               investment: int, maType: string) returns (r: Result<real, SimulationError>)
    requires |short| == |prices| && |long| == |prices| && NonZero(prices)
    ensures ParseMaType(maType).Err? ==> r == Err(UnknownMaType(maType))
    ensures ParseMaType(maType).Ok? && prices == [] ==> r == Err(MissingFirstRow)
    ensures ParseMaType(maType).Ok? && prices != [] ==>
              r == Ok(Simulated(prices, StanceDiffs(Stances(short, long)), investment))
  {
    var kind := ParseMaType(maType);
    if kind.Err? {
      return Err(kind.error);
    }
    if prices == [] {
      return Err(MissingFirstRow);
    }
    var sds := StanceDiffs(Stances(short, long));
    var earnings := TradeLoop(prices, sds, investment);
    return Ok(earnings);
  }

  /** How `buy_and_hold` raises: `df[column][0]` on an empty frame, or `investment / start` at a zero start. */
  datatype HoldError = NoFirstRow | ZeroStart

  /** `buy_and_hold`: buy at the first price, value at the last. */
  function BuyAndHold(prices: seq<real>, investment: int): (r: Result<real, HoldError>)
    ensures prices == [] ==> r == Err(NoFirstRow)
    ensures prices != [] ==> (r == Err(ZeroStart) <==> prices[0] == 0.0)
    ensures r.Ok? ==> r.value * prices[0] == investment as real * prices[|prices| - 1]
    ensures r.Ok? && prices[|prices| - 1] == prices[0] ==> r.value == investment as real
  {
    if prices == [] then Err(NoFirstRow)
    else if prices[0] == 0.0 then Err(ZeroStart)
    else Ok((investment as real / prices[0]) * prices[|prices| - 1])
  }

  /** Without a -2 signal nothing is ever sold, so nothing is ever bought back either. */
  lemma {:induction false} NoSellKeepsHolding(h: Holding, sds: seq<Option<int>>, prices: seq<real>)
    requires |sds| == |prices| && NonZero(prices) && h.waitingToSell
    requires forall i :: 0 <= i < |sds| ==> sds[i] != Some(-2)
    ensures TradeRun(h, sds, prices) == h
    decreases |sds|
  {
    if sds != [] {
      assert forall i :: 0 <= i < |sds| - 1 ==> sds[1..][i] == sds[i + 1];
      NoSellKeepsHolding(h, sds[1..], prices[1..]);
    }
  }

  /** If no stance change equals -2, the simulation ends where buy-and-hold does. */
  lemma NoSellIsBuyAndHold(prices: seq<real>, sds: seq<Option<int>>, investment: int)
    requires |sds| == |prices| && prices != [] && NonZero(prices)
    requires forall i :: 0 <= i < |sds| ==> sds[i] != Some(-2)
    ensures BuyAndHold(prices, investment) == Ok(Simulated(prices, sds, investment))
  {
    var start := Holding(investment as real / prices[0], true);
    NoSellKeepsHolding(start, sds, prices);
    var simulated := Simulated(prices, sds, investment);
    assert simulated == start.earnings * prices[|prices| - 1];
    BuyAndHoldValue(prices, investment, simulated);
  }

  /** At a nonzero start, buy_and_hold's value is the investment over the first price, times the last. */
  lemma BuyAndHoldValue(prices: seq<real>, investment: int, value: real)
    requires prices != [] && prices[0] != 0.0
    requires value == (investment as real / prices[0]) * prices[|prices| - 1]
    ensures BuyAndHold(prices, investment) == Ok(value)
  {
  }

  /** The trades the loop makes, in order: true for coins to cash (sell), false for cash to coins (buy). */
  function Trades(waitingToSell: bool, sds: seq<Option<int>>): seq<bool>
    decreases |sds|
  {
    if sds == [] then []
    else if sds[0] == Some(-2) && waitingToSell then [true] + Trades(false, sds[1..])
    else if sds[0] == Some(2) && !waitingToSell then [false] + Trades(true, sds[1..])
    else Trades(waitingToSell, sds[1..])
  }

  /** `t` alternates, starting with `first`. */
  predicate Alternating(t: seq<bool>, first: bool)
  {
    forall i :: 0 <= i < |t| ==> t[i] == ((i % 2 == 0) == first)
  }

  /** Trades alternate, the first one a sell exactly when the loop starts in coins. */
  lemma {:induction false} TradesAlternateFrom(waitingToSell: bool, sds: seq<Option<int>>)
    ensures Alternating(Trades(waitingToSell, sds), waitingToSell)
    decreases |sds|
  {
    if sds != [] {
      var t := Trades(waitingToSell, sds);
      if (sds[0] == Some(-2) && waitingToSell) || (sds[0] == Some(2) && !waitingToSell) {
        TradesAlternateFrom(!waitingToSell, sds[1..]);
        var rest := Trades(!waitingToSell, sds[1..]);
        assert t == [waitingToSell] + rest;
        forall i | 0 <= i < |t| ensures t[i] == ((i % 2 == 0) == waitingToSell) {
          if i > 0 {
            assert t[i] == rest[i - 1];
            assert ((i - 1) % 2 == 0) == (i % 2 != 0);
          }
        }
      } else {
        TradesAlternateFrom(waitingToSell, sds[1..]);
        assert t == Trades(waitingToSell, sds[1..]);
      }
    }
  }

  /** Every trade flips the holding, so the loop ends in coins exactly when the trade count has the right parity. */
  lemma {:induction false} TradeRunParity(h: Holding, sds: seq<Option<int>>, prices: seq<real>)
    requires |sds| == |prices| && NonZero(prices)
    ensures TradeRun(h, sds, prices).waitingToSell == ((|Trades(h.waitingToSell, sds)| % 2 == 0) == h.waitingToSell)
    decreases |sds|
  {
    if sds != [] {
      var next := TradeStep(h, sds[0], prices[0]);
      assert NonZero(prices[1..]) by {
        assert forall i :: 0 <= i < |sds| - 1 ==> prices[1..][i] == prices[i + 1];
      }
      TradeRunParity(next, sds[1..], prices[1..]);
      assert TradeRun(h, sds, prices) == TradeRun(next, sds[1..], prices[1..]);
      var rest := Trades(next.waitingToSell, sds[1..]);
      if next.waitingToSell != h.waitingToSell {
        assert |Trades(h.waitingToSell, sds)| == |rest| + 1;
      } else {
        assert Trades(h.waitingToSell, sds) == rest;
      }
    }
  }

  /**
   * Trades alternate, starting with a sell when starting in coins; and the
   * loop ends in coins exactly when it made an even number of trades.
   */
  lemma TradesAlternate(h: Holding, sds: seq<Option<int>>, prices: seq<real>)
    requires |sds| == |prices| && NonZero(prices)
    ensures var t := Trades(h.waitingToSell, sds);
            (forall i :: 0 <= i < |t| ==> t[i] == ((i % 2 == 0) == h.waitingToSell)) &&
            TradeRun(h, sds, prices).waitingToSell == ((|t| % 2 == 0) == h.waitingToSell)
  {
    TradesAlternateFrom(h.waitingToSell, sds);
    TradeRunParity(h, sds, prices);
  }
}
