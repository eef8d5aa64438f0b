/**
 * The Go moving-average trader: a fixed-capacity ring buffer that averages the most
 * recent prices, the crossover rule that turns two such averages into buy and sell
 * recommendations, and the dummy wallet that carries them out.
 */
module BtcPredictor {
  import opened Base
  import opened Seqs

  // ----- ring arithmetic -----

  lemma MulAtLeast(d: int, w: nat)
    requires w >= 1
    ensures d >= 1 ==> d * w >= w
    ensures d <= 0 ==> d * w <= 0
  {
  }

  /** A quotient and remainder that add up to `a` are the Euclidean ones. */
  lemma ModUnique(a: int, w: nat, q: int, r: int)
    requires w >= 1 && 0 <= r < w && a == q * w + r
    ensures a % w == r
  {
    var q0, r0 := a / w, a % w;
    assert a == q0 * w + r0;
    assert (q - q0) * w == r0 - r;
    MulAtLeast(q - q0, w);
    MulAtLeast(q0 - q, w);
  }

  lemma ModSmall(a: nat, w: nat)
    requires a < w
    ensures a % w == a
  {
    ModUnique(a, w, 0, a);
  }

  /** The Euclidean remainder of one step forward. */
  lemma ModSucc(n: nat, w: nat)
    requires w >= 1
    ensures (n + 1) % w == if n % w + 1 == w then 0 else n % w + 1
  {
    var q := n / w;
    assert n == q * w + n % w;
    if n % w + 1 == w {
      assert n + 1 == (q + 1) * w + 0;
      ModUnique(n + 1, w, q + 1, 0);
    } else {
      ModUnique(n + 1, w, q, n % w + 1);
    }
  }

  /** Go's `(valPos + 1) % Window` for a position inside the ring. */
  lemma ModStep(v: nat, w: nat)
    requires v < w
    ensures (v + 1) % w == if v + 1 == w then 0 else v + 1
  {
    if v + 1 == w {
      ModUnique(v + 1, w, 1, 0);
    } else {
      ModSmall(v + 1, w);
    }
  }

  /** Positions fewer than `w` apart fall in different slots. */
  lemma ModDistinct(a: nat, k: nat, w: nat)
    requires 0 < k < w && k <= a
    ensures (a - k) % w != a % w
  {
    var q1, q2 := (a - k) / w, a / w;
    assert a - k == q1 * w + (a - k) % w;
    assert a == q2 * w + a % w;
    if (a - k) % w == a % w {
      assert k == (q2 - q1) * w;
      MulAtLeast(q2 - q1, w);
    }
  }

  /** Positions exactly `w` apart share a slot. */
  lemma ModPeriod(a: nat, w: nat)
    requires w >= 1 && a >= w
    ensures (a - w) % w == a % w
  {
    var q := a / w;
    assert a == q * w + a % w;
    assert a - w == (q - 1) * w + a % w;
    ModUnique(a - w, w, q - 1, a % w);
  }

  // ----- the buffer's abstract contents -----

  /** The slots after each value of `h` has been written at the next position, wrapping round. */
  function RingOf(h: seq<real>, w: nat): (r: seq<real>)
    requires w >= 1
    ensures |r| == w
  {
    if h == [] then seq(w, _ => 0.0)
    else RingOf(h[..|h| - 1], w)[(|h| - 1) % w := h[|h| - 1]]
  }

  lemma RingOfSnoc(h: seq<real>, x: real, w: nat)
    requires w >= 1
    ensures RingOf(h + [x], w) == RingOf(h, w)[|h| % w := x]
  {
    assert (h + [x])[..|h|] == h;
  }

  /** The last `w` values added, or all of them while fewer have been added. */
  function Recent(h: seq<real>, w: nat): (r: seq<real>)
    ensures |r| == if |h| <= w then |h| else w
  {
    if |h| <= w then h else h[|h| - w..]
  }

  /** The last `w` values sit in the slots they were written to; unwritten slots hold 0. */
  predicate RingHolds(h: seq<real>, w: nat)
    requires w >= 1
  {
    && (forall i :: 0 <= i < |h| && |h| - w <= i ==> RingOf(h, w)[i % w] == h[i])
    && (forall j :: |h| <= j < w ==> RingOf(h, w)[j] == 0.0)
  }

  lemma {:induction false} RingFacts(h: seq<real>, w: nat)
    requires w >= 1
    decreases |h|
    ensures RingHolds(h, w)
  {
    if h != [] {
      var n := |h|;
      var h0 := h[..n - 1];
      RingFacts(h0, w);
      var p := (n - 1) % w;
      var ring0 := RingOf(h0, w);
      assert RingOf(h, w) == ring0[p := h[n - 1]];
      forall i | 0 <= i < n && n - w <= i ensures RingOf(h, w)[i % w] == h[i] {
        if i < n - 1 {
          ModDistinct(n - 1, n - 1 - i, w);
          assert h0[i] == h[i];
        }
      }
      forall j | n <= j < w ensures RingOf(h, w)[j] == 0.0 {
        ModSmall(n - 1, w);
      }
    }
  }

  /** The slot the next value goes to holds the value it evicts, or 0 while the ring is filling. */
  lemma RingEvicted(h: seq<real>, w: nat)
    requires w >= 1
    ensures RingOf(h, w)[|h| % w] == if |h| >= w then h[|h| - w] else 0.0
  {
    RingFacts(h, w);
    if |h| >= w {
      ModPeriod(|h|, w);
      assert RingOf(h, w)[(|h| - w) % w] == h[|h| - w];
    } else {
      ModSmall(|h|, w);
    }
  }

  /** One more value adds to the recent sum, less the value that falls out of the window. */
  lemma RecentSumStep(h: seq<real>, w: nat, x: real)
    requires w >= 1
    ensures Sum(Recent(h + [x], w)) == Sum(Recent(h, w)) - (if |h| >= w then h[|h| - w] else 0.0) + x
  {
    var n := |h|;
    if n < w {
      assert Recent(h + [x], w) == h + [x];
      SumSnoc(h, x);
    } else {
      RecentSumSlide(h, w, x);
    }
  }

  lemma RecentSumSlide(h: seq<real>, w: nat, x: real)
    requires 1 <= w <= |h|
    ensures Sum(Recent(h + [x], w)) == Sum(Recent(h, w)) - h[|h| - w] + x
  {
    var tail := h[|h| - w + 1..];
    assert Recent(h, w) == [h[|h| - w]] + tail;
    assert Recent(h + [x], w) == tail + [x];
    SumAppend([h[|h| - w]], tail);
    SumSnoc(tail, x);
  }

  /** Summing every slot gives the sum of the most recent `w` values. */
  lemma {:induction false} RingSum(h: seq<real>, w: nat)
    requires w >= 1
    decreases |h|
    ensures Sum(RingOf(h, w)) == Sum(Recent(h, w))
  {
    if h == [] {
      SumConstant(RingOf(h, w), 0.0);
    } else {
      var h0 := h[..|h| - 1];
      var x := h[|h| - 1];
      assert h == h0 + [x];
      RingSum(h0, w);
      RingEvicted(h0, w);
      SumUpdate(RingOf(h0, w), |h0| % w, x);
      RecentSumStep(h0, w, x);
    }
  }

  /** Until the buffer wraps, its first slots are exactly the values added, in order. */
  lemma RingPrefix(h: seq<real>, w: nat)
    requires w >= 1 && |h| < w
    ensures RingOf(h, w)[..|h|] == h
  {
    RingFacts(h, w);
    forall i | 0 <= i < |h| ensures RingOf(h, w)[i] == h[i] {
      ModSmall(i, w);
    }
  }

  // ----- MovingAverage -----

  /** `MovingAverage`: a circular buffer of the last `Window` prices and a fill flag. */
  class MovingAverage {
    const window: nat
    const values: array<real>
    var valPos: int
    var slotsFilled: bool
    /** Every value added so far, oldest first. */
    ghost var history: seq<real>

    ghost predicate Valid()
      reads this, values
    {
      && values.Length == window
      && (window == 0 ==> valPos == 0 && !slotsFilled && history == [])
      && (window >= 1 ==>
            && 0 <= valPos < window
            && valPos == |history| % window
            && (slotsFilled <==> |history| >= window)
            && values[..] == RingOf(history, window))
    }

    /** `NewMA(window)`: `window` zeroed slots, position 0, not yet filled. */
    constructor NewMA(w: nat)
      ensures Valid() && fresh(values)
      ensures window == w && history == []
      ensures values[..] == seq(w, _ => 0.0) && valPos == 0 && !slotsFilled
    {
      window := w;
      values := new real[w](_ => 0.0);
      valPos := 0;
      slotsFilled := false;
      history := [];
    }

    /** `Add`: write the slot at `valPos`, advance it round the ring, note when the ring first fills. */
    method Add(val: real)
      requires Valid() && window >= 1
      modifies this, values
      ensures Valid()
      ensures history == old(history) + [val]
      ensures values[..] == old(values[..])[old(valPos) := val]
      ensures valPos == (old(valPos) + 1) % window
      ensures slotsFilled == (|history| >= window)
      ensures old(slotsFilled) ==> slotsFilled
      ensures slotsFilled && !old(slotsFilled) ==> |history| == window
    {
      ghost var ring := values[..];
      values[valPos] := val;
      assert values[..] == ring[valPos := val];
      ModSucc(|history|, window);
      ModStep(valPos, window);
      if !slotsFilled {
        ModSmall(|history|, window);
      }
      valPos := (valPos + 1) % window;
      if !slotsFilled && valPos == 0 {
        slotsFilled := true;
      }
      RingOfSnoc(history, val, window);
      history := history + [val];
    }

    /** `Avg`: the mean of the filled slots, 0 when nothing has been added. */
    method Avg() returns (avg: real)
      requires Valid()
      ensures avg == Mean(Recent(history, window))
    {
      var c := window - 1;
      if !slotsFilled {
        if window >= 1 {
          ModSmall(|history|, window);
        }
        c := valPos - 1;
        if c < 0 {
          return 0.0;
        }
      }
      SlotsSum(values[..], history, window, c + 1);
      var sum := 0.0;
      var ic := 0;
      var i := 0;
      while i <= c
        invariant 0 <= i <= c + 1 <= values.Length
        invariant ic == i
        invariant sum == Sum(values[..i])
      {
        assert values[..i + 1] == values[..i] + [values[i]];
        SumSnoc(values[..i], values[i]);
        sum := sum + values[i];
        ic := ic + 1;
        i := i + 1;
      }
      avg := sum / (ic as real);
    }
  }

  /** The first `n` slots of the ring hold the recent values' sum, where `n` is the window once full and the history's length before. */
  lemma SlotsSum(slots: seq<real>, h: seq<real>, w: nat, n: nat)
    requires w >= 1 && slots == RingOf(h, w)
    requires 1 <= n <= w && (n == w || n == |h|) && (|h| >= w || n == |h|)
    ensures |Recent(h, w)| == n
    ensures Sum(slots[..n]) == Sum(Recent(h, w))
  {
    if |h| >= w {
      assert slots[..n] == slots;
      RingSum(h, w);
    } else {
      RingPrefix(h, w);
    }
  }

  /** Adding a value appends it to the recent values, dropping the oldest once the window is full. */
  lemma RecentNext(h: seq<real>, w: nat, x: real)
    requires w >= 1
    ensures Recent(h + [x], w) == if |h| < w then Recent(h, w) + [x] else Recent(h, w)[1..] + [x]
  {
  }

  // ----- the crossover rule of Execute -----

  /** `CryptoOutputData`. */
  datatype Recommendation = Recommendation(buy: bool, confidence: real)

  /**
   * One pass of `Execute` after the queue is drained: a positive difference while
   * waiting to sell recommends buying, a negative one while holding recommends selling.
   */
  function Decide(diff: real, waitingToSell: bool): (r: (bool, Option<Recommendation>))
    ensures r.1.Some? <==> (diff > 0.0 && waitingToSell) || (diff < 0.0 && !waitingToSell)
    ensures r.1.Some? ==> r.1.value == Recommendation(waitingToSell, 1.0) && r.0 == !waitingToSell
    ensures r.1.None? ==> r.0 == waitingToSell
  {
    var (w1, buy) := if diff > 0.0 && waitingToSell then (false, Some(Recommendation(true, 1.0))) else (waitingToSell, None);
    if diff < 0.0 && !w1 then (true, Some(Recommendation(false, 1.0))) else (w1, buy)
  }

  /** The recommendations sent for a run of differences, from a given flag. */
  function Recommendations(diffs: seq<real>, waitingToSell: bool): seq<Recommendation>
  {
    if diffs == [] then []
    else
      var (w, rec) := Decide(diffs[0], waitingToSell);
      (if rec.Some? then [rec.value] else []) + Recommendations(diffs[1..], w)
  }

  /** The flag after a run of differences. */
  function FlagAfter(diffs: seq<real>, waitingToSell: bool): bool
  {
    if diffs == [] then waitingToSell else FlagAfter(diffs[1..], Decide(diffs[0], waitingToSell).0)
  }

  /**
   * Recommendations alternate, the first one buying when the loop starts waiting to sell;
   * each carries confidence 1.0, and the flag ends up flipped once per recommendation.
   */
  lemma {:induction false} RecommendationsAlternate(diffs: seq<real>, waitingToSell: bool)
    decreases |diffs|
    ensures var r := Recommendations(diffs, waitingToSell);
      && (forall i :: 0 <= i < |r| ==> r[i].buy == ((i % 2 == 0) == waitingToSell) && r[i].confidence == 1.0)
      && FlagAfter(diffs, waitingToSell) == ((|r| % 2 == 0) == waitingToSell)
  {
    if diffs != [] {
      var (w, rec) := Decide(diffs[0], waitingToSell);
      RecommendationsAlternate(diffs[1..], w);
      var rest := Recommendations(diffs[1..], w);
      if rec.Some? {
        assert Recommendations(diffs, waitingToSell) == [rec.value] + rest;
        forall i | 0 < i <= |rest| ensures ((i - 1) % 2 == 0) == (i % 2 != 0) {
        }
      }
    }
  }

  /** From the initial `waitingToSell == true`, the first recommendation buys. */
  lemma FirstRecommendationBuys(diffs: seq<real>)
    requires Recommendations(diffs, true) != []
    ensures Recommendations(diffs, true)[0].buy
  {
    RecommendationsAlternate(diffs, true);
  }

  /**
   * One pass of `Execute`'s outer loop: every queued price goes into both windows, then
   * the difference of their averages is judged.
   */
  method ExecuteStep(shortWindow: MovingAverage, longWindow: MovingAverage, queued: seq<real>, waitingToSell: bool)
    returns (waiting: bool, rec: Option<Recommendation>)
    requires shortWindow.Valid() && longWindow.Valid() && shortWindow.window >= 1 && longWindow.window >= 1
    requires shortWindow != longWindow && shortWindow.values != longWindow.values
    modifies shortWindow, shortWindow.values, longWindow, longWindow.values
    ensures shortWindow.Valid() && longWindow.Valid()
    ensures shortWindow.history == old(shortWindow.history) + queued
    ensures longWindow.history == old(longWindow.history) + queued
    ensures (waiting, rec) == Decide(Mean(Recent(shortWindow.history, shortWindow.window))
                                     - Mean(Recent(longWindow.history, longWindow.window)), waitingToSell)
  {
    var i := 0;
    while i < |queued|
      invariant 0 <= i <= |queued|
      invariant shortWindow.Valid() && longWindow.Valid()
      invariant shortWindow.history == old(shortWindow.history) + queued[..i]
      invariant longWindow.history == old(longWindow.history) + queued[..i]
    {
      shortWindow.Add(queued[i]);
      longWindow.Add(queued[i]);
      assert queued[..i + 1] == queued[..i] + [queued[i]];
      i := i + 1;
    }
    assert queued[..i] == queued;
    var s := shortWindow.Avg();
    var l := longWindow.Avg();
    var diff := s - l;
    waiting := waitingToSell;
    rec := None;
    if diff > 0.0 && waiting {
      waiting := false;
      rec := Some(Recommendation(true, 1.0));
    }
    if diff < 0.0 && !waiting {
      waiting := true;
      rec := Some(Recommendation(false, 1.0));
    }
  }

  // ----- DummyWallet -----

  /** `fugger.CurrencyType`: the two the wallet trades, and any other. */
  datatype Currency = Usd | Bitcoin | Other(id: int)

  /** Go's map read: a missing key reads as 0. */
  function Balance(m: map<Currency, real>, c: Currency): real
  {
    if c in m then m[c] else 0.0
  }

  /** The balances after `Exchange(from, to, _)`, where `rate` is the quote of `GetCurrent(DollarSymbol, BitcoinSymbol)`. */
  function Exchanged(m: map<Currency, real>, from: Currency, to: Currency, rate: real): (r: map<Currency, real>)
    requires from == Usd && to == Bitcoin ==> rate != 0.0
    ensures (from == Usd && to == Bitcoin) || (from == Bitcoin && to == Usd) ==> r.Keys == m.Keys + {Usd, Bitcoin}
    ensures forall c :: c in m && c != Usd && c != Bitcoin ==> c in r && r[c] == m[c]
  {
    if from == Usd && to == Bitcoin then m[Bitcoin := Balance(m, Usd) / rate][Usd := 0.0]
    else if from == Bitcoin && to == Usd then m[Usd := Balance(m, Bitcoin) * rate][Bitcoin := 0.0]
    else m
  }

  /** `DummyWallet`: balances per currency. */
  class DummyWallet {
    var currencies: map<Currency, real>

    /** `Init`: every listed currency at 0.0, and nothing else. */
    constructor Init(list: seq<Currency>)
      ensures currencies.Keys == set c | c in list
      ensures forall c :: c in currencies ==> currencies[c] == 0.0
    {
      var m := ZeroBalances(list);
      currencies := m;
    }

    /** `Exchange` with the quoted rate as a parameter; the amount argument is ignored and the result is always 1. */
    method Exchange(from: Currency, to: Currency, amtToBuy: real, rate: real) returns (result: real)
      requires from == Usd && to == Bitcoin ==> rate != 0.0
      modifies this
      ensures currencies == Exchanged(old(currencies), from, to, rate)
      ensures result == 1.0
    {
      if from == Usd && to == Bitcoin {
        currencies := currencies[Bitcoin := Balance(currencies, Usd) / rate];
        currencies := currencies[Usd := 0.0];
      } else if from == Bitcoin && to == Usd {
        currencies := currencies[Usd := Balance(currencies, Bitcoin) * rate];
        currencies := currencies[Bitcoin := 0.0];
      }
      return 1.0;
    }
  }

  /** The loop of `Init`: a zero entry for each listed currency. */
  method ZeroBalances(list: seq<Currency>) returns (m: map<Currency, real>)
    ensures m.Keys == set c | c in list
    ensures forall c :: c in m ==> m[c] == 0.0
  {
    m := map[];
    for i := 0 to |list|
      invariant m.Keys == set c | c in list[..i]
      invariant forall c :: c in m ==> m[c] == 0.0
    {
      assert list[..i + 1] == list[..i] + [list[i]];
      m := m[list[i] := 0.0];
    }
    assert list[..|list|] == list;
  }

  /** Buying moves all dollars into bitcoin at the rate and leaves every other currency alone. */
  lemma BuyMovesEverything(m: map<Currency, real>, rate: real)
    requires rate != 0.0
    ensures var n := Exchanged(m, Usd, Bitcoin, rate);
      && Balance(n, Bitcoin) == Balance(m, Usd) / rate && Balance(n, Usd) == 0.0
      && (forall c :: c != Usd && c != Bitcoin ==> Balance(n, c) == Balance(m, c))
  {
  }

  /** Selling moves all bitcoin into dollars at the rate and leaves every other currency alone. */
  lemma SellMovesEverything(m: map<Currency, real>, rate: real)
    ensures var n := Exchanged(m, Bitcoin, Usd, rate);
      && Balance(n, Usd) == Balance(m, Bitcoin) * rate && Balance(n, Bitcoin) == 0.0
      && (forall c :: c != Usd && c != Bitcoin ==> Balance(n, c) == Balance(m, c))
  {
  }

  /** Any other pair of currencies is a no-op. */
  lemma OtherPairsUnchanged(m: map<Currency, real>, from: Currency, to: Currency, rate: real)
    requires !(from == Usd && to == Bitcoin) && !(from == Bitcoin && to == Usd)
    ensures Exchanged(m, from, to, rate) == m
  {
  }

  /** Buying then selling at one rate gives the dollars back; any bitcoin held before the buy is lost. */
  lemma BuyThenSell(m: map<Currency, real>, rate: real)
    requires rate != 0.0
    ensures var n := Exchanged(Exchanged(m, Usd, Bitcoin, rate), Bitcoin, Usd, rate);
      Balance(n, Usd) == Balance(m, Usd) && Balance(n, Bitcoin) == 0.0
  {
    var b := Exchanged(m, Usd, Bitcoin, rate);
    assert Balance(b, Bitcoin) == Balance(m, Usd) / rate;
    assert Balance(m, Usd) / rate * rate == Balance(m, Usd);
  }
}
