/**
 * pump-n-dump/chart/chart.go: turning stored summaries into the dates and
 * prices of the chart (`getValues`), and the running maximum and minimum that
 * `drawChart` keeps while walking the prices.
 */
module MarketChart {
  import opened Base
  import Text
  import opened PumpModels

  /** Why `getValues` stops: a timestamp without "T0" (an index-out-of-range panic), or one `time.Parse` rejects (`log.Fatal`). */
  datatype ChartError = NoMarker(at: nat) | BadTime(at: nat)

  const Marker: string := "T0"

  /**
   * `strings.Split(ts, "T0")` and `parts[0] + "T" + parts[1]`; None when the
   * split has a single part, where `parts[1]` panics.
   */
  function Repair(ts: string): (r: Option<string>)
    ensures r.Some? <==> Text.Contains(ts, Marker)
  {
    var parts := Text.Split(ts, Marker);
    if |parts| < 2 then None else Some(parts[0] + "T" + parts[1])
  }

  /** The repair fails exactly on timestamps without "T0". */
  lemma RepairFailsIff(ts: string)
    ensures Repair(ts).None? <==> !Text.Contains(ts, Marker)
  {
    match Text.IndexOf(ts, Marker)
    case None =>
    case Some(i) =>
      assert |Text.Split(ts, Marker)| >= 2;
  }

  /** Around the one "T0" of a timestamp, the repair drops the "0" and keeps everything else. */
  lemma RepairDropsZero(a: string, b: string)
    requires !Text.Contains(a, Marker) && !Text.Contains(b, Marker)
    ensures Repair(a + Marker + b) == Some(a + "T" + b)
  {
    FirstAfter(a, b);
    Text.SplitAtFirst(a, Marker, b);
    Text.ContainsIff(b, Marker);
    assert forall j :: 0 <= j < |b| ==> !Text.OccursAt(b, Marker, j);
    Text.IndexFromFirst(b, Marker, 0);
  }

  /** With a second "T0", everything from it on is lost: `parts[2:]` is never used. */
  lemma RepairDropsRest(a: string, b: string, c: string)
    requires !Text.Contains(a, Marker) && !Text.Contains(b, Marker)
    ensures Repair(a + Marker + b + Marker + c) == Some(a + "T" + b)
  {
    var tail := b + Marker + c;
    assert a + Marker + b + Marker + c == a + Marker + tail;
    FirstAfter(a, tail);
    Text.SplitAtFirst(a, Marker, tail);
    FirstAfter(b, c);
    Text.SplitAtFirst(b, Marker, c);
  }

  /** In `a + "T0" + b` with `a` free of "T0", no "T0" starts inside `a`. */
  lemma FirstAfter(a: string, b: string)
    requires !Text.Contains(a, Marker)
    ensures forall j :: 0 <= j < |a| ==> !Text.OccursAt(a + Marker + b, Marker, j)
  {
    Text.ContainsIff(a, Marker);
    var s := a + Marker + b;
    forall j | 0 <= j < |a| ensures !Text.OccursAt(s, Marker, j) {
      if j + 2 <= |a| {
        assert s[j..j + 2] == a[j..j + 2];
        assert !Text.OccursAt(a, Marker, j);
      } else {
        assert s[j + 1] == 'T';
      }
    }
  }

  /** One summary's chart point: its repaired, parsed timestamp, or the error at position `at`. */
  function Point<T>(s: Summary, at: nat, parse: string -> Option<T>): Result<T, ChartError>
  {
    match Repair(s.timeStamp)
    case None => Err(NoMarker(at))
    case Some(t) => if parse(t).None? then Err(BadTime(at)) else Ok(parse(t).value)
  }

  /** What `getValues` returns for the summaries `FindAll` gave, in order; `parse` is `time.Parse` with the layout `2006-01-02T15:04:05`. */
  function Values<T>(ss: seq<Summary>, parse: string -> Option<T>): Result<(seq<T>, seq<real>), ChartError>
  {
    if ss == [] then Ok(([], []))
    else
      match Values(ss[..|ss| - 1], parse)
      case Err(e) => Err(e)
      case Ok(v) =>
        match Point(ss[|ss| - 1], |ss| - 1, parse)
        case Err(e) => Err(e)
        case Ok(t) => Ok((v.0 + [t], v.1 + [ss[|ss| - 1].last]))
  }

  /** The loop of `getValues`, appending one date and one price per summary. */
  method GetValues<T>(ss: seq<Summary>, parse: string -> Option<T>) returns (r: Result<(seq<T>, seq<real>), ChartError>)
    ensures r == Values(ss, parse)
  {
    var dates: seq<T>, prices: seq<real> := [], [];
    var i := 0;
    while i < |ss|
      invariant 0 <= i <= |ss|
      invariant Values(ss[..i], parse) == Ok((dates, prices))
    {
      assert ss[..i + 1][..i] == ss[..i];
      var parts := Text.Split(ss[i].timeStamp, Marker);
      if |parts| < 2 {
        assert Values(ss[..i + 1], parse) == Err(NoMarker(i));
        ValuesStopsAt(ss, parse, i + 1);
        return Err(NoMarker(i));
      }
      var parsed := parse(parts[0] + "T" + parts[1]);
      if parsed.None? {
        assert Values(ss[..i + 1], parse) == Err(BadTime(i));
        ValuesStopsAt(ss, parse, i + 1);
        return Err(BadTime(i));
      }
      dates := dates + [parsed.value];
      prices := prices + [ss[i].last];
      i := i + 1;
    }
    assert ss[..i] == ss;
    r := Ok((dates, prices));
  }

  /** Once a prefix fails, the whole list fails with the same error. */
  lemma {:induction false} ValuesStopsAt<T>(ss: seq<Summary>, parse: string -> Option<T>, k: nat)
    requires k <= |ss| && Values(ss[..k], parse).Err?
    decreases |ss| - k
    ensures Values(ss, parse) == Values(ss[..k], parse)
  {
    if k < |ss| {
      assert ss[..k + 1][..k] == ss[..k];
      ValuesStopsAt(ss, parse, k + 1);
    } else {
      assert ss[..k] == ss;
    }
  }

  /** Every summary converts exactly when the list does; then there is one date and one price per summary, in summary order. */
  lemma {:induction false} ValuesShape<T>(ss: seq<Summary>, parse: string -> Option<T>)
    ensures Values(ss, parse).Ok? <==> forall i :: 0 <= i < |ss| ==> Point(ss[i], i, parse).Ok?
    ensures Values(ss, parse).Ok? ==>
              var (dates, prices) := Values(ss, parse).value;
              |dates| == |prices| == |ss| &&
              forall i :: 0 <= i < |ss| ==> Point(ss[i], i, parse) == Ok(dates[i]) && prices[i] == ss[i].last
  {
    if ss != [] {
      var init := ss[..|ss| - 1];
      ValuesShape(init, parse);
      assert forall i :: 0 <= i < |init| ==> init[i] == ss[i];
    }
  }

  /** A failure is the error of the first summary that does not convert. */
  lemma {:induction false} ValuesFirstError<T>(ss: seq<Summary>, parse: string -> Option<T>)
    ensures Values(ss, parse).Err? ==>
              exists i :: 0 <= i < |ss| && Point(ss[i], i, parse) == Err(Values(ss, parse).error) &&
                          forall j :: 0 <= j < i ==> Point(ss[j], j, parse).Ok?
  {
    if ss != [] {
      var init := ss[..|ss| - 1];
      ValuesFirstError(init, parse);
      ValuesShape(init, parse);
      assert forall i :: 0 <= i < |init| ==> init[i] == ss[i];
    }
  }

  // ----- drawChart's running extremes -----

  /** `max` after the loop has seen `ps`: starts at 0.0 and takes every price `>=` it. */
  function RunningMax(ps: seq<real>): real
  {
    if ps == [] then 0.0
    else
      var m := RunningMax(ps[..|ps| - 1]);
      if ps[|ps| - 1] >= m then ps[|ps| - 1] else m
  }

  /** `min` after the loop has seen `ps`: starts at 0.0 and takes every price below the running `max`. */
  function RunningMin(ps: seq<real>): real
  {
    if ps == [] then 0.0
    else if ps[|ps| - 1] >= RunningMax(ps[..|ps| - 1]) then RunningMin(ps[..|ps| - 1])
    else ps[|ps| - 1]
  }

  /** The `for _, price := range prices` loop of `drawChart`. */
  method Extremes(prices: seq<real>) returns (max: real, min: real)
    ensures max == RunningMax(prices) && min == RunningMin(prices)
  {
    max, min := 0.0, 0.0;
    var i := 0;
    while i < |prices|
      invariant 0 <= i <= |prices|
      invariant max == RunningMax(prices[..i]) && min == RunningMin(prices[..i])
    {
      assert prices[..i + 1][..i] == prices[..i];
      if prices[i] >= max {
        max := prices[i];
      } else {
        min := prices[i];
      }
      i := i + 1;
    }
    assert prices[..i] == prices;
  }

  /** `max` is the largest of 0 and all prices. */
  lemma {:induction false} MaxIsLargest(ps: seq<real>)
    ensures RunningMax(ps) >= 0.0
    ensures forall i :: 0 <= i < |ps| ==> ps[i] <= RunningMax(ps)
    ensures RunningMax(ps) == 0.0 || exists i :: 0 <= i < |ps| && ps[i] == RunningMax(ps)
  {
    if ps != [] {
      var init := ps[..|ps| - 1];
      MaxIsLargest(init);
      assert forall i :: 0 <= i < |init| ==> init[i] == ps[i];
    }
  }

  /** Price i drops below the running maximum of the prices before it. */
  predicate Dips(ps: seq<real>, i: int)
    requires 0 <= i < |ps|
  {
    ps[i] < RunningMax(ps[..i])
  }

  /** Whether a price before the last dips is the same question in the list without the last price. */
  lemma DipsInit(ps: seq<real>, i: nat)
    requires i < |ps| - 1
    ensures Dips(ps, i) == Dips(ps[..|ps| - 1], i)
  {
    assert ps[..i] == ps[..|ps| - 1][..i];
  }

  /** With no dip at all, `min` keeps its initial 0.0. */
  lemma {:induction false} MinWithoutDip(ps: seq<real>)
    ensures (forall i :: 0 <= i < |ps| ==> !Dips(ps, i)) ==> RunningMin(ps) == 0.0
  {
    if ps != [] && forall i :: 0 <= i < |ps| ==> !Dips(ps, i) {
      var init := ps[..|ps| - 1];
      forall i | 0 <= i < |init| ensures !Dips(init, i) {
        DipsInit(ps, i);
      }
      MinWithoutDip(init);
      assert !Dips(ps, |ps| - 1);
    }
  }

  /** Otherwise `min` is the last price that dipped below the running maximum. */
  lemma {:induction false} MinIsLastDip(ps: seq<real>, i: nat)
    requires i < |ps| && Dips(ps, i)
    requires forall j :: i < j < |ps| ==> !Dips(ps, j)
    ensures RunningMin(ps) == ps[i]
  {
    var init := ps[..|ps| - 1];
    if i < |ps| - 1 {
      assert !Dips(ps, |ps| - 1);
      DipsInit(ps, i);
      forall j | i < j < |init| ensures !Dips(init, j) {
        DipsInit(ps, j);
      }
      MinIsLastDip(init, i);
    }
  }

  /** `min` never exceeds `max`. */
  lemma {:induction false} MinAtMostMax(ps: seq<real>)
    ensures RunningMin(ps) <= RunningMax(ps)
  {
    if ps != [] {
      MinAtMostMax(ps[..|ps| - 1]);
    }
  }
}
