/**
 * The tick aggregator: folds exchange tick files (a header line, then lines
 * `timestamp,amount,price`) into day, hour or minute buckets, emits each bucket's
 * mean price and fills gaps between buckets with zero-valued points.
 */
module CsvAggregate {
  import opened Base
  import opened Seqs
  import opened Calendar
  import Text

  /** Why an aggregation stops: the exception the script would raise. */
  datatype Error =
    | FileNotFound                    // a path that is missing or of the wrong kind
    | InvalidInterval(name: string)   // `ValueError` from interval_format / increment_datetime
    | FieldCount                      // unpacking `line.split(',')` into three names fails
    | BadPrice                        // `float(price)` raises
    | BadTimestamp                    // neither `strptime` format matches
    | TupleAssignment                 // join_duplicates assigns into a tuple

  /**
   * The library calls the aggregator relies on, as uninterpreted functions:
   * `datetime.timestamp()` (local time zone), the two `strptime` formats accepted for
   * a tick, `float`, `strftime` and `str` for writing the output.
   */
  datatype Platform = Platform(
    timestamp: DateTime -> real,
    parseSeconds: string -> Option<DateTime>,
    parseFraction: string -> Option<DateTime>,
    parseFloat: string -> Option<real>,
    strftime: (DateTime, string) -> string,
    str: real -> string)

  /** The first component of an output point: the formatted bucket, or its epoch seconds. */
  datatype Stamp = Formatted(bucket: DateTime, format: string) | Epoch(seconds: real)

  /** One output point `(stamp, amount)`. */
  datatype Point = Point(stamp: Stamp, amount: real)

  /** One parsed tick line. */
  datatype Tick = Tick(time: DateTime, price: real)

  /** The `strftime` pattern naming an interval's bucket. */
  function IntervalFormat(iv: Interval): (r: Result<string, Error>)
    ensures r.Err? <==> iv.Invalid?
    ensures iv.Invalid? ==> r == Err(InvalidInterval(iv.name))
  {
    match iv
    case Day => Ok("%Y-%m-%d")
    case Hour => Ok("%Y-%m-%d %H:00:00")
    case Minute => Ok("%Y-%m-%d %H:%M:00")
    case Invalid(name) => Err(InvalidInterval(name))
  }

  /** The patterns of the three intervals are pairwise different. */
  lemma IntervalFormatsDistinct()
    ensures IntervalFormat(Day) != IntervalFormat(Hour)
    ensures IntervalFormat(Hour) != IntervalFormat(Minute)
    ensures IntervalFormat(Day) != IntervalFormat(Minute)
  {
    assert |IntervalFormat(Day).value| == 8;
    assert IntervalFormat(Hour).value[12] == '0';
    assert IntervalFormat(Minute).value[12] == '%';
  }

  /** `increment_datetime`: one day, hour or minute later. */
  function IncrementDateTime(dt: DateTime, iv: Interval): (r: Result<DateTime, Error>)
    ensures r.Err? <==> iv.Invalid?
    ensures iv.Invalid? ==> r == Err(InvalidInterval(iv.name))
    ensures r.Ok? ==> r.value.second == dt.second && r.value.micro == dt.micro
    ensures r.Ok? && !iv.Minute? ==> r.value.minute == dt.minute
    ensures r.Ok? && iv.Minute? ==> r.value.minute == (dt.minute + 1) % 60
    ensures r.Ok? && iv.Day? ==> r.value.hour == dt.hour && r.value == NextDay(dt)
    ensures r.Ok? && iv.Hour? ==> r.value.hour == (dt.hour + 1) % 24
    ensures r.Ok? && iv.Minute? && dt.minute < 59 ==> r.value.hour == dt.hour
    ensures r.Ok? && iv.Minute? && dt.minute == 59 ==> r.value.hour == (dt.hour + 1) % 24
  {
    if iv.Invalid? then Err(InvalidInterval(iv.name)) else Ok(Advance(dt, iv))
  }

  /** The stamp `create_point` gives to a time: its bucket, formatted or as epoch seconds. */
  function StampOf(t: DateTime, iv: Interval, humanReadable: bool, p: Platform): Stamp
    requires !iv.Invalid?
  {
    var bucket := Truncate(t, iv);
    if humanReadable then Formatted(bucket, IntervalFormat(iv).value) else Epoch(p.timestamp(bucket))
  }

  /** `create_point`. */
  function CreatePoint(t: DateTime, amount: real, iv: Interval, humanReadable: bool, p: Platform): (r: Result<Point, Error>)
    ensures r.Err? <==> iv.Invalid?
    ensures iv.Invalid? ==> r == Err(InvalidInterval(iv.name))
    ensures r.Ok? ==> r.value.amount == amount
    ensures r.Ok? ==> r.value.stamp.Formatted? == humanReadable
    ensures r.Ok? && humanReadable ==> r.value.stamp.bucket == Truncate(t, iv)
    ensures r.Ok? && !humanReadable ==> r.value.stamp.seconds == p.timestamp(Truncate(t, iv))
  {
    var format :- IntervalFormat(iv);
    var bucket := Truncate(t, iv);
    if humanReadable then Ok(Point(Formatted(bucket, format), amount))
    else Ok(Point(Epoch(p.timestamp(bucket)), amount))
  }

  /** Two times with the same truncation give the same point; the flag changes only the stamp. */
  lemma CreatePointRespectsBuckets(t1: DateTime, t2: DateTime, amount: real, iv: Interval, hr: bool, p: Platform)
    requires !iv.Invalid? && Truncate(t1, iv) == Truncate(t2, iv)
    ensures CreatePoint(t1, amount, iv, hr, p) == CreatePoint(t2, amount, iv, hr, p)
    ensures CreatePoint(t1, amount, iv, true, p).value.amount == CreatePoint(t1, amount, iv, false, p).value.amount
    ensures CreatePoint(t1, amount, iv, hr, p) == Ok(Point(StampOf(t1, iv, hr, p), amount))
  {
  }

  // ----- generate_missing_points -----

  /** The first `n` zero points from `start` on, one interval apart. */
  function Fillers(start: DateTime, iv: Interval, humanReadable: bool, p: Platform, n: nat): (r: seq<Point>)
    requires !iv.Invalid?
    ensures |r| == n
  {
    if n == 0 then [] else Fillers(start, iv, humanReadable, p, n - 1) + [Point(StampOf(AdvanceN(start, iv, n - 1), iv, humanReadable, p), 0.0)]
  }

  /** The `k`-th filler is a zero point stamped `k` intervals after `start`. */
  lemma {:induction false} FillersAt(start: DateTime, iv: Interval, hr: bool, p: Platform, n: nat)
    requires !iv.Invalid?
    ensures forall k :: 0 <= k < n ==> Fillers(start, iv, hr, p, n)[k] == Point(StampOf(AdvanceN(start, iv, k), iv, hr, p), 0.0)
  {
    if n > 0 {
      FillersAt(start, iv, hr, p, n - 1);
    }
  }

  /** The zero points from `previous` up to, not including, the first step in `current`'s bucket. */
  function MissingPoints(previous: DateTime, current: DateTime, iv: Interval, humanReadable: bool, p: Platform): (r: seq<Point>)
    requires !iv.Invalid?
    ensures r == [] <==> IsSameInterval(previous, current, iv)
    ensures |r| < Period(iv)
  {
    RemainingZero(previous, current, iv);
    RemainingBelowPeriod(previous, current, iv);
    Fillers(previous, iv, humanReadable, p, Remaining(previous, current, iv))
  }

  /**
   * The filler points all carry 0.0, step one interval at a time from `previous`,
   * stop right before the first time in `current`'s bucket, are empty exactly when
   * `previous` is already in that bucket, and never cover a full cycle of the compared field.
   */
  lemma MissingPointsSpan(previous: DateTime, current: DateTime, iv: Interval, hr: bool, p: Platform)
    requires !iv.Invalid?
    ensures var r := MissingPoints(previous, current, iv, hr, p);
      && (forall k :: 0 <= k < |r| ==> r[k] == Point(StampOf(AdvanceN(previous, iv, k), iv, hr, p), 0.0))
      && (forall k :: 0 <= k < |r| ==> !IsSameInterval(AdvanceN(previous, iv, k), current, iv))
      && IsSameInterval(AdvanceN(previous, iv, |r|), current, iv)
      && (r == [] <==> IsSameInterval(previous, current, iv))
      && |r| < Period(iv)
  {
    var n := Remaining(previous, current, iv);
    FillersAt(previous, iv, hr, p, n);
    forall k | 0 <= k < n ensures !IsSameInterval(AdvanceN(previous, iv, k), current, iv) {
      RemainingAfter(previous, current, iv, k);
      RemainingZero(AdvanceN(previous, iv, k), current, iv);
    }
    RemainingAfter(previous, current, iv, n);
    RemainingZero(AdvanceN(previous, iv, n), current, iv);
    RemainingZero(previous, current, iv);
    RemainingBelowPeriod(previous, current, iv);
  }

  /** Between hours, the fillers number exactly the hours from `previous` round to `current`. */
  lemma MissingHours(previous: DateTime, current: DateTime, hr: bool, p: Platform)
    ensures |MissingPoints(previous, current, Hour, hr, p)| ==
      if previous.hour <= current.hour then current.hour - previous.hour else current.hour - previous.hour + 24
  {
  }

  /** `generate_missing_points(current_time, previous_time, interval, human_readable)`. */
  method GenerateMissingPoints(current: DateTime, previous: DateTime, iv: Interval, humanReadable: bool, p: Platform)
    returns (r: Result<seq<Point>, Error>)
    ensures iv.Invalid? ==> r == Err(InvalidInterval(iv.name))
    ensures !iv.Invalid? ==> r == Ok(MissingPoints(previous, current, iv, humanReadable, p))
  {
    // For any other interval the loop test always holds and the body's interval_format raises.
    var format := IntervalFormat(iv);
    if format.Err? {
      return Err(format.error);
    }
    var time := previous;
    var data: seq<Point> := [];
    ghost var steps: nat := 0;
    while !IsSameInterval(time, current, iv)
      invariant steps <= Remaining(previous, current, iv)
      invariant time == AdvanceN(previous, iv, steps)
      invariant data == Fillers(previous, iv, humanReadable, p, steps)
      decreases Remaining(time, current, iv)
    {
      RemainingAfter(previous, current, iv, steps);
      RemainingZero(time, current, iv);
      var bucket := Truncate(time, iv);
      var stamp := if humanReadable then Formatted(bucket, format.value) else Epoch(p.timestamp(bucket));
      data := data + [Point(stamp, 0.0)];
      RemainingStep(time, current, iv);
      time := Advance(time, iv);
      steps := steps + 1;
    }
    RemainingAfter(previous, current, iv, steps);
    RemainingZero(time, current, iv);
    return Ok(data);
  }

  // ----- one tick line -----

  /** One data line: `timestamp, _, price = line.rstrip('\n').split(',')`, then the conversions. */
  function ParseLine(line: string, p: Platform): (r: Result<Tick, Error>)
    ensures var f := Text.SplitOn(Text.StripNewlines(line), ',');
      && (|f| != 3 ==> r == Err(FieldCount))
      && (r.Ok? ==> |f| == 3 && p.parseFloat(f[2]) == Some(r.value.price))
  {
    var fields := Text.SplitOn(Text.StripNewlines(line), ',');
    if |fields| != 3 then Err(FieldCount)
    else match p.parseFloat(fields[2])
      case None => Err(BadPrice)
      case Some(price) =>
        match p.parseSeconds(fields[0])
        case Some(t) => Ok(Tick(t, price))
        case None =>
          match p.parseFraction(fields[0])
          case Some(t) => Ok(Tick(t, price))
          case None => Err(BadTimestamp)
  }

  /**
   * A line parses exactly when it has three comma-separated fields, the third is a float
   * and the first matches one of the two timestamp formats; otherwise the error names the
   * first check that failed, in that order.
   */
  lemma ParseLineAccepts(line: string, p: Platform)
    ensures var f := Text.SplitOn(Text.StripNewlines(line), ',');
      && (ParseLine(line, p).Ok? <==> |f| == 3 && p.parseFloat(f[2]).Some? && (p.parseSeconds(f[0]).Some? || p.parseFraction(f[0]).Some?))
      && (|f| != 3 ==> ParseLine(line, p) == Err(FieldCount))
      && (|f| == 3 && p.parseFloat(f[2]).None? ==> ParseLine(line, p) == Err(BadPrice))
      && (|f| == 3 && p.parseFloat(f[2]).Some? && p.parseSeconds(f[0]).None? && p.parseFraction(f[0]).None?
          ==> ParseLine(line, p) == Err(BadTimestamp))
      && (ParseLine(line, p).Ok? ==> ParseLine(line, p).value.price == p.parseFloat(f[2]).value)
      && (ParseLine(line, p).Ok? && p.parseSeconds(f[0]).Some? ==> ParseLine(line, p).value.time == p.parseSeconds(f[0]).value)
  {
  }

  /** A line whose stripped fields are `f`, three of them, parses by its first and last field. */
  lemma ParseThreeFields(line: string, f: seq<string>, p: Platform)
    requires Text.SplitOn(Text.StripNewlines(line), ',') == f && |f| == 3
    requires p.parseFloat(f[2]).Some?
    requires p.parseSeconds(f[0]).Some? || p.parseFraction(f[0]).Some?
    ensures ParseLine(line, p) ==
      Ok(Tick(if p.parseSeconds(f[0]).Some? then p.parseSeconds(f[0]).value else p.parseFraction(f[0]).value,
              p.parseFloat(f[2]).value))
  {
  }

  /** A well-formed line `timestamp,amount,price\n` parses to its timestamp and price. */
  lemma ParseWellFormedLine(stamp: string, amount: string, price: string, p: Platform)
    requires ',' !in stamp && ',' !in amount && ',' !in price && '\n' !in price
    requires p.parseFloat(price).Some?
    requires p.parseSeconds(stamp).Some? || p.parseFraction(stamp).Some?
    ensures ParseLine(stamp + "," + amount + "," + price + "\n", p) ==
      Ok(Tick(if p.parseSeconds(stamp).Some? then p.parseSeconds(stamp).value else p.parseFraction(stamp).value,
              p.parseFloat(price).value))
  {
    var body := stamp + "," + amount + "," + price;
    var line := stamp + "," + amount + "," + price + "\n";
    assert line == body + "\n";
    assert body[|body| - 1] != '\n' by {
      if price == [] {
        assert body[|body| - 1] == ',';
      } else {
        assert body[|body| - 1] == price[|price| - 1];
      }
    }
    Text.StripOneNewline(body);
    Text.SplitThree(stamp, amount, price, ',');
    Text.SplitOnIsSplit(body, ',');
    ParseThreeFields(line, [stamp, amount, price], p);
  }

  // ----- aggregate_file -----

  /** The loop state of `aggregate_file`: `data`, `interval_count`, `interval_sum`, `previous_time`. */
  datatype Accumulator = Accumulator(data: seq<Point>, count: nat, sum: real, previous: Option<DateTime>)

  /** A bucket with ticks in it has a time. */
  predicate Consistent(acc: Accumulator)
  {
    acc.count > 0 ==> acc.previous.Some?
  }

  /** One iteration of the loop body, after the line has been parsed. */
  function Step(acc: Accumulator, tick: Tick, iv: Interval, humanReadable: bool, p: Platform): (r: Result<Accumulator, Error>)
    ensures r.Ok? ==> r.value.previous == Some(tick.time)
  {
    if acc.previous.None? || IsSameInterval(acc.previous.value, tick.time, iv) then
      Ok(acc.(count := acc.count + 1, sum := acc.sum + tick.price, previous := Some(tick.time)))
    else
      var closed := ClosedBucket(acc.previous.value, acc.count, acc.sum, tick.time, iv, humanReadable, p);
      if closed.Err? then Err(closed.error) else Ok(Accumulator(acc.data + closed.value, 0, 0.0, Some(tick.time)))
  }

  /**
   * What a tick outside the open bucket appends: the closed bucket's point (its mean, or
   * 0.0 when nothing was counted), then the fillers from the next bucket up to the tick's.
   */
  function ClosedBucket(previous: DateTime, count: nat, sum: real, time: DateTime, iv: Interval, humanReadable: bool, p: Platform)
    : (r: Result<seq<Point>, Error>)
    ensures r.Err? <==> iv.Invalid?
  {
    var amount := if count == 0 then 0.0 else sum / (count as real);
    var point := CreatePoint(previous, amount, iv, humanReadable, p);
    // once create_point has succeeded, the interval is valid and increment_datetime succeeds
    if point.Err? then Err(point.error)
    else Ok([point.value] + MissingPoints(Advance(previous, iv), time, iv, humanReadable, p))
  }

  /** Lines 122-128 of the loop body: emit the closed bucket, then the missing points. */
  method CloseBucket(previous: DateTime, count: nat, sum: real, time: DateTime, iv: Interval, humanReadable: bool, p: Platform)
    returns (r: Result<seq<Point>, Error>)
    ensures r == ClosedBucket(previous, count, sum, time, iv, humanReadable, p)
  {
    var amount := if count == 0 then 0.0 else sum / (count as real);
    var point := CreatePoint(previous, amount, iv, humanReadable, p);
    if point.Err? {
      return Err(point.error);
    }
    var next := IncrementDateTime(previous, iv);
    var missing := GenerateMissingPoints(time, next.value, iv, humanReadable, p);
    return Ok([point.value] + missing.value);
  }

  /** The loop over the data lines, as a fold. */
  function Run(acc: Accumulator, lines: seq<string>, iv: Interval, humanReadable: bool, p: Platform): (r: Result<Accumulator, Error>)
    decreases |lines|
    ensures Consistent(acc) && r.Ok? ==> Consistent(r.value)
  {
    if lines == [] then Ok(acc)
    else
      var tick := ParseLine(lines[0], p);
      if tick.Err? then Err(tick.error)
      else
        var next := Step(acc, tick.value, iv, humanReadable, p);
        if next.Err? then Err(next.error) else Run(next.value, lines[1..], iv, humanReadable, p)
  }

  /** After the loop: the open bucket is emitted only if it holds a counted tick. */
  function Finish(acc: Accumulator, iv: Interval, humanReadable: bool, p: Platform): (r: Result<seq<Point>, Error>)
    requires Consistent(acc)
    ensures acc.count == 0 ==> r == Ok(acc.data)
    ensures acc.count != 0 ==> r.Err? == iv.Invalid?
    ensures acc.count != 0 && r.Ok? ==>
      |r.value| == |acc.data| + 1 && r.value[..|acc.data|] == acc.data
      && r.value[|acc.data|] == Point(StampOf(acc.previous.value, iv, humanReadable, p), acc.sum / (acc.count as real))
  {
    if acc.count != 0 then
      var point := CreatePoint(acc.previous.value, acc.sum / (acc.count as real), iv, humanReadable, p);
      if point.Err? then Err(point.error) else Ok(acc.data + [point.value])
    else Ok(acc.data)
  }

  /** The lines after the header. */
  function DataLines(lines: seq<string>): seq<string>
  {
    if lines == [] then [] else lines[1..]
  }

  function Initial(startDate: Option<DateTime>): Accumulator
  {
    Accumulator([], 0, 0.0, startDate)
  }

  /** `aggregate_file`: the points of one file and the last time read. A missing file is `None`. */
  function AggregateFileSpec(file: Option<seq<string>>, startDate: Option<DateTime>, iv: Interval, humanReadable: bool, p: Platform)
    : (r: Result<(seq<Point>, Option<DateTime>), Error>)
    ensures file.None? ==> r == Err(FileNotFound)
    ensures r.Ok? && startDate.Some? ==> r.value.1.Some?
  {
    match file
    case None => Err(FileNotFound)
    case Some(lines) =>
      var acc :- Run(Initial(startDate), DataLines(lines), iv, humanReadable, p);
      RunPrevious(Initial(startDate), DataLines(lines), iv, humanReadable, p);
      var data :- Finish(acc, iv, humanReadable, p);
      Ok((data, acc.previous))
  }

  /** `aggregate_file`, with its loop. */
  method AggregateFile(file: Option<seq<string>>, startDate: Option<DateTime>, iv: Interval, humanReadable: bool, p: Platform)
    returns (r: Result<(seq<Point>, Option<DateTime>), Error>)
    ensures r == AggregateFileSpec(file, startDate, iv, humanReadable, p)
  {
    if file.None? {
      return Err(FileNotFound);
    }
    var lines := DataLines(file.value);
    var data: seq<Point> := [];
    var previous := startDate;
    var count: nat, sum := 0, 0.0;
    var i := 0;
    while i < |lines|
      invariant 0 <= i <= |lines|
      invariant count > 0 ==> previous.Some?
      invariant Run(Accumulator(data, count, sum, previous), lines[i..], iv, humanReadable, p)
        == Run(Initial(startDate), lines, iv, humanReadable, p)
    {
      RunAt(Accumulator(data, count, sum, previous), lines, i, iv, humanReadable, p);
      var next := ReadLine(lines[i], data, count, sum, previous, iv, humanReadable, p);
      if next.Err? {
        return Err(next.error);
      }
      data, count, sum, previous := next.value.data, next.value.count, next.value.sum, next.value.previous;
      i := i + 1;
    }
    assert lines[i..] == [];
    AggregateFileFinish(file.value, startDate, iv, humanReadable, p, Accumulator(data, count, sum, previous));
    if count != 0 {
      var point := CreatePoint(previous.value, sum / (count as real), iv, humanReadable, p);
      if point.Err? {
        return Err(point.error);
      }
      data := data + [point.value];
    }
    return Ok((data, previous));
  }

  /** The loop body of `aggregate_file` (lines 109-130): parse one line, then extend the open bucket or close it. */
  method ReadLine(line: string, data: seq<Point>, count: nat, sum: real, previous: Option<DateTime>, iv: Interval, humanReadable: bool, p: Platform)
    returns (r: Result<Accumulator, Error>)
    ensures var parsed := ParseLine(line, p);
      r == if parsed.Err? then Err(parsed.error) else Step(Accumulator(data, count, sum, previous), parsed.value, iv, humanReadable, p)
  {
    var parsed := ParseLine(line, p);
    if parsed.Err? {
      return Err(parsed.error);
    }
    var tick := parsed.value;
    if previous.None? || IsSameInterval(previous.value, tick.time, iv) {
      return Ok(Accumulator(data, count + 1, sum + tick.price, Some(tick.time)));
    }
    var closed := CloseBucket(previous.value, count, sum, tick.time, iv, humanReadable, p);
    if closed.Err? {
      return Err(closed.error);
    }
    return Ok(Accumulator(data + closed.value, 0, 0.0, Some(tick.time)));
  }

  /** Once the fold has succeeded, `aggregate_file`'s result is that of the final emission. */
  lemma AggregateFileFinish(lines: seq<string>, startDate: Option<DateTime>, iv: Interval, hr: bool, p: Platform, acc: Accumulator)
    requires Run(Initial(startDate), DataLines(lines), iv, hr, p) == Ok(acc) && Consistent(acc)
    ensures var f := Finish(acc, iv, hr, p);
      AggregateFileSpec(Some(lines), startDate, iv, hr, p) == if f.Err? then Err(f.error) else Ok((f.value, acc.previous))
  {
  }

  /** The fold from position `i`: parse that line, take the step, fold the rest. */
  lemma RunAt(acc: Accumulator, lines: seq<string>, i: nat, iv: Interval, hr: bool, p: Platform)
    requires i < |lines|
    ensures var parsed := ParseLine(lines[i], p);
      parsed.Err? ==> Run(acc, lines[i..], iv, hr, p) == Err(parsed.error)
    ensures var parsed := ParseLine(lines[i], p);
      parsed.Ok? ==> var next := Step(acc, parsed.value, iv, hr, p);
        Run(acc, lines[i..], iv, hr, p) == if next.Err? then Err(next.error) else Run(next.value, lines[i + 1..], iv, hr, p)
  {
    assert lines[i..][0] == lines[i];
    assert lines[i..][1..] == lines[i + 1..];
  }

  // ----- properties of aggregate_file -----

  /** A missing path raises, and the header line is never looked at. */
  lemma AggregateFileInput(header1: string, header2: string, body: seq<string>, startDate: Option<DateTime>, iv: Interval, hr: bool, p: Platform)
    ensures AggregateFileSpec(None, startDate, iv, hr, p) == Err(FileNotFound)
    ensures AggregateFileSpec(Some([header1] + body), startDate, iv, hr, p) == AggregateFileSpec(Some([header2] + body), startDate, iv, hr, p)
    ensures AggregateFileSpec(Some([]), startDate, iv, hr, p) == Ok(([], startDate))
    ensures AggregateFileSpec(Some([header1]), startDate, iv, hr, p) == Ok(([], startDate))
  {
    assert DataLines([header1] + body) == body;
    assert DataLines([header2] + body) == body;
  }

  /** A malformed line stops the fold with an error. */
  lemma {:induction false} RunFailsOnMalformed(acc: Accumulator, lines: seq<string>, k: nat, iv: Interval, hr: bool, p: Platform)
    requires k < |lines| && ParseLine(lines[k], p).Err?
    decreases k
    ensures Run(acc, lines, iv, hr, p).Err?
  {
    if k > 0 {
      var tick := ParseLine(lines[0], p);
      if tick.Ok? {
        var next := Step(acc, tick.value, iv, hr, p);
        if next.Ok? {
          assert lines[1..][k - 1] == lines[k];
          RunFailsOnMalformed(next.value, lines[1..], k - 1, iv, hr, p);
        }
      }
    }
  }

  /** A malformed data line anywhere makes `aggregate_file` raise. */
  lemma MalformedLineRaises(lines: seq<string>, k: nat, startDate: Option<DateTime>, iv: Interval, hr: bool, p: Platform)
    requires 1 <= k < |lines| && ParseLine(lines[k], p).Err?
    ensures AggregateFileSpec(Some(lines), startDate, iv, hr, p).Err?
  {
    assert lines[k] == DataLines(lines)[k - 1];
    RunFailsOnMalformed(Initial(startDate), DataLines(lines), k - 1, iv, hr, p);
  }

  /** After the fold the time is the last parsed tick's, or the starting one if there were no lines. */
  lemma {:induction false} RunPrevious(acc: Accumulator, lines: seq<string>, iv: Interval, hr: bool, p: Platform)
    decreases |lines|
    requires Run(acc, lines, iv, hr, p).Ok?
    ensures lines == [] ==> Run(acc, lines, iv, hr, p).value.previous == acc.previous
    ensures lines != [] ==> (ParseLine(lines[|lines| - 1], p).Ok?
      && Run(acc, lines, iv, hr, p).value.previous == Some(ParseLine(lines[|lines| - 1], p).value.time))
  {
    if lines != [] {
      var next := Step(acc, ParseLine(lines[0], p).value, iv, hr, p).value;
      RunPrevious(next, lines[1..], iv, hr, p);
      if |lines| > 1 {
        assert lines[1..][|lines[1..]| - 1] == lines[|lines| - 1];
      }
    }
  }

  /** `aggregate_file` returns the last parsed timestamp, or `start_date` when the file has no data lines. */
  lemma AggregateFileReturnsLastTime(lines: seq<string>, startDate: Option<DateTime>, iv: Interval, hr: bool, p: Platform)
    requires AggregateFileSpec(Some(lines), startDate, iv, hr, p).Ok?
    ensures |lines| <= 1 ==> AggregateFileSpec(Some(lines), startDate, iv, hr, p).value.1 == startDate
    ensures |lines| > 1 ==> (ParseLine(lines[|lines| - 1], p).Ok?
      && AggregateFileSpec(Some(lines), startDate, iv, hr, p).value.1 == Some(ParseLine(lines[|lines| - 1], p).value.time))
  {
    var body := DataLines(lines);
    RunPrevious(Initial(startDate), body, iv, hr, p);
    if |lines| > 1 {
      assert body[|body| - 1] == lines[|lines| - 1];
    }
  }

  /**
   * On a change of bucket, the bucket just closed is emitted with its mean (0.0 when it is
   * empty), then the fillers from the next bucket on; the accumulators restart at zero, so
   * the price of the tick that opened the new bucket is never counted.
   */
  lemma StepOnBucketChange(acc: Accumulator, time: DateTime, price1: real, price2: real, iv: Interval, hr: bool, p: Platform)
    requires !iv.Invalid? && acc.previous.Some? && !IsSameInterval(acc.previous.value, time, iv)
    ensures Step(acc, Tick(time, price1), iv, hr, p) == Step(acc, Tick(time, price2), iv, hr, p)
    ensures Step(acc, Tick(time, price1), iv, hr, p) ==
      Ok(Accumulator(
        acc.data
          + ([Point(StampOf(acc.previous.value, iv, hr, p), if acc.count == 0 then 0.0 else acc.sum / (acc.count as real))]
             + MissingPoints(Advance(acc.previous.value, iv), time, iv, hr, p)),
        0, 0.0, Some(time)))
  {
  }

  /** The fold over a concatenation is the fold over the second part from where the first ends. */
  lemma {:induction false} RunAppend(acc: Accumulator, a: seq<string>, b: seq<string>, iv: Interval, hr: bool, p: Platform)
    decreases |a|
    ensures Run(acc, a + b, iv, hr, p) ==
      match Run(acc, a, iv, hr, p)
      case Err(e) => Err(e)
      case Ok(mid) => Run(mid, b, iv, hr, p)
  {
    if a != [] {
      assert (a + b)[0] == a[0];
      assert (a + b)[1..] == a[1..] + b;
      var tick := ParseLine(a[0], p);
      if tick.Ok? {
        var next := Step(acc, tick.value, iv, hr, p);
        if next.Ok? {
          RunAppend(next.value, a[1..], b, iv, hr, p);
        }
      }
    } else {
      assert a + b == b;
    }
  }

  /**
   * Changing the price on a line that opens a new bucket changes nothing in the
   * result of the whole file.
   */
  lemma OpeningTickPriceIgnored(acc: Accumulator, before: seq<string>, line1: string, line2: string, after: seq<string>,
                                time: DateTime, price1: real, price2: real, iv: Interval, hr: bool, p: Platform)
    requires !iv.Invalid?
    requires ParseLine(line1, p) == Ok(Tick(time, price1)) && ParseLine(line2, p) == Ok(Tick(time, price2))
    requires Run(acc, before, iv, hr, p).Ok?
    requires var mid := Run(acc, before, iv, hr, p).value;
      mid.previous.Some? && !IsSameInterval(mid.previous.value, time, iv)
    ensures Run(acc, before + [line1] + after, iv, hr, p) == Run(acc, before + [line2] + after, iv, hr, p)
  {
    var mid := Run(acc, before, iv, hr, p).value;
    StepOnBucketChange(mid, time, price1, price2, iv, hr, p);
    var next := Step(mid, Tick(time, price1), iv, hr, p).value;
    assert ([line1] + after)[1..] == after && ([line2] + after)[1..] == after;
    RunCons(mid, [line1] + after, Tick(time, price1), next, iv, hr, p);
    RunCons(mid, [line2] + after, Tick(time, price2), next, iv, hr, p);
    RunAppend(acc, before, [line1] + after, iv, hr, p);
    RunAppend(acc, before, [line2] + after, iv, hr, p);
    assert before + [line1] + after == before + ([line1] + after);
    assert before + [line2] + after == before + ([line2] + after);
  }

  /** The prices of a sequence of ticks. */
  function Prices(ticks: seq<Tick>): (r: seq<real>)
    ensures |r| == |ticks| && forall k :: 0 <= k < |ticks| ==> r[k] == ticks[k].price
  {
    seq(|ticks|, k requires 0 <= k < |ticks| => ticks[k].price)
  }

  /** A tick in the open bucket (or the very first tick) is counted and summed. */
  lemma StepSameBucket(acc: Accumulator, tick: Tick, iv: Interval, hr: bool, p: Platform)
    requires acc.previous.None? || IsSameInterval(acc.previous.value, tick.time, iv)
    ensures Step(acc, tick, iv, hr, p) == Ok(Accumulator(acc.data, acc.count + 1, acc.sum + tick.price, Some(tick.time)))
  {
  }

  /** The fold over a parsed first line and a successful step continues from the step's result. */
  lemma RunCons(acc: Accumulator, lines: seq<string>, tick: Tick, next: Accumulator, iv: Interval, hr: bool, p: Platform)
    requires lines != [] && ParseLine(lines[0], p) == Ok(tick) && Step(acc, tick, iv, hr, p) == Ok(next)
    ensures Run(acc, lines, iv, hr, p) == Run(next, lines[1..], iv, hr, p)
  {
  }

  lemma PricesTail(ticks: seq<Tick>)
    requires ticks != []
    ensures Sum(Prices(ticks)) == ticks[0].price + Sum(Prices(ticks[1..]))
  {
    assert Prices(ticks[1..]) == Prices(ticks)[1..];
  }

  /** Line by line, `lines` parse to `ticks`. */
  predicate Parses(lines: seq<string>, ticks: seq<Tick>, p: Platform)
    decreases |lines|
  {
    |lines| == |ticks| && (lines != [] ==> ParseLine(lines[0], p) == Ok(ticks[0]) && Parses(lines[1..], ticks[1..], p))
  }

  lemma {:induction false} ParsesEach(lines: seq<string>, ticks: seq<Tick>, p: Platform)
    decreases |lines|
    requires |lines| == |ticks|
    requires forall k :: 0 <= k < |lines| ==> ParseLine(lines[k], p) == Ok(ticks[k])
    ensures Parses(lines, ticks, p)
  {
    if lines != [] {
      forall k | 0 <= k < |lines| - 1 ensures ParseLine(lines[1..][k], p) == Ok(ticks[1..][k]) {
        assert lines[1..][k] == lines[k + 1];
      }
      ParsesEach(lines[1..], ticks[1..], p);
    }
  }

  lemma SameBucketTail(t: DateTime, ticks: seq<Tick>, iv: Interval)
    requires ticks != []
    requires forall k :: 0 <= k < |ticks| ==> IsSameInterval(t, ticks[k].time, iv)
    ensures forall k :: 0 <= k < |ticks| - 1 ==> IsSameInterval(ticks[0].time, ticks[1..][k].time, iv)
  {
    forall k | 0 <= k < |ticks| - 1 ensures IsSameInterval(ticks[0].time, ticks[1..][k].time, iv) {
      assert IsSameInterval(t, ticks[k + 1].time, iv);
    }
  }

  /** Ticks that all fall in the open bucket are all counted and summed. */
  lemma {:induction false} RunWithinBucket(acc: Accumulator, lines: seq<string>, ticks: seq<Tick>, iv: Interval, hr: bool, p: Platform)
    decreases |lines|
    requires acc.previous.Some? && Parses(lines, ticks, p)
    requires forall k :: 0 <= k < |ticks| ==> IsSameInterval(acc.previous.value, ticks[k].time, iv)
    ensures Run(acc, lines, iv, hr, p) == Ok(Accumulator(acc.data, acc.count + |lines|, acc.sum + Sum(Prices(ticks)),
      if lines == [] then acc.previous else Some(ticks[|ticks| - 1].time)))
  {
    if lines != [] {
      var t0 := ticks[0];
      var next := Accumulator(acc.data, acc.count + 1, acc.sum + t0.price, Some(t0.time));
      StepSameBucket(acc, t0, iv, hr, p);
      RunCons(acc, lines, t0, next, iv, hr, p);
      SameBucketTail(acc.previous.value, ticks, iv);
      RunWithinBucket(next, lines[1..], ticks[1..], iv, hr, p);
      PricesTail(ticks);
      var last: DateTime := if |lines| == 1 then t0.time else ticks[|ticks| - 1].time;
      if |lines| > 1 {
        assert ticks[1..][|ticks| - 2] == ticks[|ticks| - 1];
      }
      assert Run(next, lines[1..], iv, hr, p) == Ok(Accumulator(acc.data, acc.count + |lines|, acc.sum + Sum(Prices(ticks)), Some(last)));
    }
  }

  /**
   * A file whose ticks all fall in the first tick's bucket yields one point: the mean of
   * every price, stamped with the bucket of the last tick.
   */
  lemma SingleBucketMean(header: string, body: seq<string>, ticks: seq<Tick>, iv: Interval, hr: bool, p: Platform)
    requires !iv.Invalid? && body != [] && |body| == |ticks|
    requires forall k :: 0 <= k < |body| ==> ParseLine(body[k], p) == Ok(ticks[k])
    requires forall k :: 0 <= k < |ticks| ==> IsSameInterval(ticks[0].time, ticks[k].time, iv)
    ensures AggregateFileSpec(Some([header] + body), None, iv, hr, p) ==
      Ok(([Point(StampOf(ticks[|ticks| - 1].time, iv, hr, p), Mean(Prices(ticks)))], Some(ticks[|ticks| - 1].time)))
  {
    assert DataLines([header] + body) == body;
    ParsesEach(body, ticks, p);
    var last := ticks[|ticks| - 1];
    var acc := FirstBucket(body, ticks, iv, hr, p);
    var point := Point(StampOf(last.time, iv, hr, p), Sum(Prices(ticks)) / (|ticks| as real));
    assert Finish(acc, iv, hr, p) == Ok([] + [point]);
    assert [] + [point] == [point];
  }

  /** The fold over lines that all stay in the first tick's bucket. */
  lemma FirstBucket(body: seq<string>, ticks: seq<Tick>, iv: Interval, hr: bool, p: Platform) returns (acc: Accumulator)
    requires !iv.Invalid? && body != [] && Parses(body, ticks, p)
    requires forall k :: 0 <= k < |ticks| ==> IsSameInterval(ticks[0].time, ticks[k].time, iv)
    ensures Run(Initial(None), body, iv, hr, p) == Ok(acc)
    ensures acc == Accumulator([], |ticks|, Sum(Prices(ticks)), Some(ticks[|ticks| - 1].time))
  {
    var t0 := ticks[0];
    var first := Accumulator([], 1, t0.price, Some(t0.time));
    StepSameBucket(Initial(None), t0, iv, hr, p);
    RunCons(Initial(None), body, t0, first, iv, hr, p);
    SameBucketTail(t0.time, ticks, iv);
    RunWithinBucket(first, body[1..], ticks[1..], iv, hr, p);
    PricesTail(ticks);
    if |body| > 1 {
      assert ticks[1..][|ticks| - 2] == ticks[|ticks| - 1];
    }
    acc := Accumulator([], |ticks|, Sum(Prices(ticks)), Some(ticks[|ticks| - 1].time));
  }

  // ----- the human-readable flag -----

  /** The amounts of a list of points. */
  function Amounts(points: seq<Point>): (r: seq<real>)
    ensures |r| == |points| && forall k :: 0 <= k < |points| ==> r[k] == points[k].amount
  {
    seq(|points|, k requires 0 <= k < |points| => points[k].amount)
  }

  /** Every stamp is formatted (when `hr`) or in epoch seconds (otherwise). */
  predicate StampsAre(points: seq<Point>, hr: bool)
  {
    forall k :: 0 <= k < |points| ==> points[k].stamp.Formatted? == hr
  }

  /** Two fold states that differ at most in their points' stamps. */
  predicate Twins(a: Accumulator, b: Accumulator)
  {
    a.count == b.count && a.sum == b.sum && a.previous == b.previous && Amounts(a.data) == Amounts(b.data)
    && StampsAre(a.data, true) && StampsAre(b.data, false)
  }

  lemma AmountsAppend(a: seq<Point>, b: seq<Point>)
    ensures Amounts(a + b) == Amounts(a) + Amounts(b)
  {
  }

  lemma StampsAppend(a: seq<Point>, b: seq<Point>, hr: bool)
    requires StampsAre(a, hr) && StampsAre(b, hr)
    ensures StampsAre(a + b, hr)
  {
  }

  /** Fillers carry 0.0 under either flag; only their stamps differ. */
  lemma FillersTwins(start: DateTime, iv: Interval, p: Platform, n: nat)
    requires !iv.Invalid?
    ensures Amounts(Fillers(start, iv, true, p, n)) == Amounts(Fillers(start, iv, false, p, n))
    ensures StampsAre(Fillers(start, iv, true, p, n), true) && StampsAre(Fillers(start, iv, false, p, n), false)
  {
    FillersAt(start, iv, true, p, n);
    FillersAt(start, iv, false, p, n);
  }

  /** The points appended on a change of bucket differ between the two flags only in their stamps. */
  lemma ClosedBucketTwins(previous: DateTime, count: nat, sum: real, time: DateTime, iv: Interval, p: Platform)
    requires !iv.Invalid?
    ensures var c1 := ClosedBucket(previous, count, sum, time, iv, true, p);
      var c2 := ClosedBucket(previous, count, sum, time, iv, false, p);
      c1.Ok? && c2.Ok? && Amounts(c1.value) == Amounts(c2.value) && StampsAre(c1.value, true) && StampsAre(c2.value, false)
  {
    var next := Advance(previous, iv);
    FillersTwins(next, iv, p, Remaining(next, time, iv));
  }

  lemma StepTwins(a: Accumulator, b: Accumulator, tick: Tick, iv: Interval, p: Platform)
    requires Twins(a, b)
    ensures Step(a, tick, iv, true, p).Err? == Step(b, tick, iv, false, p).Err?
    ensures Step(a, tick, iv, true, p).Err? ==> Step(a, tick, iv, true, p) == Step(b, tick, iv, false, p)
    ensures Step(a, tick, iv, true, p).Ok? ==> Twins(Step(a, tick, iv, true, p).value, Step(b, tick, iv, false, p).value)
  {
    if !(a.previous.None? || IsSameInterval(a.previous.value, tick.time, iv)) && !iv.Invalid? {
      var prev := a.previous.value;
      ClosedBucketTwins(prev, a.count, a.sum, tick.time, iv, p);
      var c1 := ClosedBucket(prev, a.count, a.sum, tick.time, iv, true, p).value;
      var c2 := ClosedBucket(prev, a.count, a.sum, tick.time, iv, false, p).value;
      AmountsAppend(a.data, c1);
      AmountsAppend(b.data, c2);
      StampsAppend(a.data, c1, true);
      StampsAppend(b.data, c2, false);
    }
  }

  lemma {:induction false} RunTwins(a: Accumulator, b: Accumulator, lines: seq<string>, iv: Interval, p: Platform)
    requires Twins(a, b)
    decreases |lines|
    ensures Run(a, lines, iv, true, p).Err? == Run(b, lines, iv, false, p).Err?
    ensures Run(a, lines, iv, true, p).Err? ==> Run(a, lines, iv, true, p) == Run(b, lines, iv, false, p)
    ensures Run(a, lines, iv, true, p).Ok? ==> Twins(Run(a, lines, iv, true, p).value, Run(b, lines, iv, false, p).value)
  {
    if lines != [] {
      var tick := ParseLine(lines[0], p);
      if tick.Ok? {
        StepTwins(a, b, tick.value, iv, p);
        var n1 := Step(a, tick.value, iv, true, p);
        var n2 := Step(b, tick.value, iv, false, p);
        if n1.Ok? {
          RunTwins(n1.value, n2.value, lines[1..], iv, p);
        }
      }
    }
  }

  lemma FinishTwins(a: Accumulator, b: Accumulator, iv: Interval, p: Platform)
    requires Twins(a, b) && Consistent(a)
    ensures var f1 := Finish(a, iv, true, p);
      var f2 := Finish(b, iv, false, p);
      && (f1.Err? <==> f2.Err?)
      && (f1.Err? ==> f1.error == f2.error)
      && (f1.Ok? ==> Amounts(f1.value) == Amounts(f2.value) && StampsAre(f1.value, true) && StampsAre(f2.value, false))
  {
    if a.count != 0 && !iv.Invalid? {
      var pt1 := CreatePoint(a.previous.value, a.sum / (a.count as real), iv, true, p).value;
      var pt2 := CreatePoint(b.previous.value, b.sum / (b.count as real), iv, false, p).value;
      assert Finish(a, iv, true, p) == Ok(a.data + [pt1]);
      assert Finish(b, iv, false, p) == Ok(b.data + [pt2]);
      AmountsAppend(a.data, [pt1]);
      AmountsAppend(b.data, [pt2]);
      StampsAppend(a.data, [pt1], true);
      StampsAppend(b.data, [pt2], false);
    }
  }

  /**
   * `human_readable` changes only the stamps: the same error, or the same amounts and
   * returned time, with formatted stamps against epoch seconds.
   */
  lemma HumanReadableOnlyChangesStamps(file: Option<seq<string>>, startDate: Option<DateTime>, iv: Interval, p: Platform)
    ensures var r1 := AggregateFileSpec(file, startDate, iv, true, p);
      var r2 := AggregateFileSpec(file, startDate, iv, false, p);
      && (r1.Err? <==> r2.Err?)
      && (r1.Err? ==> r1.error == r2.error)
      && (r1.Ok? ==> r1.value.1 == r2.value.1 && Amounts(r1.value.0) == Amounts(r2.value.0)
                     && StampsAre(r1.value.0, true) && StampsAre(r2.value.0, false))
  {
    if file.Some? {
      var lines := DataLines(file.value);
      RunTwins(Initial(startDate), Initial(startDate), lines, iv, p);
      var a1 := Run(Initial(startDate), lines, iv, true, p);
      var a2 := Run(Initial(startDate), lines, iv, false, p);
      if a1.Ok? {
        FinishTwins(a1.value, a2.value, iv, p);
      }
    }
  }

  // ----- join_duplicates -----

  /** The condition `data[i][0] == data[i][1]`: a point whose stamp equals its own amount. */
  predicate SelfStamped(point: Point)
  {
    point.stamp == Epoch(point.amount)
  }

  /**
   * `join_duplicates` leaves the list as it is unless a point before the last one is
   * self-stamped; then the assignment into the tuple raises before anything is changed.
   */
  function JoinResult(data: seq<Point>): (r: Result<seq<Point>, Error>)
    ensures r.Ok? ==> r.value == data
    ensures r.Err? <==> exists i :: 0 <= i < |data| - 1 && SelfStamped(data[i])
    ensures r.Err? ==> r.error == TupleAssignment
  {
    if exists i :: 0 <= i < |data| - 1 && SelfStamped(data[i]) then Err(TupleAssignment) else Ok(data)
  }

  method JoinDuplicates(data: seq<Point>) returns (r: Result<seq<Point>, Error>)
    ensures r == JoinResult(data)
  {
    var i := 0;
    while i < |data| - 1
      invariant 0 <= i <= |data| || (data == [] && i == 0)
      invariant forall j :: 0 <= j < i ==> !SelfStamped(data[j])
    {
      if SelfStamped(data[i]) {
        return Err(TupleAssignment);
      }
      i := i + 1;
    }
    return Ok(data);
  }

  /** Human-readable points carry strings, never equal to an amount: nothing is joined. */
  lemma FormattedNeverJoined(data: seq<Point>)
    requires StampsAre(data, true)
    ensures JoinResult(data) == Ok(data)
  {
    forall i | 0 <= i < |data| - 1 ensures !SelfStamped(data[i]) {
      assert data[i].stamp.Formatted?;
    }
  }

  // ----- aggregate_directory -----

  /** A directory: `os.listdir` order, and the regular files by name (anything else lacks an entry). */
  datatype Directory = Directory(listing: seq<string>, files: map<string, seq<string>>)

  function Lookup(d: Directory, name: string): Option<seq<string>>
  {
    if name in d.files then Some(d.files[name]) else None
  }

  /** The loop of `aggregate_directory` over the given names, threading the time. */
  function AggregateFiles(d: Directory, names: seq<string>, time: Option<DateTime>, iv: Interval, hr: bool, p: Platform)
    : (r: Result<(seq<Point>, Option<DateTime>), Error>)
    decreases |names|
    ensures names == [] ==> r == Ok(([], time))
  {
    if names == [] then Ok(([], time))
    else
      var first :- AggregateFileSpec(Lookup(d, names[0]), time, iv, hr, p);
      Prepend(first.0, AggregateFiles(d, names[1..], first.1, iv, hr, p))
  }

  /** Points already gathered, in front of the result of the remaining files. */
  function Prepend(data: seq<Point>, r: Result<(seq<Point>, Option<DateTime>), Error>): Result<(seq<Point>, Option<DateTime>), Error>
  {
    match r
    case Err(e) => Err(e)
    case Ok(v) => Ok((data + v.0, v.1))
  }

  /** `aggregate_directory`: a missing directory is `None`. */
  function AggregateDirectorySpec(dir: Option<Directory>, iv: Interval, hr: bool, p: Platform): Result<seq<Point>, Error>
  {
    match dir
    case None => Err(FileNotFound)
    case Some(d) =>
      var all :- AggregateFiles(d, Text.Sort(d.listing), None, iv, hr, p);
      JoinResult(all.0)
  }

  method AggregateDirectory(dir: Option<Directory>, iv: Interval, hr: bool, p: Platform) returns (r: Result<seq<Point>, Error>)
    ensures r == AggregateDirectorySpec(dir, iv, hr, p)
  {
    if dir.None? {
      return Err(FileNotFound);
    }
    var gathered := GatherFiles(dir.value, Text.Sort(dir.value.listing), iv, hr, p);
    if gathered.Err? {
      return Err(gathered.error);
    }
    r := JoinDuplicates(gathered.value);
  }

  /** The `for file in ...` loop of `aggregate_directory`: each file's points after the previous file's, the time carried over. */
  method GatherFiles(d: Directory, names: seq<string>, iv: Interval, hr: bool, p: Platform) returns (r: Result<seq<Point>, Error>)
    ensures r.Err? <==> AggregateFiles(d, names, None, iv, hr, p).Err?
    ensures r.Err? ==> r.error == AggregateFiles(d, names, None, iv, hr, p).error
    ensures r.Ok? ==> r.value == AggregateFiles(d, names, None, iv, hr, p).value.0
  {
    var data: seq<Point> := [];
    var time: Option<DateTime> := None;
    var i := 0;
    assert names[0..] == names;
    PrependNothing(AggregateFiles(d, names, None, iv, hr, p));
    while i < |names|
      invariant 0 <= i <= |names|
      invariant Prepend(data, AggregateFiles(d, names[i..], time, iv, hr, p)) == AggregateFiles(d, names, None, iv, hr, p)
    {
      AggregateFilesFrom(d, names, i, time, iv, hr, p);
      var result := AggregateFile(Lookup(d, names[i]), time, iv, hr, p);
      if result.Err? {
        return Err(result.error);
      }
      PrependTwice(data, result.value.0, AggregateFiles(d, names[i + 1..], result.value.1, iv, hr, p));
      data := data + result.value.0;
      time := result.value.1;
      i := i + 1;
    }
    assert data + [] == data;
    r := Ok(data);
  }

  /** The loop's step: the file at position `i`, then the files after it. */
  lemma AggregateFilesFrom(d: Directory, names: seq<string>, i: nat, time: Option<DateTime>, iv: Interval, hr: bool, p: Platform)
    requires i < |names|
    ensures AggregateFiles(d, names[i..], time, iv, hr, p) ==
      match AggregateFileSpec(Lookup(d, names[i]), time, iv, hr, p)
      case Err(e) => Err(e)
      case Ok(first) => Prepend(first.0, AggregateFiles(d, names[i + 1..], first.1, iv, hr, p))
  {
    assert names[i..][0] == names[i];
    assert names[i..][1..] == names[i + 1..];
  }

  lemma PrependTwice(a: seq<Point>, b: seq<Point>, r: Result<(seq<Point>, Option<DateTime>), Error>)
    ensures Prepend(a, Prepend(b, r)) == Prepend(a + b, r)
  {
    if r.Ok? {
      assert a + (b + r.value.0) == (a + b) + r.value.0;
    }
  }

  lemma PrependNothing(r: Result<(seq<Point>, Option<DateTime>), Error>)
    ensures Prepend([], r) == r
  {
    if r.Ok? {
      assert [] + r.value.0 == r.value.0;
    }
  }

  /** The result of the files in `b`, started from where the result `r` of some earlier files ends. */
  function Then(r: Result<(seq<Point>, Option<DateTime>), Error>, d: Directory, b: seq<string>, iv: Interval, hr: bool, p: Platform)
    : Result<(seq<Point>, Option<DateTime>), Error>
  {
    match r
    case Err(e) => Err(e)
    case Ok(v) => Prepend(v.0, AggregateFiles(d, b, v.1, iv, hr, p))
  }

  /** The files in a sequence of names contribute their points consecutively, in that order. */
  lemma {:induction false} AggregateFilesAppend(d: Directory, a: seq<string>, b: seq<string>, time: Option<DateTime>, iv: Interval, hr: bool, p: Platform)
    decreases |a|
    ensures AggregateFiles(d, a + b, time, iv, hr, p) == Then(AggregateFiles(d, a, time, iv, hr, p), d, b, iv, hr, p)
  {
    if a == [] {
      assert a + b == b;
      PrependNothing(AggregateFiles(d, b, time, iv, hr, p));
    } else {
      assert (a + b)[0] == a[0] && (a + b)[1..] == a[1..] + b;
      var first := AggregateFileSpec(Lookup(d, a[0]), time, iv, hr, p);
      if first.Ok? {
        var (x, t) := first.value;
        AggregateFilesAppend(d, a[1..], b, t, iv, hr, p);
        var rest := AggregateFiles(d, a[1..], t, iv, hr, p);
        if rest.Ok? {
          PrependTwice(x, rest.value.0, AggregateFiles(d, b, rest.value.1, iv, hr, p));
        }
      }
    }
  }

  /** A pass over the files succeeds only if every listed name is an existing file (a missing one raises FileNotFoundError). */
  lemma {:induction false} AggregateFilesFound(d: Directory, names: seq<string>, time: Option<DateTime>, iv: Interval, hr: bool, p: Platform)
    requires AggregateFiles(d, names, time, iv, hr, p).Ok?
    decreases |names|
    ensures forall k :: 0 <= k < |names| ==> names[k] in d.files
  {
    if names != [] {
      var look := Lookup(d, names[0]);
      var first := AggregateFileSpec(look, time, iv, hr, p);
      assert first.Ok? && look.Some?;
      var rest := AggregateFiles(d, names[1..], first.value.1, iv, hr, p);
      assert AggregateFiles(d, names, time, iv, hr, p) == Prepend(first.value.0, rest);
      AggregateFilesFound(d, names[1..], first.value.1, iv, hr, p);
      forall k | 1 <= k < |names| ensures names[k] in d.files {
        assert names[k] == names[1..][k - 1];
      }
    }
  }

  lemma {:induction false} AggregateFilesStamps(d: Directory, names: seq<string>, time: Option<DateTime>, iv: Interval, p: Platform)
    decreases |names|
    requires AggregateFiles(d, names, time, iv, true, p).Ok?
    ensures StampsAre(AggregateFiles(d, names, time, iv, true, p).value.0, true)
  {
    if names != [] {
      HumanReadableOnlyChangesStamps(Lookup(d, names[0]), time, iv, p);
      var first := AggregateFileSpec(Lookup(d, names[0]), time, iv, true, p).value;
      AggregateFilesStamps(d, names[1..], first.1, iv, p);
    }
  }

  /**
   * With human-readable stamps the directory's result is every file's points, in
   * sorted name order, unchanged by `join_duplicates`.
   */
  lemma HumanReadableDirectoryKeepsAll(d: Directory, iv: Interval, p: Platform)
    requires AggregateFiles(d, Text.Sort(d.listing), None, iv, true, p).Ok?
    ensures AggregateDirectorySpec(Some(d), iv, true, p) == Ok(AggregateFiles(d, Text.Sort(d.listing), None, iv, true, p).value.0)
  {
    AggregateFilesStamps(d, Text.Sort(d.listing), None, iv, p);
    FormattedNeverJoined(AggregateFiles(d, Text.Sort(d.listing), None, iv, true, p).value.0);
  }

  // ----- create_file -----

  /** How `'%s'` renders a stamp. */
  function StampText(s: Stamp, p: Platform): string
  {
    match s
    case Formatted(bucket, format) => p.strftime(bucket, format)
    case Epoch(seconds) => p.str(seconds)
  }

  /** One written row: `'%s,%s\n' % (row[0], row[1])`. */
  function Row(point: Point, p: Platform): string
  {
    StampText(point.stamp, p) + "," + p.str(point.amount) + "\n"
  }

  /** The file contents: the rows in order. */
  function Rows(data: seq<Point>, p: Platform): string
  {
    if data == [] then "" else Rows(data[..|data| - 1], p) + Row(data[|data| - 1], p)
  }

  /** `create_file`, with the write loop building the contents. */
  method CreateFile(data: seq<Point>, p: Platform) returns (contents: string)
    ensures contents == Rows(data, p)
  {
    contents := "";
    for i := 0 to |data|
      invariant contents == Rows(data[..i], p)
    {
      assert data[..i + 1][..i] == data[..i];
      contents := contents + Row(data[i], p);
    }
    assert data[..|data|] == data;
  }

  /** The number of occurrences of a character. */
  function Count(s: string, c: char): nat
  {
    if s == [] then 0 else Count(s[..|s| - 1], c) + (if s[|s| - 1] == c then 1 else 0)
  }

  lemma {:induction false} CountAppend(a: string, b: string, c: char)
    decreases |b|
    ensures Count(a + b, c) == Count(a, c) + Count(b, c)
  {
    if b != [] {
      assert (a + b)[..|a + b| - 1] == a + b[..|b| - 1];
      CountAppend(a, b[..|b| - 1], c);
    } else {
      assert a + b == a;
    }
  }

  /** When no rendering contains a line break, the file has one line per point. */
  lemma {:induction false} RowsLineCount(data: seq<Point>, p: Platform)
    requires forall k :: 0 <= k < |data| ==> Count(StampText(data[k].stamp, p), '\n') == 0 && Count(p.str(data[k].amount), '\n') == 0
    ensures Count(Rows(data, p), '\n') == |data|
  {
    if data != [] {
      var last := data[|data| - 1];
      RowsLineCount(data[..|data| - 1], p);
      CountAppend(Rows(data[..|data| - 1], p), Row(last, p), '\n');
      CountAppend(StampText(last.stamp, p) + "," + p.str(last.amount), "\n", '\n');
      CountAppend(StampText(last.stamp, p) + ",", p.str(last.amount), '\n');
      CountAppend(StampText(last.stamp, p), ",", '\n');
      assert Count("\n", '\n') == 1 by { assert "\n"[..0] == ""; }
      assert Count(",", '\n') == 0 by { assert ","[..0] == ""; }
    }
  }
}
