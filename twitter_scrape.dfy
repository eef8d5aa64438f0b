/**
 * utils/twitterscrape.py: fetch a day's Bitcoin tweets in batches, pair each
 * tweet with the tone scores the analyser returns for it, and write one CSV
 * row per tweet with the seven tone columns.
 */
module TwitterScrape {
  import opened Base
  import opened Seqs
  import Text

  /** The tone columns, in file order. */
  const Tones: seq<string> := ["sad", "frustrated", "satisfied", "excited", "polite", "impolite", "sympathetic"]

  datatype Tweet = Tweet(timestamp: string, text: string)

  /** One `(score, tone_id)` pair of an utterance's analysis. */
  datatype ToneScore = ToneScore(score: real, toneId: string)

  /** A combined record: a tweet's timestamp and text with its utterance tones. */
  datatype Response = Response(timestamp: string, text: string, tones: seq<ToneScore>)

  /**
   * The network services: `query_tweets` for one day (`begindate` to the next
   * day) with the given `limit`, and the tone analyser (`analyze_batch`) on a
   * batch of texts, None when `tone_chat` raises or its answer has no
   * `'utterances_tone'` entry.
   */
  datatype Services = Services(fetch: (int, int) -> seq<Tweet>, analyze: seq<string> -> Option<seq<seq<ToneScore>>>)

  // ----- grab_tweets -----

  /** The batches `grab_tweets` yields: `tweets[i*bs : i*bs + bs]` for each `i` in `range(batches)`. */
  function Batches<T>(tweets: seq<T>, batchSize: nat, batches: nat): (r: seq<seq<T>>)
    ensures |r| == batches
    ensures forall i :: 0 <= i < batches ==> |r[i]| <= batchSize
  {
    seq(batches, i requires 0 <= i < batches => Slice(tweets, i * batchSize, i * batchSize + batchSize))
  }

  function Min(a: nat, b: nat): nat { if a < b then a else b }

  /** Batch i is the window of at most `bs` tweets starting at `i*bs`, cut off at the end of the fetched list. */
  lemma BatchAt<T>(tweets: seq<T>, bs: nat, batches: nat, i: nat)
    requires i < batches
    ensures |Batches(tweets, bs, batches)| == batches
    ensures var lo, hi := Min(i * bs, |tweets|), Min(i * bs + bs, |tweets|);
            |Batches(tweets, bs, batches)[i]| <= bs && Batches(tweets, bs, batches)[i] == tweets[lo..hi]
  {
  }

  /**
   * The batches are consecutive and disjoint: laid end to end they are the
   * first `batches * bs` fetched tweets (or all of them, if fewer were fetched).
   */
  lemma {:induction false} BatchesCover<T>(tweets: seq<T>, bs: nat, batches: nat)
    ensures Flatten(Batches(tweets, bs, batches)) == tweets[..Min(batches * bs, |tweets|)]
  {
    if batches == 0 {
      assert Batches(tweets, bs, 0) == [];
    } else {
      var b := batches - 1;
      var m := b * bs;
      assert batches * bs == m + bs;
      BatchesCover(tweets, bs, b);
      assert Batches(tweets, bs, batches) == Batches(tweets, bs, b) + [Batches(tweets, bs, batches)[b]];
      FlattenSnoc(Batches(tweets, bs, b), Batches(tweets, bs, batches)[b]);
      BatchAt(tweets, bs, batches, b);
      assert tweets[..Min(m + bs, |tweets|)] == tweets[..Min(m, |tweets|)] + tweets[Min(m, |tweets|)..Min(m + bs, |tweets|)];
    }
  }

  // ----- pairing tweets with tones -----

  /** The texts sent to the analyser: `[{'text': i.text} for i in tweet_batch]`. */
  function Texts(batch: seq<Tweet>): (r: seq<string>)
    ensures |r| == |batch|
  {
    seq(|batch|, i requires 0 <= i < |batch| => batch[i].text)
  }

  /**
   * The pairing the loop over `range(len(tweet_batch))` performs: record i
   * takes tweet i's timestamp and text and `utterance_tones[i]`. Fewer tone
   * entries than tweets is an IndexError, None here.
   */
  function Combined(batch: seq<Tweet>, tones: seq<seq<ToneScore>>): Option<seq<Response>>
  {
    if |tones| < |batch| then None
    else Some(seq(|batch|, i requires 0 <= i < |batch| => Response(batch[i].timestamp, batch[i].text, tones[i])))
  }

  method CombineBatch(batch: seq<Tweet>, tones: seq<seq<ToneScore>>) returns (r: Option<seq<Response>>)
    ensures r == Combined(batch, tones)
    ensures r.Some? <==> |tones| >= |batch|
  {
    var combined := [];
    var i := 0;
    while i < |batch|
      invariant 0 <= i <= |batch| && i <= |tones|
      invariant combined == seq(i, k requires 0 <= k < i => Response(batch[k].timestamp, batch[k].text, tones[k]))
    {
      if i >= |tones| {
        return None;
      }
      combined := combined + [Response(batch[i].timestamp, batch[i].text, tones[i])];
      i := i + 1;
    }
    return Some(combined);
  }

  /** All the values, or None as soon as one is missing (the first exception ends the run). */
  function Collect<T>(xs: seq<Option<T>>): (r: Option<seq<T>>)
    ensures r.Some? ==> |r.value| == |xs|
  {
    if xs == [] then Some([])
    else
      match Collect(xs[..|xs| - 1])
      case None => None
      case Some(init) =>
        match xs[|xs| - 1]
        case None => None
        case Some(x) => Some(init + [x])
  }

  /** Collecting succeeds exactly when every entry is present, and then keeps them in order. */
  lemma {:induction false} CollectIff<T>(xs: seq<Option<T>>)
    ensures Collect(xs).Some? <==> forall i :: 0 <= i < |xs| ==> xs[i].Some?
    ensures Collect(xs).Some? ==> forall i :: 0 <= i < |xs| ==> xs[i] == Some(Collect(xs).value[i])
  {
    if xs != [] {
      var init := xs[..|xs| - 1];
      CollectIff(init);
      assert forall i :: 0 <= i < |init| ==> init[i] == xs[i];
    }
  }

  /** One batch's records: an analyser failure, or the pairing of the batch with the analyser's answer. */
  function BatchRecord(batch: seq<Tweet>, answer: Option<seq<seq<ToneScore>>>): (r: Option<seq<Response>>)
    ensures answer.None? ==> r.None?
    ensures answer.Some? ==> r == Combined(batch, answer.value)
  {
    match answer
    case None => None
    case Some(tones) => Combined(batch, tones)
  }

  /** The records of a list of batches: each batch paired with the analyser's answer for its texts, in order. */
  function BatchRecords(batches: seq<seq<Tweet>>, analyze: seq<string> -> Option<seq<seq<ToneScore>>>): seq<Option<seq<Response>>>
  {
    seq(|batches|, k requires 0 <= k < |batches| => BatchRecord(batches[k], analyze(Texts(batches[k]))))
  }

  /** What one day contributes to `total_responses`: its batches' records, extended one batch after another. */
  function DayResponses(svc: Services, day: int, bs: nat, batches: nat): Option<seq<Response>>
  {
    var fetched := svc.fetch(day, bs * batches * 10);
    match Collect(BatchRecords(Batches(fetched, bs, batches), svc.analyze))
    case None => None
    case Some(parts) => Some(Flatten(parts))
  }

  /** The body of one iteration of `process_days`' date loop: the batch loop extending `day_responses`. */
  method ProcessDay(svc: Services, day: int, bs: nat, batches: nat) returns (r: Option<seq<Response>>)
    ensures r == DayResponses(svc, day, bs, batches)
  {
    var bats := Batches(svc.fetch(day, bs * batches * 10), bs, batches);
    var recs := BatchRecords(bats, svc.analyze);
    var dayResponses := [];
    ghost var parts := [];
    var k := 0;
    while k < |bats|
      invariant 0 <= k <= |bats|
      invariant Collect(recs[..k]) == Some(parts) && dayResponses == Flatten(parts)
    {
      var answer := svc.analyze(Texts(bats[k]));
      var combined := None;
      if answer.Some? {
        combined := CombineBatch(bats[k], answer.value);
      }
      assert combined == recs[k];
      assert recs[..k + 1][..k] == recs[..k];
      if combined.None? {
        CollectIff(recs[..k + 1]);
        CollectIff(recs);
        assert recs[..k + 1][k] == recs[k];
        return None;
      }
      FlattenSnoc(parts, combined.value);
      parts := parts + [combined.value];
      dayResponses := dayResponses + combined.value;
      k := k + 1;
    }
    assert recs[..k] == recs;
    return Some(dayResponses);
  }

  /** The tweets a list of records was built from. */
  function TweetsOf(rs: seq<Response>): (r: seq<Tweet>)
    ensures |r| == |rs|
  {
    seq(|rs|, i requires 0 <= i < |rs| => Tweet(rs[i].timestamp, rs[i].text))
  }

  /** A combined batch is built from exactly the batch's tweets, in order. */
  lemma CombinedTweets(batch: seq<Tweet>, tones: seq<seq<ToneScore>>)
    requires Combined(batch, tones).Some?
    ensures TweetsOf(Combined(batch, tones).value) == batch
  {
  }

  lemma {:induction false} TweetsOfFlatten(parts: seq<seq<Response>>, bats: seq<seq<Tweet>>)
    requires |parts| == |bats| && forall k :: 0 <= k < |parts| ==> TweetsOf(parts[k]) == bats[k]
    ensures TweetsOf(Flatten(parts)) == Flatten(bats)
  {
    if parts != [] {
      TweetsOfFlatten(parts[1..], bats[1..]);
      assert TweetsOf(parts[0] + Flatten(parts[1..])) == TweetsOf(parts[0]) + TweetsOf(Flatten(parts[1..]));
    }
  }

  /**
   * A day that analyses without error yields one record per fetched tweet, up
   * to `batches * bs` of them, in fetch order, each carrying that tweet's
   * timestamp and text and the tone entry at the tweet's place in its batch.
   */
  lemma DayPairsTweets(svc: Services, day: int, bs: nat, batches: nat)
    requires DayResponses(svc, day, bs, batches).Some?
    ensures var fetched := svc.fetch(day, bs * batches * 10);
            TweetsOf(DayResponses(svc, day, bs, batches).value) == fetched[..Min(batches * bs, |fetched|)]
  {
    var fetched := svc.fetch(day, bs * batches * 10);
    var bats := Batches(fetched, bs, batches);
    var recs := BatchRecords(bats, svc.analyze);
    CollectIff(recs);
    var parts := Collect(recs).value;
    forall k | 0 <= k < |parts| ensures TweetsOf(parts[k]) == bats[k] {
      assert recs[k] == Some(parts[k]);
      var answer := svc.analyze(Texts(bats[k]));
      assert recs[k] == BatchRecord(bats[k], answer);
      assert answer.Some? && Combined(bats[k], answer.value) == Some(parts[k]);
      CombinedTweets(bats[k], answer.value);
    }
    TweetsOfFlatten(parts, bats);
    BatchesCover(fetched, bs, batches);
  }

  /** How many days `while current_date < end_date` visits. */
  function DayCount(start: int, end: int): nat
  {
    if start < end then end - start else 0
  }

  /** The day loop's results for the days `start`, `start + 1`, ... before `end`. */
  function AllDays(svc: Services, start: int, end: int, bs: nat, batches: nat): seq<Option<seq<Response>>>
  {
    seq(DayCount(start, end), d requires 0 <= d < DayCount(start, end) => DayResponses(svc, start + d, bs, batches))
  }

  /**
   * `process_days(start_date, end_date, batch_size, batches)`, with dates as
   * day numbers: the day loop from `start` up to but excluding `end`.
   */
  method ProcessDays(svc: Services, start: int, end: int, bs: nat, batches: nat) returns (r: Option<seq<seq<Response>>>)
    ensures r == Collect(AllDays(svc, start, end, bs, batches))
  {
    ghost var all := AllDays(svc, start, end, bs, batches);
    var current := start;
    var total := [];
    while current < end
      invariant start <= current && (current <= end || current == start)
      invariant Collect(all[..current - start]) == Some(total)
    {
      var i := current - start;
      var day := ProcessDay(svc, current, bs, batches);
      assert all[..i + 1][..i] == all[..i];
      assert all[..i + 1][i] == all[i] == day;
      if day.None? {
        CollectPrefixFails(all, i + 1);
        return None;
      }
      total := total + [day.value];
      current := current + 1;
    }
    assert all[..current - start] == all;
    return Some(total);
  }

  /** Once a prefix fails, the whole run fails. */
  lemma CollectPrefixFails<T>(xs: seq<Option<T>>, k: nat)
    requires k <= |xs| && Collect(xs[..k]).None?
    ensures Collect(xs).None?
  {
    CollectIff(xs[..k]);
    CollectIff(xs);
    var i :| 0 <= i < k && xs[..k][i].None?;
    assert xs[i].None?;
  }

  /**
   * The result of the day loop has one inner list per day from `start` up to
   * but excluding `end`, in day order, none when `start >= end`; it fails
   * exactly when some day fails.
   */
  lemma DaysShape(svc: Services, start: int, end: int, bs: nat, batches: nat)
    ensures var r := Collect(AllDays(svc, start, end, bs, batches));
            (r.Some? <==> forall d :: 0 <= d < DayCount(start, end) ==> AllDays(svc, start, end, bs, batches)[d].Some?) &&
            (r.Some? ==> |r.value| == DayCount(start, end)) &&
            (r.Some? ==> forall d :: 0 <= d < |r.value| ==> Some(r.value[d]) == DayResponses(svc, start + d, bs, batches))
  {
    CollectIff(AllDays(svc, start, end, bs, batches));
  }

  // ----- create_file -----

  /** The header's column names: the timestamp, the seven tones in `tones` order, the text. */
  const HeaderNames: seq<string> := ["timestamp"] + Tones + ["text"]

  /** The header line: the column names joined by commas, then a newline. */
  const Header: string := Text.Join(HeaderNames, ",") + "\n"

  /** The header line splits back into exactly its nine column names. */
  lemma HeaderFields()
    ensures |HeaderNames| == 9 && HeaderNames[0] == "timestamp" && HeaderNames[1..8] == Tones && HeaderNames[8] == "text"
    ensures Text.Split(Header[..|Header| - 1], ",") == HeaderNames
  {
    assert Header[..|Header| - 1] == Text.Join(HeaderNames, ",");
    forall k | 0 <= k < |HeaderNames| ensures ',' !in HeaderNames[k] {
    }
    Text.SplitJoin(HeaderNames, ',');
  }

  /** The score of the first entry for `name` (the inner loop's `break`), or None when the `else` writes `0.0`. */
  function FirstScore(tones: seq<ToneScore>, name: string): Option<real>
  {
    if tones == [] then None
    else if tones[0].toneId == name then Some(tones[0].score)
    else FirstScore(tones[1..], name)
  }

  /** The score found belongs to the first entry with that tone; None means no entry has it. */
  lemma {:induction false} FirstScoreIff(tones: seq<ToneScore>, name: string)
    ensures FirstScore(tones, name).None? <==> forall k :: 0 <= k < |tones| ==> tones[k].toneId != name
    ensures FirstScore(tones, name).Some? ==>
              exists k :: 0 <= k < |tones| && tones[k].toneId == name && tones[k].score == FirstScore(tones, name).value &&
                forall m :: 0 <= m < k ==> tones[m].toneId != name
  {
    if tones != [] && tones[0].toneId != name {
      FirstScoreIff(tones[1..], name);
      assert forall k :: 1 <= k < |tones| ==> tones[k] == tones[1..][k - 1];
      if FirstScore(tones, name).Some? {
        var k :| 0 <= k < |tones[1..]| && tones[1..][k].toneId == name && tones[1..][k].score == FirstScore(tones, name).value &&
                  forall m :: 0 <= m < k ==> tones[1..][m].toneId != name;
        assert tones[k + 1].toneId == name && forall m :: 0 <= m < k + 1 ==> tones[m].toneId != name;
      }
    }
  }

  /** The text of one tone column: the score as `'%s'` renders it, or `0.0`. */
  function ToneValue(tones: seq<ToneScore>, name: string, show: real -> string): string
  {
    match FirstScore(tones, name)
    case Some(s) => show(s)
    case None => "0.0"
  }

  /** Each string with a comma in front. */
  function Prefixed(vs: seq<string>): (r: seq<string>)
    ensures |r| == |vs|
  {
    seq(|vs|, k requires 0 <= k < |vs| => "," + vs[k])
  }

  /** The tone columns' values, in `tones` order. */
  function ToneValues(tones: seq<ToneScore>, show: real -> string): (r: seq<string>)
    ensures |r| == |Tones|
  {
    seq(|Tones|, k requires 0 <= k < |Tones| => ToneValue(tones, Tones[k], show))
  }

  /** The comma-prefixed tone columns, in `tones` order. */
  function ToneCells(tones: seq<ToneScore>, show: real -> string): seq<string>
  {
    Prefixed(ToneValues(tones, show))
  }

  /** The tweet text with newlines, commas and both quote characters removed, then stripped. */
  function Sanitise(text: string): (r: string)
    ensures |r| <= |text|
    ensures r != [] ==> !Text.IsSpace(r[0]) && !Text.IsSpace(r[|r| - 1])
  {
    Text.Strip(Text.RemoveChar(Text.RemoveChar(Text.RemoveChar(Text.RemoveChar(text, '\n'), ','), '"'), '\''))
  }

  /** A row of the file: timestamp, the seven tone columns, the sanitised text, a newline. */
  function Row(r: Response, show: real -> string): string
  {
    r.timestamp + Flatten(ToneCells(r.tones, show)) + "," + Sanitise(r.text) + "\n"
  }

  /** One day's rows, in record order. */
  function DayRows(day: seq<Response>, show: real -> string): seq<string>
  {
    seq(|day|, k requires 0 <= k < |day| => Row(day[k], show))
  }

  /** Every day's text, in day order. */
  function DayTexts(responses: seq<seq<Response>>, show: real -> string): seq<string>
  {
    seq(|responses|, d requires 0 <= d < |responses| => Flatten(DayRows(responses[d], show)))
  }

  /** The whole file: the header, then every row, day by day and in record order within a day. */
  function FileText(responses: seq<seq<Response>>, show: real -> string): string
  {
    Header + Flatten(DayTexts(responses, show))
  }

  /** The sanitised text holds no newline, comma or quote and has no whitespace at either end. */
  lemma SanitisedClean(text: string)
    ensures '\n' !in Sanitise(text) && ',' !in Sanitise(text) && '"' !in Sanitise(text) && '\'' !in Sanitise(text)
    ensures Sanitise(text) != [] ==> !Text.IsSpace(Sanitise(text)[0]) && !Text.IsSpace(Sanitise(text)[|Sanitise(text)| - 1])
  {
    var s1 := Text.RemoveChar(text, '\n');
    var s2 := Text.RemoveChar(s1, ',');
    var s3 := Text.RemoveChar(s2, '"');
    var s4 := Text.RemoveChar(s3, '\'');
    Text.RemoveCharFree(text, '\n', '\n');
    Text.RemoveCharFree(s1, ',', '\n');
    Text.RemoveCharFree(s2, '"', '\n');
    Text.RemoveCharFree(s3, '\'', '\n');
    Text.RemoveCharFree(s1, ',', ',');
    Text.RemoveCharFree(s2, '"', ',');
    Text.RemoveCharFree(s3, '\'', ',');
    Text.RemoveCharFree(s2, '"', '"');
    Text.RemoveCharFree(s3, '\'', '"');
    Text.RemoveCharFree(s3, '\'', '\'');
    Text.StripFree(s4, '\n');
    Text.StripFree(s4, ',');
    Text.StripFree(s4, '"');
    Text.StripFree(s4, '\'');
  }

  /** A text that is already clean is written unchanged. */
  lemma SanitiseKeepsCleanText(text: string)
    requires '\n' !in text && ',' !in text && '"' !in text && '\'' !in text
    requires text != [] && !Text.IsSpace(text[0]) && !Text.IsSpace(text[|text| - 1])
    ensures Sanitise(text) == text
  {
    Text.StripUnchanged(text);
  }

  /** `x` followed by each of `vs` prefixed by a comma is the comma-join of `[x] + vs`. */
  lemma {:induction false} JoinPrefixed(x: string, vs: seq<string>)
    decreases |vs|
    ensures x + Flatten(Prefixed(vs)) == Text.Join([x] + vs, ",")
  {
    if vs != [] {
      var rest := vs[1..];
      JoinPrefixed(vs[0], rest);
      assert Prefixed(vs) == [Prefixed(vs)[0]] + Prefixed(rest);
      assert ([x] + vs)[1..] == [vs[0]] + rest;
    }
  }

  /** The same with a last field after the prefixed ones. */
  lemma JoinPrefixedLast(x: string, vs: seq<string>, last: string)
    ensures x + Flatten(Prefixed(vs)) + "," + last == Text.Join([x] + vs + [last], ",")
  {
    JoinPrefixed(x, vs + [last]);
    assert Prefixed(vs + [last]) == Prefixed(vs) + ["," + last];
    FlattenSnoc(Prefixed(vs), "," + last);
    assert [x] + (vs + [last]) == [x] + vs + [last];
  }

  /** The fields of a row, in column order. */
  function RowFieldList(r: Response, show: real -> string): seq<string>
  {
    [r.timestamp] + ToneValues(r.tones, show) + [Sanitise(r.text)]
  }

  /** A row is its fields joined by commas, then a newline. */
  lemma RowIsJoin(r: Response, show: real -> string)
    ensures Row(r, show) == Text.Join(RowFieldList(r, show), ",") + "\n"
  {
    JoinPrefixedLast(r.timestamp, ToneValues(r.tones, show), Sanitise(r.text));
  }

  /**
   * Each row has exactly nine comma-separated fields: the timestamp, the seven
   * tone columns in `tones` order (the first matching score, or `0.0`), and
   * the sanitised text, provided the timestamp and the rendered scores hold
   * no comma.
   */
  lemma RowFields(r: Response, show: real -> string)
    requires ',' !in r.timestamp && forall s :: ',' !in show(s)
    ensures var line := Row(r, show);
            |line| >= 1 && line[|line| - 1] == '\n' &&
            Text.Split(line[..|line| - 1], ",") == [r.timestamp] + ToneValues(r.tones, show) + [Sanitise(r.text)]
  {
    var fields := RowFieldList(r, show);
    RowIsJoin(r, show);
    var line := Row(r, show);
    assert line[..|line| - 1] == Text.Join(fields, ",");
    SanitisedClean(r.text);
    forall k | 0 <= k < |fields| ensures ',' !in fields[k] {
      if 1 <= k <= |Tones| {
        assert fields[k] == ToneValue(r.tones, Tones[k - 1], show);
      }
    }
    Text.SplitJoin(fields, ',');
  }

  /** One tone column: the search loop over `response[2]` with its `break` and `else`. */
  method WriteTone(tones: seq<ToneScore>, name: string, show: real -> string) returns (cell: string)
    ensures cell == "," + ToneValue(tones, name, show)
  {
    var j := 0;
    while j < |tones|
      invariant 0 <= j <= |tones|
      invariant FirstScore(tones[j..], name) == FirstScore(tones, name)
    {
      if tones[j].toneId == name {
        return "," + show(tones[j].score);
      }
      assert tones[j..][1..] == tones[j + 1..];
      j := j + 1;
    }
    return ",0.0";
  }

  /** One row, written field by field. */
  method WriteRow(r: Response, show: real -> string) returns (line: string)
    ensures line == Row(r, show)
  {
    var cells := ToneCells(r.tones, show);
    var columns := "";
    var t := 0;
    while t < |Tones|
      invariant 0 <= t <= |Tones|
      invariant columns == Flatten(cells[..t])
    {
      var cell := WriteTone(r.tones, Tones[t], show);
      FlattenPrefix(cells, t, columns, cell);
      columns := columns + cell;
      t := t + 1;
    }
    assert cells[..t] == cells;
    line := r.timestamp + columns + "," + Sanitise(r.text) + "\n";
  }

  /** One day's rows, in record order. */
  method WriteDay(day: seq<Response>, show: real -> string) returns (text: string)
    ensures text == Flatten(DayRows(day, show))
  {
    ghost var rows := DayRows(day, show);
    text := "";
    var k := 0;
    while k < |day|
      invariant 0 <= k <= |day|
      invariant text == Flatten(rows[..k])
    {
      var line := WriteRow(day[k], show);
      FlattenPrefix(rows, k, text, line);
      text := text + line;
      k := k + 1;
    }
    assert rows[..k] == rows;
  }

  /**
   * `create_file(output_file, responses)`: the text written to the file, with
   * each score rendered by `show` (Python's `'%s' % score`).
   */
  method CreateFile(responses: seq<seq<Response>>, show: real -> string) returns (out: string)
    ensures out == FileText(responses, show)
  {
    ghost var days := DayTexts(responses, show);
    var rows := "";
    var d := 0;
    while d < |responses|
      invariant 0 <= d <= |responses|
      invariant rows == Flatten(days[..d])
    {
      var text := WriteDay(responses[d], show);
      FlattenPrefix(days, d, rows, text);
      rows := rows + text;
      d := d + 1;
    }
    assert days[..d] == days;
    out := Header + rows;
  }
}
