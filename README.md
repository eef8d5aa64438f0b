# fugger-junior in Dafny

A model of the deterministic core of fugger-junior, a collection of cryptocurrency trading and analysis scripts, with proofs about it.

- **csv_aggregate.py:** turns Bitfinex tick files into one averaged price per day, hour or minute. Missing buckets are filled with zero points.
- **movingaverages.py and correlation.py:** read price and subscriber CSV files, compute simple moving averages, and simulate a moving-average crossover strategy against buy-and-hold. They also correlate two series at a range of lags and rank the lags.
- **Neural-network scripts:** build lagged samples (`prepare_data`), split them at 8000 rows and place the predictions in the plots.
- **moving-averages.go:** a Bitcoin predictor with two ring-buffer moving averages that recommends a buy or a sell when they cross, and a dummy wallet that exchanges dollars and bitcoin.
- **twitterscrape.py and redditscraper.py:** collect tweets with their tone scores and write them as CSV, and count a subreddit's posts per day while paging with retries.
- **pump-n-dump:** polls market summaries and keeps the BTC markets (`app.go`), and reads them back as chart points with their highest and lowest price (`chart/chart.go`).

One Dafny module per source file. Shared helper modules:
- `Base`: Option and Result;
- `Seqs`: sums, means and Python slicing;
- `Text`: split, join, contains, replace, strip, decimal numerals and lexicographic sorting;
- `Calendar`: Python's `datetime` fields and one-step arithmetic;
- `CsvRows`: the header/reverse/last-N row pipeline;
- `PumpModels`: the `Summary` record.

Loops in the source are methods with loop invariants. Each loop is proved equal to a specification function, and lemmas state what that function means. Objects the Go code updates in place (`MovingAverage`, `DummyWallet`) are classes. Floating-point numbers are modelled as `real`. Library calls whose results cannot be computed here are parameters of the model: parsing dates and floats, `strftime`, `.timestamp()`, `np.corrcoef`, HTTP requests, the tone analyzer (which may fail), and the file reading and CSV splitting of `open` and `csv.reader` (rows arrive already split).

Where the code and its documentation disagree, the model follows the code:
- `is_same_interval` compares a single calendar field;
- the tick that opens a new bucket is never counted;
- `join_duplicates` compares a point's stamp with its own amount;
- chart.go's timestamp repair drops everything after a second "T0".

## Model

| member | source | states |
|---|---|---|
| Calendar.DaysInMonth | utils/csv_aggregate.py:66-76 | A month has 28 to 31 days, which is the bound `timedelta(days=1)` walks through |
| Calendar.NextDay | utils/csv_aggregate.py:68 | Adding one day keeps the time of day |
| Calendar.AdvanceNAdd | utils/csv_aggregate.py:66-76 | a steps then b steps of an interval are a+b steps |
| Calendar.HourStepsWithinDay | utils/csv_aggregate.py:70-71 | Within a day, k hour steps only move the hour field |
| Calendar.MinuteStepsWithinHour | utils/csv_aggregate.py:73-74 | Within an hour, k minute steps only move the minute field |
| Calendar.TwentyFourHoursMakeADay | utils/csv_aggregate.py:67-71 | 24 hour steps equal one day step |
| Calendar.SixtyMinutesMakeAnHour | utils/csv_aggregate.py:70-74 | 60 minute steps equal one hour step |
| Calendar.Truncate | utils/csv_aggregate.py:28-34 | strptime(strftime(t, fmt)) keeps the date and the fields the interval's format prints, and zeroes the rest |
| Calendar.TruncateIdempotent | utils/csv_aggregate.py:28-34 | Truncating twice is truncating once |
| Calendar.OneMonthApartSameDayBucket | utils/csv_aggregate.py:55-57 | Two different times one month apart on the same day of the month count as the same Day bucket |
| Calendar.IsSameInterval | utils/csv_aggregate.py:55-63 | Only the three intervals ever match (Python returns None otherwise), and a time is in its own bucket for each of them |
| Calendar.OneDayApartSameHourBucket | utils/csv_aggregate.py:59-60 | Two different times one day apart in the same hour count as the same Hour bucket |
| Calendar.ShortMonthThenLong | utils/csv_aggregate.py:42-52 | Every month shorter than 31 days is followed by a 31-day month, which bounds the Day filler loop |
| Calendar.DaysUntilStep | utils/csv_aggregate.py:42-50 | A day step brings the day of the month one step closer to a target day |
| Calendar.RemainingZero | utils/csv_aggregate.py:42 | No steps remain exactly when the two times are in the same bucket |
| Calendar.RemainingBelowPeriod | utils/csv_aggregate.py:42-50 | Fewer steps remain than the field's period |
| Calendar.RemainingStep | utils/csv_aggregate.py:42-50 | Outside the target bucket, one step decreases the remaining count by one |
| Calendar.CyclicStep | utils/csv_aggregate.py:57-63 | On a clock of n values, one tick brings x one step closer to y |
| Calendar.RemainingAfter | utils/csv_aggregate.py:42-50 | k steps decrease the remaining count by k |
| CsvAggregate.IntervalFormat | utils/csv_aggregate.py:15-25 | The format fails with ValueError exactly for an invalid interval |
| CsvAggregate.IntervalFormatsDistinct | utils/csv_aggregate.py:16-23 | The three intervals have different formats |
| CsvAggregate.IncrementDateTime | utils/csv_aggregate.py:66-76 | Advances by exactly one day, hour or minute (with carries) and raises ValueError for any other interval |
| CsvAggregate.CreatePoint | utils/csv_aggregate.py:28-34 | The amount is passed through and the time is truncated to its bucket; the flag chooses formatted text or epoch seconds; an invalid interval raises |
| CsvAggregate.CreatePointRespectsBuckets | utils/csv_aggregate.py:28-34 | Times in the same bucket give the same point, and the flag changes only the stamp |
| CsvAggregate.Fillers | utils/csv_aggregate.py:37-52 | There are n fillers |
| CsvAggregate.FillersAt | utils/csv_aggregate.py:43-50 | Filler k is a 0.0 point stamped k intervals after the start |
| CsvAggregate.MissingPointsSpan | utils/csv_aggregate.py:37-52 | The fillers are zero points one interval apart from previous_time, stopping before the first step in current_time's bucket; there are none when previous_time is already in that bucket, and fewer than the field's period |
| CsvAggregate.MissingPoints | utils/csv_aggregate.py:37-52 | No fillers exactly when previous_time is already in current_time's bucket, and fewer than one cycle of the compared field |
| CsvAggregate.MissingHours | utils/csv_aggregate.py:37-52 | Between hours, the fillers number exactly the hours from previous round to current |
| CsvAggregate.GenerateMissingPoints | utils/csv_aggregate.py:37-52 | The while loop returns exactly the fillers, or ValueError for an invalid interval |
| CsvAggregate.ParseLineAccepts | utils/csv_aggregate.py:109-116 | A line parses exactly when it splits into three fields with a float price and a timestamp in one of the two formats, and each failure gives its own error |
| CsvAggregate.ParseLine | utils/csv_aggregate.py:109-116 | A line without exactly three fields fails to unpack; a parsed tick's price is float() of the third field |
| CsvAggregate.ParseWellFormedLine | utils/csv_aggregate.py:109-116 | A line of the form `timestamp,amount,price\n` parses to its timestamp and price |
| CsvAggregate.Step | utils/csv_aggregate.py:118-130 | After a step, previous_time is the tick's time |
| CsvAggregate.ClosedBucket | utils/csv_aggregate.py:122-128 | Closing a bucket fails exactly for an invalid interval |
| CsvAggregate.CloseBucket | utils/csv_aggregate.py:122-128 | The bucket-closing lines emit the bucket's mean, or 0.0 when it is empty, then the missing points |
| CsvAggregate.Run | utils/csv_aggregate.py:104-130 | The fold keeps the accumulator consistent: a bucket with ticks has a time |
| CsvAggregate.Finish | utils/csv_aggregate.py:132-134 | After the loop, the open bucket's mean is appended only when it counted a tick |
| CsvAggregate.AggregateFile | utils/csv_aggregate.py:92-136 | The loop method equals the specification of aggregate_file |
| CsvAggregate.AggregateFileSpec | utils/csv_aggregate.py:92-136 | A missing file raises FileNotFoundError; with a start date the returned time is never None |
| CsvAggregate.ReadLine | utils/csv_aggregate.py:109-130 | One loop iteration parses the line and then takes the step |
| CsvAggregate.AggregateFileFinish | utils/csv_aggregate.py:132-136 | Once the fold succeeds, the result is that of the final emission together with the last time |
| CsvAggregate.RunAt | utils/csv_aggregate.py:104-130 | The fold from line i parses line i, takes the step and folds the rest |
| CsvAggregate.AggregateFileInput | utils/csv_aggregate.py:93-107 | A missing file raises FileNotFoundError, the header line is never read, and an empty body returns the start date |
| CsvAggregate.RunFailsOnMalformed | utils/csv_aggregate.py:109-116 | A malformed line stops the fold with an error |
| CsvAggregate.MalformedLineRaises | utils/csv_aggregate.py:109-116 | A malformed data line anywhere makes aggregate_file raise |
| CsvAggregate.RunPrevious | utils/csv_aggregate.py:130 | After the fold, the time is the last parsed tick's |
| CsvAggregate.AggregateFileReturnsLastTime | utils/csv_aggregate.py:130-136 | aggregate_file returns the last tick's time, or start_date when there are no data lines |
| CsvAggregate.StepOnBucketChange | utils/csv_aggregate.py:121-130 | On a bucket change the tick's price is ignored and the counters restart at zero |
| CsvAggregate.RunAppend | utils/csv_aggregate.py:104-130 | The fold over a + b continues from where the fold over a ends |
| CsvAggregate.OpeningTickPriceIgnored | utils/csv_aggregate.py:121-130 | The price of the tick that opens a new bucket never affects the result |
| CsvAggregate.Prices | utils/csv_aggregate.py:110 | One price per tick, in order |
| CsvAggregate.StepSameBucket | utils/csv_aggregate.py:118-120 | A tick in the open bucket, or the very first tick, is counted and summed |
| CsvAggregate.RunCons | utils/csv_aggregate.py:104-130 | A parsed first line and a successful step continue the fold |
| CsvAggregate.ParsesEach | utils/csv_aggregate.py:109-116 | Lines that parse one by one satisfy the parsing relation |
| CsvAggregate.RunWithinBucket | utils/csv_aggregate.py:118-120 | Ticks that stay in the open bucket are all counted and summed |
| CsvAggregate.SingleBucketMean | utils/csv_aggregate.py:92-136 | A file whose ticks all fall in one bucket gives one point, the mean of its prices |
| CsvAggregate.FirstBucket | utils/csv_aggregate.py:98-130 | Folding lines that stay in the first tick's bucket counts all of them |
| CsvAggregate.Amounts | utils/csv_aggregate.py:28-34 | One amount per point, in order |
| CsvAggregate.FillersTwins | utils/csv_aggregate.py:45-48 | Fillers carry 0.0 under either flag; only their stamps differ |
| CsvAggregate.ClosedBucketTwins | utils/csv_aggregate.py:122-128 | A closed bucket differs between the two flags only in its stamps |
| CsvAggregate.StepTwins | utils/csv_aggregate.py:118-130 | One step keeps two runs that differ only in stamps in that relation |
| CsvAggregate.RunTwins | utils/csv_aggregate.py:104-130 | The fold keeps two runs that differ only in stamps in that relation |
| CsvAggregate.FinishTwins | utils/csv_aggregate.py:132-134 | The final emission keeps it too |
| CsvAggregate.HumanReadableOnlyChangesStamps | utils/csv_aggregate.py:28-34 | human_readable changes only the first component of each point, formatted text against epoch seconds, and never the errors, amounts or returned time |
| CsvAggregate.JoinDuplicates | utils/csv_aggregate.py:79-89 | The loop raises exactly when a point before the last has its stamp equal to its own amount (the tuple item assignment), and otherwise leaves the data unchanged |
| CsvAggregate.JoinResult | utils/csv_aggregate.py:79-89 | join_duplicates leaves the list unchanged or raises TypeError, the latter exactly when a point before the last has its stamp equal to its amount |
| CsvAggregate.FormattedNeverJoined | utils/csv_aggregate.py:79-89 | Human-readable points are never joined |
| CsvAggregate.AggregateDirectory | utils/csv_aggregate.py:139-158 | The method equals the specification: a missing directory raises FileNotFoundError, and the files are read in sorted order, then joined |
| CsvAggregate.AggregateFiles | utils/csv_aggregate.py:148-151 | No files give no points and keep the time |
| CsvAggregate.AggregateFilesFound | utils/csv_aggregate.py:148-151 | A successful pass means every listed name was an existing file, since a missing one raises FileNotFoundError |
| CsvAggregate.GatherFiles | utils/csv_aggregate.py:145-151 | The loop concatenates each file's points in order and carries the time from one file to the next |
| CsvAggregate.AggregateFilesFrom | utils/csv_aggregate.py:148-151 | The loop at name i reads file i and then the rest |
| CsvAggregate.AggregateFilesAppend | utils/csv_aggregate.py:148-151 | The files of a + b contribute in that order |
| CsvAggregate.AggregateFilesStamps | utils/csv_aggregate.py:148-151 | A human-readable directory gives only formatted stamps |
| CsvAggregate.HumanReadableDirectoryKeepsAll | utils/csv_aggregate.py:139-158 | A human-readable directory keeps every point |
| CsvAggregate.CreateFile | utils/csv_aggregate.py:161-165 | The write loop writes each point as `stamp,amount\n`, in order |
| CsvAggregate.CountAppend | utils/csv_aggregate.py:164-165 | Counts of a character add over concatenation |
| CsvAggregate.RowsLineCount | utils/csv_aggregate.py:161-165 | The file has one line per point when no rendering contains a line break |
| BtcPredictor.RingOf | moving-averages.go:203-214 | The ring has window slots |
| BtcPredictor.RingOfSnoc | moving-averages.go:205-208 | Each Add writes one slot: the one at position (count of values added) mod window |
| BtcPredictor.Recent | moving-averages.go:177-199 | The recent values are the last window values, or all of them while fewer have been added |
| BtcPredictor.RingFacts | moving-averages.go:203-214 | The last window values sit in the slots they were written to, and unwritten slots hold 0 |
| BtcPredictor.RingEvicted | moving-averages.go:205 | The slot the next value goes to holds the value it evicts, or 0 while the ring is filling |
| BtcPredictor.RecentSumStep | moving-averages.go:203-214 | One more value adds itself to the recent sum and removes the evicted value |
| BtcPredictor.RecentSumSlide | moving-averages.go:203-214 | Once the window is full, the sum slides: minus the oldest value, plus the new one |
| BtcPredictor.RingSum | moving-averages.go:177-199 | The sum of all slots is the sum of the last window values |
| BtcPredictor.RingPrefix | moving-averages.go:181-187 | Until the ring wraps, its first slots are the values added, in order |
| BtcPredictor.MovingAverage.NewMA | moving-averages.go:217-224 | NewMA gives window zero slots, position 0, not filled, and no history |
| BtcPredictor.MovingAverage.Add | moving-averages.go:203-214 | Add writes the slot at valPos and advances it mod window; slotsFilled becomes and stays true once window values have been added |
| BtcPredictor.MovingAverage.Avg | moving-averages.go:177-199 | Avg is the mean of the last window values added (of all of them before the ring fills), and 0 when nothing was added |
| BtcPredictor.SlotsSum | moving-averages.go:191-195 | The summed slot prefix holds exactly the recent values |
| BtcPredictor.RecentNext | moving-averages.go:203-214 | Adding a value appends it to the recent values and drops the oldest once the window is full |
| BtcPredictor.Decide | moving-averages.go:133-145 | A recommendation is sent exactly when the difference crosses against the flag: buy on a positive difference while waiting to sell, sell on a negative one otherwise; the flag toggles on each send |
| BtcPredictor.RecommendationsAlternate | moving-averages.go:133-145 | The recommendations alternate buy and sell starting from the flag, all with confidence 1.0 |
| BtcPredictor.FirstRecommendationBuys | moving-averages.go:117 | Starting with waitingToSell = true, the first recommendation is a buy |
| BtcPredictor.ExecuteStep | moving-averages.go:118-145 | One iteration adds every queued price to both windows and then decides on the difference of their averages |
| BtcPredictor.DummyWallet.Init | moving-averages.go:227-235 | Init holds exactly the listed currencies, each at 0.0 |
| BtcPredictor.DummyWallet.Exchange | moving-averages.go:93-108 | Exchange applies the dollar-to-bitcoin or bitcoin-to-dollar move at the rate, changes nothing else, and returns 1 |
| BtcPredictor.Exchanged | moving-averages.go:93-108 | A trade between dollars and bitcoin leaves both keys present; every other currency keeps its balance |
| BtcPredictor.ZeroBalances | moving-averages.go:231-233 | The Init loop has a zero entry for each listed currency and nothing else |
| BtcPredictor.BuyMovesEverything | moving-averages.go:99-101 | Buying moves all dollars into bitcoin at the rate and leaves every other currency alone |
| BtcPredictor.SellMovesEverything | moving-averages.go:103-105 | Selling moves all bitcoin into dollars at the rate and leaves every other currency alone |
| BtcPredictor.OtherPairsUnchanged | moving-averages.go:97-107 | Any other pair of currencies is a no-op |
| BtcPredictor.BuyThenSell | moving-averages.go:99-105 | Buying then selling at one rate returns the dollars and loses any bitcoin held before the buy |
| CsvRows.DropHeaderRows | utils/movingaverages.py:109-110 | The header drop removes exactly the first row, and only when there is one and header is set |
| CsvRows.KeepLastRows | utils/movingaverages.py:115-116 | data[-num_rows:] keeps the last num_rows rows when 0 < num_rows < len, and everything otherwise (including num_rows == 0) |
| CsvRows.SelectedRow | utils/movingaverages.py:109-116 | Row k of the selection is the matching data row, counted from the front or the back depending on reverse |
| CsvRows.KeptRow | utils/movingaverages.py:115-116 | Row j of data[-num_rows:] |
| CsvRows.SelectedLength | utils/movingaverages.py:109-116 | The selection keeps every data row unless 0 < num_rows is below their count |
| CsvRows.Column | utils/movingaverages.py:118-130 | n[:, j] of a two-dimensional table has one cell per row |
| CsvRows.ColumnIff | utils/movingaverages.py:118-130 | On equally long rows a column exists exactly when j is inside the common width (equivalently, every row has field j), and cell i is row i's field |
| CsvRows.ConvertAll | utils/movingaverages.py:125-130 | One converted value per cell |
| CsvRows.ConvertAllIff | utils/movingaverages.py:125-130 | Conversion succeeds exactly when every cell converts, cell by cell |
| CsvRows.ReadColumn | utils/movingaverages.py:118-130 | A column read has one value per selected row, and succeeds only on equally long rows |
| CsvRows.RectangularTail | utils/movingaverages.py:118 | Dropping the first row of a table np.array accepts leaves one it accepts |
| CsvRows.ReadColumnIff | utils/movingaverages.py:118-130 | A column reads exactly when the table is not empty, all rows are equally long, every row has the field and every cell converts; ragged rows raise; entry i is row i's converted cell |
| MovingAverages.Datefix | utils/movingaverages.py:120-123 | datefix keeps the length, replaces every 'v' and leaves every other character alone |
| MovingAverages.ReadFileRows | utils/movingaverages.py:87-132 | read_file succeeds exactly when the selection is not empty, its rows are equally long and all six columns convert, and then gives row i's cells |
| MovingAverages.ReadFile | utils/movingaverages.py:87-132 | A read table has six columns, each with one entry per selected row, and at least one row |
| MovingAverages.Repeat | utils/movingaverages.py:54 | np.repeat(x, n) has n entries, each x |
| MovingAverages.Slide | utils/movingaverages.py:55 | The valid convolution has len(a) - len(v) + 1 entries |
| MovingAverages.ValidConvolve | utils/movingaverages.py:55 | The valid convolution's length, including numpy swapping a shorter first operand |
| MovingAverages.MovingAverage | utils/movingaverages.py:47-56 | moving_average raises exactly for a window <= 0 or an empty input (a negative window in np.repeat) |
| MovingAverages.ConvolvedConstantKernel | utils/movingaverages.py:54-55 | One convolution output against a constant kernel is the window's sum times the constant |
| MovingAverages.ConvolvedConstantWindow | utils/movingaverages.py:54-55 | With the operands swapped, a constant window gives the kernel's sum times the constant |
| MovingAverages.WindowMean | utils/movingaverages.py:54-55 | A window convolved with window weights of 1/window is its mean |
| MovingAverages.MovingAverageWindows | utils/movingaverages.py:47-56 | For 1 <= window <= n, entry i is the mean of values[i:i+window], and there are n - window + 1 of them |
| MovingAverages.MovingAverageLongWindow | utils/movingaverages.py:47-56 | A window longer than the values gives window - n + 1 copies of sum/window |
| MovingAverages.SwappedConstantWindows | utils/movingaverages.py:47-56 | With the operands swapped, every offset of a constant window gives the values' sum times the constant |
| MovingAverages.ParseMaType | utils/movingaverages.py:167-176 | Exactly "simple" and "exponential" are accepted; anything else is a ValueError naming it |
| MovingAverages.Stances | utils/movingaverages.py:310-314 | One stance per row |
| MovingAverages.Stance | utils/movingaverages.py:312-314 | The stance is -1, 0 or 1; it is 0 exactly for a zero or NaN difference, and otherwise has the difference's sign |
| MovingAverages.StanceDiffs | utils/movingaverages.py:318 | One stance difference per row, NaN first |
| MovingAverages.StanceDiffRange | utils/movingaverages.py:313-318 | Each stance difference after the first is between -2 and 2 and is the change of the stance |
| MovingAverages.TradeRunSnoc | utils/movingaverages.py:323-330 | The loop from day i takes day i's step and continues |
| MovingAverages.TradeDay | utils/movingaverages.py:324-329 | One day of the loop is the trade step: on -2 while in coins the earnings are multiplied by the price, on 2 while in dollars divided by it, and on any other signal nothing changes |
| MovingAverages.TradeLoop | utils/movingaverages.py:320-332 | The trade loop method computes the simulated ending investment |
| MovingAverages.Simulated | utils/movingaverages.py:320-332 | Trading at positive prices from a non-negative investment ends non-negative |
| MovingAverages.TradeRunNonNegative | utils/movingaverages.py:322-328 | At positive prices the loop never takes non-negative earnings below zero |
| MovingAverages.SimulateMovingAverage | utils/movingaverages.py:288-332 | An unknown ma_type raises; otherwise the result is the trade loop over the stance differences of mas - mab |
| MovingAverages.NoSellKeepsHolding | utils/movingaverages.py:323-330 | Without a -2 signal the loop never sells, so it never buys back |
| MovingAverages.NoSellIsBuyAndHold | utils/movingaverages.py:320-371 | Without a -2 signal, at nonzero prices, buy_and_hold succeeds and gives the simulation's ending investment |
| MovingAverages.BuyAndHold | utils/movingaverages.py:369-371 | buy_and_hold raises on an empty frame (`df[column][0]`) and exactly when the first price is 0.0 (ZeroDivisionError); otherwise it scales the investment by end / start: earnings * start == investment * end, so an unchanged price returns the investment |
| MovingAverages.TradesAlternate | utils/movingaverages.py:323-330 | Trades alternate sell and buy, starting from the holding's state |
| MovingAverages.TradesAlternateFrom | utils/movingaverages.py:324-329 | The trades the loop makes alternate, the first being a sell exactly when it starts in coins |
| MovingAverages.TradeRunParity | utils/movingaverages.py:323-330 | Each trade flips waiting_to_sell, so the loop ends in coins exactly when the number of trades has the parity of the start |
| Correlation.CurrencyFileIsReadFile | utils/correlation.py:8-48 | On files with no 'v' in the date cells, read_currency_file and read_file agree |
| Correlation.ReadCurrencyFile | utils/correlation.py:8-48 | A read table has six columns, each with one entry per selected row, and at least one row |
| Correlation.SameColumn | utils/correlation.py:40-46 | Two conversions that agree on a column read it alike |
| Correlation.SameConversion | utils/correlation.py:40-46 | Two conversions that agree cell by cell convert a list alike |
| Correlation.SubscriberColumns | utils/correlation.py:51-85 | read_subscriber_file succeeds exactly when the selection is not empty, its rows are equally long and each has a date in field 0 and an integer in field 1; row i gives entry i of both columns |
| Correlation.ReadSubscriberFile | utils/correlation.py:51-85 | Both columns have one entry per selected row, and there is at least one row |
| Correlation.AutocorrPairs | utils/correlation.py:88-96 | autocorr correlates a[lag:] with b[:len(b)-lag], two slices of equal length n - lag |
| Correlation.Autocorr | utils/correlation.py:88-96 | At lag 0 autocorr correlates the two whole series |
| Correlation.AutocorrRangeLags | utils/correlation.py:99-118 | autocorr_range has 2r+1 entries, entry k being the correlation at lag k - r |
| Correlation.AutocorrRange | utils/correlation.py:99-118 | autocorr_range has 2|r|+1 entries, and the middle one is the lag-0 correlation |
| Correlation.AutocorrRangeSign | utils/correlation.py:99-118 | A negative lag range gives the same list as its absolute value |
| Correlation.Diff | utils/correlation.py:121-122 | One differencing round shortens by one |
| Correlation.Differences | utils/correlation.py:121-122 | np.diff(a, n) has len - n entries, or none |
| Correlation.Change | utils/correlation.py:121-122 | change raises exactly for a negative order, and otherwise has len - offset entries |
| Correlation.ChangeFirstOrder | utils/correlation.py:121-122 | The default change lists a[i+1] - a[i] |
| Correlation.DiffTelescopes | utils/correlation.py:121-122 | The first value plus the first k differences is value k |
| Correlation.ReplaceZeros | utils/correlation.py:126-127 | The copy has no zeros, and only zeros are replaced, by 0.0000000001 |
| Correlation.ReplaceZerosInt | utils/correlation.py:126-127 | The copy of an integer array is as long as the input |
| Correlation.ReplaceZerosIntKeepsZeros | utils/correlation.py:126-127 | Storing 0.0000000001 into an integer array truncates it to 0, so the copy equals the input and keeps every zero |
| Correlation.FloatDivide | utils/correlation.py:128 | A float quotient is finite exactly for a nonzero divisor, and then times the divisor gives the dividend; over zero it is +inf for a positive dividend and NaN for zero |
| Correlation.Divide | utils/correlation.py:128 | Element-wise division succeeds exactly when the lengths match or one side has length 1 (broadcast), and entry k divides the matching operands |
| Correlation.DiffOverEarlier | utils/correlation.py:128 | np.diff(c, offset) / np.abs(c[:-1]) raises for a negative order, and otherwise exactly when the n-offset differences and n-1 divisors neither match nor broadcast |
| Correlation.DiffOverEarlierFirstOrder | utils/correlation.py:128 | With offset 1 there are n-1 entries, entry i being (c[i+1] - c[i]) divided by abs(c[i]) |
| Correlation.PercentChange | utils/correlation.py:125-128 | On a float array a negative order raises and every entry is finite (no zero divisor is left) |
| Correlation.PercentChangeFirstOrder | utils/correlation.py:125-128 | The default percent_change of a float array has n-1 entries, entry i being (c[i+1] - c[i]) / abs(c[i]) over the zero-free copy |
| Correlation.PercentChangeShapes | utils/correlation.py:128 | Higher orders where the shapes neither match nor broadcast raise |
| Correlation.PercentChangeInts | utils/correlation.py:125-128 | On an integer array (the subscriber growth, read with dtype=int) a negative order raises |
| Correlation.PercentChangeIntsFirstOrder | utils/correlation.py:125-128 | The default percent_change of the integer growth has n-1 entries; entry i is (a[i+1] - a[i]) / abs(a[i]), finite exactly when a[i] is not 0, and inf or NaN after a zero count |
| Correlation.LagPairs | utils/correlation.py:187-196 | cat pairs lag i - r with correlation i for 2r+1 entries, and raises IndexError when there are fewer correlations |
| Correlation.InsertByStrength | utils/correlation.py:188 | Insertion keeps the order by strength and adds exactly the element |
| Correlation.RankByStrength | utils/correlation.py:188-197 | The ranking is ordered by descending absolute correlation and is a permutation of its input |
| Correlation.InsertByStrengthStable | utils/correlation.py:188 | Among the pairs of any one strength, the inserted pair comes first and the others keep their order |
| Correlation.RankByStrengthStable | utils/correlation.py:188-197 | sorted is stable under reverse=True: pairs of equal absolute correlation keep their input order |
| Correlation.RankingOfLags | utils/correlation.py:183-197 | The ranked lags of autocorr_range are a permutation of all 2r+1 (lag, correlation) pairs, strongest first |
| LaggedSamples.Window | timeseries.py:12 | A sample has lags inputs |
| LaggedSamples.PrepareData | timeseries.py:9-15 | There are len(data) - lags - 1 samples (none when that is negative); sample i holds data[i:i+lags, 0] and its target is data[i+lags, 0] |
| LaggedSamples.TargetIsNextWindowsLast | timeseries.py:9-15 | Each target is the last input of the next sample, and consecutive samples overlap by a shift of one |
| LaggedSamples.SingleLag | timeseriesLSTM.py:40 | With lags = 1 each input is the single previous value |
| LaggedSamples.SplitPartitions | timeseries.py:27-28 | Train and test split the data in order, train holding the first 8000 rows, or all of them |
| LaggedSamples.Split | timeseries.py:27-28 | The train part holds at most 8000 rows, and exactly 8000 when there are that many |
| LaggedSamples.ReshapeShape | timeseriesLSTM.py:45-46 | The reshape keeps the sample count and gives each sample one time step holding its lags inputs |
| LaggedSamples.Reshape | timeseriesLSTM.py:45-46 | The reshape fails exactly on no samples; otherwise sample i becomes the single time step [X[i]] |
| LaggedSamples.LagsFromArgument | neural-networks/timePrediction.py:20 | The written-out number of lags parses back to itself |
| LaggedSamples.ParseLags | neural-networks/timePrediction.py:20 | A decimal numeral argument gives its value |
| LaggedSamples.PlotOffsets | timeseries.py:82-88 | With lags < 8000 each plot slice is as long as its predictions, and the test predictions start at row 8000 + lags |
| TwitterScrape.BatchAt | utils/twitterscrape.py:28-31 | Batch i is tweets[i*bs:i*bs+bs], at most bs long |
| TwitterScrape.Batches | utils/twitterscrape.py:28-31 | grab_tweets yields exactly batches batches, each of at most batch_size tweets |
| TwitterScrape.BatchesCover | utils/twitterscrape.py:28-31 | The batches cover the first min(bs*batches, n) tweets, in order, each once |
| TwitterScrape.Texts | utils/twitterscrape.py:44 | One text per tweet |
| TwitterScrape.CombineBatch | utils/twitterscrape.py:47-49 | The pairing loop fails (IndexError) exactly when there are fewer tone lists than tweets, and otherwise pairs tweet i with tone list i |
| TwitterScrape.BatchRecord | utils/twitterscrape.py:15-25 | A batch fails when `tone_chat` raises or has no `'utterances_tone'`, even an empty batch; otherwise it is the pairing with the analyser's answer |
| TwitterScrape.Collect | utils/twitterscrape.py:34-57 | Collecting succeeds exactly when every element does |
| TwitterScrape.CollectIff | utils/twitterscrape.py:34-57 | Collecting gives every element's value, in order |
| TwitterScrape.ProcessDay | utils/twitterscrape.py:41-53 | The batch loop's result equals the day's responses |
| TwitterScrape.TweetsOf | utils/twitterscrape.py:49 | One tweet per response |
| TwitterScrape.CombinedTweets | utils/twitterscrape.py:47-49 | A successful pairing keeps the tweets in order |
| TwitterScrape.TweetsOfFlatten | utils/twitterscrape.py:51 | Extending per batch keeps the tweets in order |
| TwitterScrape.DayPairsTweets | utils/twitterscrape.py:41-53 | A day's responses hold exactly the first min(bs*batches, n) fetched tweets, in order |
| TwitterScrape.ProcessDays | utils/twitterscrape.py:34-57 | The date loop collects every day's responses from start_date up to, not including, end_date |
| TwitterScrape.CollectPrefixFails | utils/twitterscrape.py:39-55 | A failing day makes the whole run fail |
| TwitterScrape.DaysShape | utils/twitterscrape.py:34-57 | The run succeeds exactly when every day does, with one entry per day, in date order |
| TwitterScrape.HeaderFields | utils/twitterscrape.py:63 | The header lists timestamp, the seven tones in order and text |
| TwitterScrape.FirstScoreIff | utils/twitterscrape.py:69-75 | The written score is the first with the tone's id, and 0.0 is written when no score has that id |
| TwitterScrape.Prefixed | utils/twitterscrape.py:72-75 | Each cell is its value after a comma |
| TwitterScrape.ToneValues | utils/twitterscrape.py:69-75 | One value per tone |
| TwitterScrape.SanitisedClean | utils/twitterscrape.py:76 | The written text has no newline, comma or quote characters and no surrounding spaces |
| TwitterScrape.Sanitise | utils/twitterscrape.py:76 | The written text is no longer than the tweet and has no whitespace at either end |
| TwitterScrape.SanitiseKeepsCleanText | utils/twitterscrape.py:76 | Text that is already clean is written unchanged |
| TwitterScrape.JoinPrefixed | utils/twitterscrape.py:68-76 | A first field plus comma-prefixed fields is the comma join |
| TwitterScrape.JoinPrefixedLast | utils/twitterscrape.py:68-76 | The same with a trailing field |
| TwitterScrape.RowIsJoin | utils/twitterscrape.py:68-76 | A row is the comma join of timestamp, tone values and text, followed by a newline |
| TwitterScrape.RowFields | utils/twitterscrape.py:68-76 | Splitting a row at commas gives back the timestamp, the seven tone values and the sanitised text, one per header column |
| TwitterScrape.WriteTone | utils/twitterscrape.py:69-75 | The for/else loop writes the first matching score, or 0.0 |
| TwitterScrape.WriteRow | utils/twitterscrape.py:68-76 | The row writes build exactly the row |
| TwitterScrape.WriteDay | utils/twitterscrape.py:66-76 | One day's writes are its rows in order |
| TwitterScrape.CreateFile | utils/twitterscrape.py:60-76 | The file is the header followed by every response's row, day by day |
| RedditScraper.PageUrls | utils/redditscraper.py:19-22 | The first page is `/r/<sub>/new/.json`; a later page adds `?count=` with depth*25 in decimal (which reads back) and `&after=` with the token |
| RedditScraper.PageUrl | utils/redditscraper.py:19-22 | Every URL starts with the /r/<sub>/new/.json listing, and is exactly that for the first page |
| RedditScraper.FirstAnswer | utils/redditscraper.py:24-39 | The attempt found is below retries and answered with status 200 |
| RedditScraper.SucceedsIff | utils/redditscraper.py:26-37 | An attempt succeeds exactly when the delay is not negative (time.sleep raises inside the try otherwise) and the reply has status 200 |
| RedditScraper.FirstAnswerIff | utils/redditscraper.py:24-39 | The attempt found succeeds and every earlier attempt failed; none found means every attempt failed |
| RedditScraper.Waits | utils/redditscraper.py:27 | One sleep per attempt |
| RedditScraper.WaitsStep | utils/redditscraper.py:27 | Attempt n sleeps delay*(n+1) |
| RedditScraper.Request | utils/redditscraper.py:24-39 | The retry loop returns the page of the first attempt whose sleep length is non-negative and whose reply is a 200 (having asked to sleep delay*1, delay*2, ... up to that attempt) or raises after all retries, having asked to sleep before every attempt |
| RedditScraper.RequestBound | utils/redditscraper.py:24-39 | At most retries attempts; with a non-negative delay the request fails exactly when every attempt goes unanswered, and with a negative delay it always fails |
| RedditScraper.TotalOtherKey | utils/redditscraper.py:47-48 | Changing an absent key leaves the total alone |
| RedditScraper.TotalBump | utils/redditscraper.py:48 | Incrementing a present key adds one to the total |
| RedditScraper.IncrementValid | utils/redditscraper.py:47-48 | setdefault and += keep the map well formed and only append a new key to the order |
| RedditScraper.IncrementCounts | utils/redditscraper.py:47-48 | The key gains 1, starting from 0 when new, and every other key is unchanged |
| RedditScraper.Increment | utils/redditscraper.py:47-48 | The keys become the old keys plus the day, and every other day keeps its count |
| RedditScraper.IncrementTotal | utils/redditscraper.py:47-48 | One increment adds 1 to the total |
| RedditScraper.TotalNewKey | utils/redditscraper.py:47-48 | A new key at 1 adds one to the total |
| RedditScraper.TalliedValid | utils/redditscraper.py:43-48 | Tallying keeps the map well formed and the old keys in order, with new days after them |
| RedditScraper.TalliedCounts | utils/redditscraper.py:43-48 | After tallying, the map holds exactly the old keys and the new days, and each count is the old count plus the day's occurrences |
| RedditScraper.CountAbsent | utils/redditscraper.py:43-48 | A key that does not occur is counted zero times |
| RedditScraper.TalliedTotal | utils/redditscraper.py:43-48 | Tallying raises the total by the number of children |
| RedditScraper.TalliedAppend | utils/redditscraper.py:43-53 | Tallying a + b is tallying a then b |
| RedditScraper.AddPosts | utils/redditscraper.py:43-48 | The children loop tallies each child's day once |
| RedditScraper.ChainDatesCons | utils/redditscraper.py:43-53 | A page's days come before the later pages' days |
| RedditScraper.ChainLength | utils/redditscraper.py:13-56 | Between one and pages - depth pages are fetched, and the last page has no after unless the page budget ran out |
| RedditScraper.ChainQueries | utils/redditscraper.py:19-53 | The first page answers the starting query; each page but the last has a non-empty after, and the next page asks for that token with count (depth+i)*25 |
| RedditScraper.Scrape | utils/redditscraper.py:11-56 | scrape returns post_map untouched at the page budget, raises when a page cannot be fetched (every attempt fails for a negative delay, because the sleep raises), and otherwise returns the tally of every fetched page's children |
| RedditScraper.ScrapeFromEmpty | utils/redditscraper.py:11-56 | A scrape from no map fails exactly when a page cannot be fetched, and always for a negative delay; otherwise it holds exactly the fetched days, each counted as often as it occurs, totalling the number of children |
| RedditScraper.SortedItemsFacts | utils/redditscraper.py:66-67 | The listing has every day once, in strictly ascending order, each with its count |
| RedditScraper.SortedDistinct | utils/redditscraper.py:66 | A sorted arrangement of distinct keys is strictly ascending |
| RedditScraper.PairCount | utils/redditscraper.py:66 | Two equal entries make their value occur twice |
| RedditScraper.DistinctCount | utils/redditscraper.py:66 | Dictionary keys occur once |
| MarketChart.RepairFailsIff | pump-n-dump/chart/chart.go:27-28 | The repair fails (index out of range) exactly when the timestamp has no "T0" |
| MarketChart.Repair | pump-n-dump/chart/chart.go:27-28 | The repair succeeds exactly when the timestamp contains "T0" |
| MarketChart.RepairDropsZero | pump-n-dump/chart/chart.go:27-28 | Around a single "T0", the repair drops the "0" and keeps everything else |
| MarketChart.RepairDropsRest | pump-n-dump/chart/chart.go:27-28 | With a second "T0", everything from it on is lost |
| MarketChart.FirstAfter | pump-n-dump/chart/chart.go:27 | The first "T0" of a + "T0" + b is the one after a when a has none |
| MarketChart.GetValues | pump-n-dump/chart/chart.go:25-37 | The loop method computes the chart values |
| MarketChart.ValuesStopsAt | pump-n-dump/chart/chart.go:25-37 | Once a summary fails, the whole call fails |
| MarketChart.ValuesShape | pump-n-dump/chart/chart.go:25-37 | getValues succeeds exactly when every summary converts, and then gives one date and one price per summary, equal in number and in summary order |
| MarketChart.ValuesFirstError | pump-n-dump/chart/chart.go:25-33 | A failure is that of the first summary that does not convert |
| MarketChart.Extremes | pump-n-dump/chart/chart.go:45-56 | The loop's max and min are the running extremes |
| MarketChart.MaxIsLargest | pump-n-dump/chart/chart.go:45-51 | max is the largest of 0 and all prices |
| MarketChart.DipsInit | pump-n-dump/chart/chart.go:48-55 | Whether an earlier price dips does not depend on later ones |
| MarketChart.MinWithoutDip | pump-n-dump/chart/chart.go:46-55 | With no price below the running max, min stays 0.0 |
| MarketChart.MinIsLastDip | pump-n-dump/chart/chart.go:52-55 | Otherwise min is the last price strictly below the running max |
| MarketChart.MinAtMostMax | pump-n-dump/chart/chart.go:45-56 | min never exceeds max |
| MarketPoll.ToSummary | pump-n-dump/app.go:52-57 | The stored summary copies OpenBuyOrders, OpenSellOrders, Volume, TimeStamp and Last unchanged, with the zero ID |
| MarketPoll.BuildMarkets | pump-n-dump/app.go:47-59 | The loop method fills the map as the results dictate |
| MarketPoll.MarketsKeys | pump-n-dump/app.go:49-59 | The map's names are exactly the names of the results that contain "BTC" |
| MarketPoll.Markets | pump-n-dump/app.go:49-59 | Every stored name contains "BTC" and every stored summary has an empty ID |
| MarketPoll.MarketsAreBtc | pump-n-dump/app.go:51 | Only names containing "BTC" are stored |
| MarketPoll.MarketsLastWins | pump-n-dump/app.go:52-57 | A name holds the summary of its last BTC result |
| MarketPoll.InsertAll | pump-n-dump/app.go:61-69 | The insert loop inserts the markets in visiting order (each name once), each with the next fresh ID, never the same market twice, and stops at the first failure |
| MarketPoll.OnePerMarket | pump-n-dump/app.go:61-69 | Without a failure every stored market is inserted exactly once, each with its own ID |
| MarketPoll.OrderCovers | pump-n-dump/app.go:61 | The map iteration visits every key |
| MarketPoll.Poll | pump-n-dump/app.go:47-69 | One poll filters the results, then inserts the stored markets in visiting order, never one twice, each with the next fresh ID; no insert before the last failed, since `log.Fatal` ends the process at the first failure |
| Text.IndexFrom | utils/csv_aggregate.py:109 | A found separator occurs at the index |
| Text.IndexFromFirst | utils/csv_aggregate.py:109 | It is the first occurrence, and none found means none exists |
| Text.ContainsIff | pump-n-dump/app.go:51 | strings.Contains holds exactly when the substring occurs somewhere |
| Text.Split | utils/csv_aggregate.py:109 | A split has at least one part |
| Text.JoinSplit | utils/csv_aggregate.py:109 | Joining a split gives back the string |
| Text.SplitPartsFree | utils/csv_aggregate.py:109 | No part contains the separator |
| Text.SplitAtFirst | pump-n-dump/chart/chart.go:27 | A split starts at the first separator |
| Text.SplitFree | utils/csv_aggregate.py:109 | A string without the separator is one part |
| Text.SplitThree | utils/csv_aggregate.py:109 | Three comma-free fields joined by commas split back into them |
| Text.SplitJoin | utils/twitterscrape.py:68-76 | Separator-free fields joined and split again are the same fields |
| Text.FindChar | utils/csv_aggregate.py:109 | A found character is at the index |
| Text.SplitOn | utils/csv_aggregate.py:109 | Splitting at a character has at least one part |
| Text.FindCharIsIndexFrom | utils/csv_aggregate.py:109 | The character scan finds the same index as the substring search |
| Text.SplitOnIsSplit | utils/csv_aggregate.py:109 | Splitting at a character is str.split with a one-character separator |
| Text.ReplaceChar | utils/movingaverages.py:121 | str.replace of one character keeps the length and replaces exactly that character |
| Text.RemoveChar | utils/twitterscrape.py:76 | Removing a character never lengthens the string, and changes nothing when it is absent |
| Text.RemoveCharFree | utils/twitterscrape.py:76 | No removed character remains, and none is added |
| Text.StripLeft | utils/twitterscrape.py:76 | The result is no longer and does not start with a space |
| Text.StripRight | utils/twitterscrape.py:76 | The result is no longer and does not end with a space |
| Text.StripLeftSuffix | utils/twitterscrape.py:76 | The left strip is a suffix |
| Text.StripRightPrefix | utils/twitterscrape.py:76 | The right strip is a prefix |
| Text.Strip | utils/twitterscrape.py:76 | str.strip removes the surrounding whitespace |
| Text.StripFree | utils/twitterscrape.py:76 | strip adds no character |
| Text.StripUnchanged | utils/twitterscrape.py:76 | A string without surrounding whitespace is unchanged |
| Text.StripNewlines | utils/csv_aggregate.py:109 | rstrip('\n') leaves no trailing newline |
| Text.NatToString | utils/redditscraper.py:22 | The decimal form is a non-empty numeral |
| Text.DigitsValueOfNatToString | utils/redditscraper.py:22 | The decimal form has the number's value |
| Text.ParseNumeral | neural-networks/timePrediction.py:20 | int() of a numeral is its value |
| Text.ParseNegativeNumeral | neural-networks/timePrediction.py:20 | int() of a minus sign and a numeral is the negated value |
| Text.ParseIntToString | neural-networks/timePrediction.py:20 | int(str(n)) == n |
| Text.LexIrreflexive | utils/redditscraper.py:66 | String order is irreflexive |
| Text.LexTotal | utils/redditscraper.py:66 | String order is total |
| Text.LexTransitive | utils/redditscraper.py:66 | String order is transitive |
| Text.LexAsymmetric | utils/redditscraper.py:66 | String order is asymmetric |
| Text.Insert | utils/csv_aggregate.py:148 | Insertion keeps a list sorted and adds exactly the element |
| Text.Sort | utils/csv_aggregate.py:148 | sorted() of strings gives a sorted permutation |
| Seqs.SumAppend | utils/movingaverages.py:54-55 | A sum over a + b is the sum of the sums |
| Seqs.Slice | timeseries.py:27-28 | Python's clamped slice has the clamped length |
| Seqs.Reverse | utils/movingaverages.py:112-113 | data[::-1] reverses |
| Seqs.FlattenAppend | utils/twitterscrape.py:51 | Flattening a + b concatenates the two flattenings |

## Left out

- Floating point: every price, amount and score is a `real`. Rounding, NaN and infinity are not modelled, except where noted: NaN as None in the stance column, and the `Quotient` results of `percent_change`, whose integer path divides by zero.
- Library calls are parameters of the model:
  - `strptime` of the two tick formats, `float()`, `strftime`, `str()` and `.timestamp()`, with their local-time-zone dependence (the `Platform` record in `CsvAggregate`);
  - `strpdate2num` and `float()` in `read_file` (the `Readers` record);
  - `np.corrcoef` (an uninterpreted coefficient);
  - `time.Parse` in chart.go;
  - `'%s'` rendering of a tone score in create_file;
  - `datetime.fromtimestamp` day keys in redditscraper.py.
- `MovingAverages.TradeLoop` and `MovingAverages.SimulateMovingAverage` require nonzero prices, standing in for numpy's `inf` on division by zero.
- BtcPredictor.DummyWallet.Exchange: requires a nonzero rate for the dollar-to-bitcoin move, the only one that divides by the quote. Go's float division by a zero quote would give an infinite or NaN balance, which reals cannot hold. Selling and the other pairs accept any rate.
- `MovingAverages.SimulateMovingAverage` takes the rolling means `mas` and `mab` as inputs; pandas `rolling`, `ewm` and `np.round` are not modelled. The same goes for `relative_strength`, `exp_moving_average` and `moving_average_convergence`, which are floating-point numerics built on `exp` and inf/nan.
- `Text.ParseInt` trims whitespace and reads an optional `+` or `-` sign and ASCII decimal digits, as Python's `int()` does. It does not accept the underscores between digits that `int()` allows, nor non-ASCII Unicode decimal digits.
- Calendar.NextDay: years are unbounded. Python's `datetime` ends at 9999-12-31, and a step past it raises OverflowError; the model steps into year 10000. Years below 1 are not excluded either.
- CsvAggregate.IncrementDateTime: does not return an error for the OverflowError that `dt + timedelta(...)` raises past 9999-12-31, for the same reason (it steps with `Calendar.NextDay`).
- BtcPredictor.MovingAverage.Add: requires a window of at least 1. With `NewMA(0)`, Go's `ma.values[ma.valPos]` indexes an empty slice and panics; the panic is not modelled.
- `MovingAverages.ReadFile`, `Correlation.ReadCurrencyFile` and `Correlation.ReadSubscriberFile` start from the rows `csv.reader` has produced. The FileNotFoundError of `open()` (utils/movingaverages.py:101, utils/correlation.py:22 and :63) and `csv.reader`'s field splitting and quoting are not modelled.
- `column_map` is a record of six indices rather than a dictionary, so a missing key (a KeyError) cannot arise.
- HTTP (`requests.get`, `http.Get`, `query_tweets`, the Watson tone analyzer) and MongoDB are parameters of the model. The reddit scraper's oracle is indexed by the page query, and `RedditScraper.PageUrl` renders the URL it stands for.
- `MarketPoll.InsertAll` takes the fresh IDs (`bson.NewObjectId`) and the map visiting order as inputs; Go leaves that order unspecified. It takes insert failures as a predicate. `app.go` calls `dao.Insert(market, summary)`, but markets_dao.go declares `Insert` with a single parameter, so that package does not compile as written; the model takes the evident two-argument insert.
- MarketChart: chart.go calls `dao.FindAll`, which markets_dao.go does not define. The summaries it would return are an input.
- Goroutines and channels in moving-averages.go: `BtcUsdPredictor.ExecuteStep` takes the queued prices as a list. The outer `for {}` loops and 30-second sleeps of `Execute` and app.go's `main` are one iteration each.
- `time.sleep` in redditscraper.py: `RedditScraper.Request` returns the list of sleep lengths it asks for, and nothing sleeps. A negative length, which makes `time.sleep` raise inside the `try`, counts as a failed attempt. `delay` is a `real` where the source annotates `int`.
- RedditScraper.Scrape: the recursion is unbounded. Python recurses once per page (utils/redditscraper.py:53) and raises RecursionError at its default limit of about 1000 frames, which `pages = 10000` (:61) can reach with a long chain of `after` tokens; the failure iff of `Scrape` and `ScrapeFromEmpty` does not cover that error.
- `RedditScraper.Scrape` models the post map on values. The dictionary the caller passes is updated in place in Python and returned; the model returns the updated map, and aliasing is not modelled.
- twitterscrape.py's dates are day numbers (the loop only compares dates and adds one day). The credentials and the module-level run on fixed dates are not modelled.
- `LaggedSamples.PrepareData` and the twitter batch functions take `nat` lags and batch sizes. Negative values, which Python would accept with odd slices, are not modelled.
- `LaggedSamples.PrepareData` requires every row to have column 0; numpy would raise IndexError on a table without columns.
- `LaggedSamples.PlotOffsets` is stated only for lags < 8000. With more lags, the train part has no samples and the slice arithmetic goes negative.
- Every `print`, plotting (matplotlib, seaborn, go-chart's render), Keras model building and training, the scikit-learn regressions, `read_stock`, capTest.go, fugger-junior.go's HTTP calls, config.go's TOML reading and the `__main__` argument handling of csv_aggregate.py are not modelled.
- The type assertions on the JSON result in app.go (`.(float64)`, `.(string)`), which panic on other shapes, are not modelled: results are typed records.
