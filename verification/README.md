# bitcoin-bubble-index: `process_data` in Dafny

A model of `original_data/process_data.py` from the bitcoin-bubble-index
repository: the Python 2 script that reads six scraped chart series and
writes the document behind the bubble-index chart. The series are price,
mining difficulty, Google Trends index, active addresses, transactions and
tweets. The document has five columns: date, price, 60-day growth, hot value
and bubble index.

The project has one module per concern:

| file | module | models |
|---|---|---|
| `results.dfy` | `Results` | `Option` and `Result` |
| `text.dfy` | `Text` | `str.split` and Python 2 `str.translate(None, chars)` |
| `datafile.dfy` | `DataFile` | `read_datafile`: comma tokens taken in (date, value) pairs |
| `calendar.dfy` | `Calendar` | `datetime` day arithmetic: ordinals, `fromordinal`, `timedelta(days=n)` |
| `datetext.dfy` | `DateText` | `get_day`: `strptime`, day arithmetic, `strftime('%Y/%m/%d')` |
| `gapfill.dfy` | `GapFill` | `add_missing_data` |
| `growth.dfy` | `Growth` | the 60-entry growth window and its running total |
| `indicators.dfy` | `Indicators` | `get_hot_value`, `get_bubble_index`, `null` read as 0 |
| `columns.dfy` | `Columns` | the three loops of `process_data`, turn by turn |
| `pipeline.dfy` | `Pipeline` | `process_data` as a whole |

Every Python exception the core can raise becomes an error value. The model
covers:
- `ValueError` from `split` unpacking, `float()`, `strptime`, `strftime` and `math.sqrt`;
- `ZeroDivisionError`;
- `IndexError`;
- `OverflowError` from adding a `timedelta` to a date;
- a failing `assert`.

`Pipeline.ProcessData` returns either the document or the first exception,
with its series, its kind and the loop index it happened at.

What the code does at the edges:
- `read_datafile` applies no date filter to the entries.
- `read_datafile` strips no characters from the ends of the file text.
- An odd number of comma tokens raises nothing: the last token is silently
  dropped.
- Nothing pads the tweets series after the entries of its file.
- A zero price raises `ZeroDivisionError` at line 178 of
  `original_data/process_data.py` when it is the first price or follows
  another zero price.

## Model

| member | source | states |
|---|---|---|
| Text.Split | original_data/process_data.py:98 | `split(',')` gives one more piece than there are separators; no piece holds a separator; the pieces joined with the separator give back the text |
| Text.SplitAround | original_data/process_data.py:98 | a separator in the text is a cut: the pieces of `a + sep + b` are the pieces of `a` followed by those of `b` |
| Text.SplitNoSeparator | original_data/process_data.py:98 | a text without the separator is a single piece |
| Text.SplitJoin | original_data/process_data.py:98 | splitting undoes joining when no piece holds the separator |
| Text.DeleteChars | original_data/process_data.py:100-102 | `translate(None, chars)` never lengthens a text and leaves none of the deleted characters |
| Text.DeleteCharsAppend | original_data/process_data.py:100-102 | deleting characters distributes over concatenation, so no character moves |
| Text.DeleteCharsCounts | original_data/process_data.py:100-102 | each kept character keeps its number of occurrences; each deleted one has none left |
| Text.DeleteCharsNothing | original_data/process_data.py:100-102 | a text with none of the deleted characters comes back unchanged |
| Text.DeleteCharsAll | original_data/process_data.py:100-102 | a text made only of deleted characters vanishes |
| DataFile.Entry | original_data/process_data.py:99-103 | one entry: the date token with `[new Date("")` characters deleted, a colon, the value token with `]` deleted; `DataFile.PairsShape` states that entry `i` of the file is built this way from tokens `2i` and `2i+1` |
| Pipeline.Read | original_data/process_data.py:77-106 | `read_datafile` of a file's text as a function, through which every whole-run contract is stated; `DataFile.ReadDatafile` states that the loop yields it and `DataFile.PairsShape` what its entries are |
| DataFile.PairsShape | original_data/process_data.py:98-104 | there is one entry per complete pair of tokens; entry `i` is date token `2i`, unwrapped, a colon, and value token `2i+1`, unwrapped |
| DataFile.UnpairedTokenDropped | original_data/process_data.py:98-104 | a trailing token without a partner adds no entry and raises nothing |
| DataFile.ReadDatafile | original_data/process_data.py:77-106 | the loop over the comma tokens, with its even/odd switch and remembered key, yields exactly the reference pairing of the text's tokens |
| DataFile.NullPassesThrough | original_data/process_data.py:102-103 | a `null` value, whether followed by one closing bracket, two or none, reaches the entry as `null` |
| DataFile.DateTokenUnwrapped | original_data/process_data.py:100 | a token `[new Date("D")` or `[[new Date("D")` leaves exactly the date text `D`, provided `D` holds none of the deleted characters |
| DataFile.ValueTokenUnwrapped | original_data/process_data.py:102 | a value token `V]` or `V]]` leaves exactly `V` when `V` holds no `]` |
| DataFile.FirstPairExample | original_data/process_data.py:88-89 | the documented entry `2010/07/26:181.543` comes from its two scraped tokens |
| Calendar.Ordinal | original_data/process_data.py:74 | `toordinal()`, the day count the date addition rests on; `Calendar.FromOrdinal` inverts it over 1..3652059 and `Calendar.OrdinalInjective` states that distinct valid dates have distinct ordinals |
| Calendar.FromOrdinal | original_data/process_data.py:74 | `fromordinal(n)` is the valid date whose ordinal is `n` |
| Calendar.OrdinalInjective | original_data/process_data.py:74 | different dates have different ordinals |
| Calendar.YearsFollowOrdinals | original_data/process_data.py:74 | a later ordinal never falls in an earlier year |
| Calendar.OrdinalRange | original_data/process_data.py:74 | valid dates have ordinals from 1 to 3652059 (9999-12-31) |
| Calendar.FromOrdinalOfOrdinal | original_data/process_data.py:74 | `fromordinal` undoes `toordinal` |
| Calendar.AddDays | original_data/process_data.py:74 | adding `n` days succeeds exactly when the ordinal stays in range, and then gives the date `n` ordinals later |
| Calendar.AddZeroDays | original_data/process_data.py:74 | adding 0 days gives the same date |
| Calendar.Next | original_data/process_data.py:74 | the calendar successor with month and year roll-over, defined without ordinals; `Calendar.NextOrdinal` states it is one ordinal later and `Calendar.AddOneDay` that adding one day gives it |
| Calendar.NextOrdinal | original_data/process_data.py:74 | the calendar successor is valid and one ordinal later |
| Calendar.AddOneDay | original_data/process_data.py:74 | adding one day is the calendar successor, with month and year roll-over; past 9999-12-31 it overflows |
| Calendar.AddDaysTwice | original_data/process_data.py:74 | adding `a` days and then `b` days is adding `a + b` days |
| Calendar.AddDaysStep | original_data/process_data.py:74 | day `k + 1` after a date is the successor of day `k` |
| Calendar.NextExamples | original_data/process_data.py:58-59 | month ends, year ends and leap days (2016, 1900, 2000) roll over as the calendar says |
| DateText.FormatDate | original_data/process_data.py:74 | `strftime('%Y/%m/%d')` writes ten characters with slashes at positions 4 and 7 |
| DateText.FormatNoColon | original_data/process_data.py:74 | a date text holds no colon, so it can serve as an entry's key |
| DateText.ParseDate | original_data/process_data.py:73 | `strptime(s, '%Y/%m/%d')` gives only valid calendar dates |
| DateText.ParseFormat | original_data/process_data.py:73-74 | parsing a formatted date gives the date back |
| DateText.FormatParse | original_data/process_data.py:73-74 | the only text that parses to a date is that date's formatted text |
| DateText.FormatInjective | original_data/process_data.py:74 | two dates with the same text are the same date |
| DateText.GetDay | original_data/process_data.py:55-75 | `get_day`: parse, add the days, format; `DateText.GetDayMeaning` states what the text means and the cause of each exception |
| DateText.GetDayMeaning | original_data/process_data.py:55-75 | `get_day(s, n)` is the text of the date `n` days after `s`; it raises `ValueError` exactly for an unparsable `s` or a target year before 1900, and `OverflowError` exactly for a target outside `datetime`'s range |
| DateText.GetDayZero | original_data/process_data.py:73-75 | `get_day(s, 0) == s` for every date text from 1900 on |
| DateText.GetDayOne | original_data/process_data.py:73-75 | `get_day(s, 1)` is the text of the calendar successor |
| DateText.GetDayTwice | original_data/process_data.py:73-75 | stepping a stepped date adds the gaps |
| DateText.GetDayExample | original_data/process_data.py:58-59 | the documented `get_day('2017/01/01', 1) == '2017/01/02'` |
| GapFill.DaysBetween | original_data/process_data.py:126-129 | the distance in days from one date text to a later one, measured in ordinals |
| GapFill.LandsOnEnd | original_data/process_data.py:126-129 | stepping the start by the distance to the end lands on the end's text |
| GapFill.StepOutcome | original_data/process_data.py:127 | one `get_day` call in the loop fails on unparsable text at once, refuses a year before 1900 only at the first step, and overflows only outside `datetime`'s range |
| GapFill.ReachedDistance | original_data/process_data.py:127-129 | a text reached in `k` steps is `k` days after the start |
| GapFill.StopsAtEnd | original_data/process_data.py:127-129 | if the loop stops at step `k`, the end is fillable and lies `k` days after the start |
| GapFill.TurnFails | original_data/process_data.py:126-127 | a turn whose `get_day` raises means the end was not reachable; the exception is `Unparsable` exactly for an unparsable start and `Before1900` exactly for a start year before 1900 |
| GapFill.TurnContinues | original_data/process_data.py:126-132 | a turn that reaches a date other than the end leaves the next index inside the period and inside `datetime`'s range, so the loop terminates |
| GapFill.StepsBefore | original_data/process_data.py:126-132 | if step `k` succeeds, so does every earlier step |
| GapFill.VisitedAppend | original_data/process_data.py:127-132 | one more successful step that is not the end extends the visited days |
| GapFill.Grow | original_data/process_data.py:130 | `init_value += init_value*scale_factor` takes the value grown `n` times to the value grown `n + 1` times |
| GapFill.GapDays | original_data/process_data.py:125-133 | the loop stops exactly when the end is reachable from a start year of 1900 or later; it fails with `ValueError` exactly for an unparsable start or a start before 1900; on success it visits one text per day, none of them the end |
| GapFill.Line | original_data/process_data.py:131 | one synthetic entry, the date text, a colon and the value as text; `GapFill.CompoundLines` and `GapFill.AddMissingData` state which date and value entry `i` carries |
| GapFill.CompoundLines | original_data/process_data.py:130-131 | entry `i` is day `i`'s text, a colon, and the value grown `i + 1` times |
| GapFill.AddMissingData | original_data/process_data.py:108-134 | `add_missing_data` returns exactly when the end is fillable, one entry per day in `[start, end)`, entry `i` being `get_day(start, i)` with the initial value grown `i + 1` times; otherwise it raises the `get_day` error |
| Growth.Growths | original_data/process_data.py:174-178 | each day's growth is measured against the previous price, or against the price itself when the previous one is 0 |
| Growth.Trunc | original_data/process_data.py:182 | `int()` truncates toward zero: the result is within one of its argument and no farther from zero |
| Growth.Growth60 | original_data/process_data.py:182 | the value appended to the growth column for price `i`: the total of the last 60 growths, in percent, truncated; `Growth.Growth60s` lists it per price and `Growth.AdvanceGrows` states that the loop's running total outputs it |
| Growth.TruncMonotone | original_data/process_data.py:182 | `int()` truncation toward zero never reverses the order of two values |
| Growth.Growth60s | original_data/process_data.py:176-182 | the growth column holds, for each price, the window total after it, in percent, truncated |
| Growth.Push | original_data/process_data.py:176-180 | the deque step: at 60 growths pop the oldest and subtract it from the total, then append the new growth and add it; `Growth.PushKeepsSum` states that the total stays the deque's total and the deque at most 60 long |
| Growth.PushKeepsSum | original_data/process_data.py:176-180 | evicting the oldest growth at 60 and adding the new one keeps `accumulate_60` equal to the total of the deque, and the deque at most 60 long |
| Growth.TrackedWindow | original_data/process_data.py:176-180 | the window tracked after any number of prices keeps `accumulate_60` equal to its deque's total and holds at most 60 growths |
| Growth.PushTracked | original_data/process_data.py:176-180 | pushing the growth of price `n` onto the window of `n` prices gives the window of `n + 1`, the running total included |
| Growth.PushRecent | original_data/process_data.py:176-180 | the window after `n + 1` prices is the window after `n` with the new growth pushed |
| Growth.Advance | original_data/process_data.py:174-182 | one turn of the price loop's growth part; `Growth.AdvanceTracks` states that it takes the tracked state of `n` prices to that of `n + 1`, outputs the growth of price `n` and raises exactly on a zero divisor |
| Growth.AdvanceTracks | original_data/process_data.py:174-182 | one turn takes the tracked state of `n` prices to that of `n + 1` and outputs the growth of price `n`; it raises exactly when price `n` would be divided by zero |
| Growth.AdvanceGrows | original_data/process_data.py:174-182 | a turn that does not divide by zero remembers the price, holds the window of `n + 1` prices and outputs the growth of price `n` |
| Growth.GrowthPrefix | original_data/process_data.py:170-182 | the growth output of a price depends only on the prices up to it |
| Growth.RecentShape | original_data/process_data.py:176-180 | the window holds min(n, 60) growths, the newest last |
| Growth.LastPrice | original_data/process_data.py:174-175 | the price a growth is measured against: the previous one, reseeded to the current price when it is 0 or there is none; `Growth.ZeroDivisionCause` states when it is 0 |
| Growth.ZeroDivisionCause | original_data/process_data.py:174-178 | a growth divides by zero exactly when the price is 0 and it is either the first or follows another 0 |
| Growth.ReseededGrowthIsZero | original_data/process_data.py:174-178 | a nonzero price after a 0, or the first price, has growth 0 |
| Growth.PositivePrices | original_data/process_data.py:174-181 | with positive prices no growth divides by zero, and each growth is the relative change from the previous price |
| Growth.GrowthExample | original_data/process_data.py:174-182 | prices 100, 110, 121, 90 give outputs 0, 10, 20 and -5: the total is truncated toward zero |
| Indicators.ValueOrZero | original_data/process_data.py:190-191 | `null` reads as 0, anything else as `float()` reads it |
| Indicators.HotValue | original_data/process_data.py:53 | the hot value raises exactly for a negative tweet count, and otherwise exceeds `6.27 * trend` by the square root of the tweet count |
| Indicators.BubbleIndex | original_data/process_data.py:34-36 | the bubble index raises exactly when the activity denominator is 0 |
| Indicators.HotValueRisesWithTrend | original_data/process_data.py:53 | with tweets fixed, a higher trend gives a higher hot value; `Columns.HigherTrendNeverLowersBubble` carries this through to the bubble index |
| Indicators.BubbleIndexMonotone | original_data/process_data.py:34-36 | with positive activity, the bubble index rises with price, growth and hot value |
| Indicators.AllMissingDividesByZero | original_data/process_data.py:206-216 | three `null` activity values read as 0 and make the denominator 0, so the index raises `ZeroDivisionError` whatever the price, growth and hot value |
| Columns.Fields | original_data/process_data.py:171 | `key, value = entry.split(':')` succeeds exactly for one colon; the entry is then key, colon, value, neither part holding a colon |
| Columns.FieldsOfEntry | original_data/process_data.py:171 | an entry written as `key:value` splits back into its key and value |
| Columns.KeyBeforeColon | original_data/process_data.py:186-189 | a split entry's key is everything before its first colon |
| Columns.Aligned | original_data/process_data.py:186-189 | a series entry passes exactly when it exists, splits in two and its key equals the price date at that index; the value is the rest |
| Columns.AlignedEntry | original_data/process_data.py:186-189 | an entry made of the right date and a colon-free value passes with that value |
| Columns.ReadRow | original_data/process_data.py:171-173 | a price entry reads when it splits in two and its value is a number; which of the two failed otherwise |
| Columns.PriceFaultNone | original_data/process_data.py:170-178 | turn `i` of the price loop raises nothing exactly when the run reaches `i + 1` turns |
| Columns.FaultStopsRun | original_data/process_data.py:170-178 | no run gets past a turn that raises |
| Columns.RunPrefix | original_data/process_data.py:170-182 | a run of `n` turns passes through every shorter run |
| Columns.Dates | original_data/process_data.py:172 | the date column holds each entry's key in order |
| Columns.PriceTexts | original_data/process_data.py:173 | the price column holds each price as `'%0.2f'` writes it, in order |
| Columns.PriceTable | original_data/process_data.py:170-182 | the three columns after `n` turns of the price loop; `Columns.PriceTableStep` states that each turn appends one row and `Columns.ReadPrices` that the loop yields them |
| Columns.PriceTableStep | original_data/process_data.py:170-182 | one more turn appends one row: date, formatted price, 60-day growth |
| Columns.PriceTableStart | original_data/process_data.py:160-169 | before the first row nothing has failed, the columns are empty and the tracker is at its start: previous price 0 and an empty window |
| Columns.PriceTurn | original_data/process_data.py:171-182 | one turn of the price loop, with the tracked state, either raises that turn's fault or moves every column and the window one price on |
| Columns.ReadPrices | original_data/process_data.py:166-182 | the price loop succeeds exactly when every turn raises nothing, and then yields the reference columns; otherwise it stops at a turn that raises, with that turn's fault |
| Columns.HotStep | original_data/process_data.py:186-193 | one turn of the hot loop; `Columns.HotStepMeaning` states what a success and each failure mean |
| Columns.HotStepMeaning | original_data/process_data.py:185-193 | a hot value exists only when the trend and tweets entries both carry the price date, and it is the formula applied to their values with `null` read as 0; each misalignment and the negative tweet count are reported as such |
| Columns.BubbleStep | original_data/process_data.py:199-218 | one turn of the bubble loop; `Columns.BubbleStepMeaning` states what a success means |
| Columns.BubbleStepMeaning | original_data/process_data.py:198-218 | a bubble index exists only when all three activity entries carry the price date, and it is the formula applied to their values, the re-read price, the growth and the hot value |
| Columns.HigherTrendNeverLowersBubble | original_data/process_data.py:191-216 | with the tweet count, price, growth and a positive network activity fixed, a higher trend index never lowers the day's bubble index, through the hot value truncated by `int()` as the hot loop stores it |
| Columns.AllNullActivityDividesByZero | original_data/process_data.py:206-216 | a day whose three activity values are all `null` stops the run with a division by zero |
| Columns.FirstFaultUnique | original_data/process_data.py:185-193 | a loop has only one first faulty turn |
| Columns.Scan | original_data/process_data.py:185-193 | a loop over `range(n)` succeeds exactly when every turn does, appending each turn's result in order; otherwise it stops at the first turn that raises |
| Pipeline.TweetsGap | original_data/process_data.py:152-156 | the synthetic tweets stretch from 2010/07/17 to 2014/04/09 can be filled and is 1362 days long |
| Pipeline.GapDaysExist | original_data/process_data.py:152-156 | every day of that stretch has a date text |
| Pipeline.Output | original_data/process_data.py:195-220 | both length asserts of a successful run hold: all five columns, and the trend series, are as long as the price series |
| Pipeline.ReadFeeds | original_data/process_data.py:140-157 | the six series are the files' entries, tweets after the synthetic stretch |
| Pipeline.Succeeds | original_data/process_data.py:136-220 | `process_data` runs to its end: every price turn, every hot turn and every bubble turn passes, and so does the hot length assert; `Pipeline.ProcessData` states that it succeeds exactly then |
| Pipeline.Fails | original_data/process_data.py:136-220 | `process_data` stops with a given exception: the first fault of the first loop that raises, or the failing length assert; `Pipeline.ProcessData` states that every failure it reports is one of these, and `Pipeline.FailsUnique` that there is only one |
| Pipeline.ProcessData | original_data/process_data.py:136-220 | `process_data` succeeds exactly when all three loops and the length assert pass, and then writes the reference document; otherwise it reports the first exception of the first loop that raises |
| Pipeline.FailsUnique | original_data/process_data.py:136-220 | a failing run is described by exactly one exception |
| Pipeline.OutputPrices | original_data/process_data.py:170-182 | row `i` of the document has price entry `i`'s key as its date, its value to two decimals as its price, and the 60-day growth at that price |
| Pipeline.OutputAligned | original_data/process_data.py:186-204 | on success, entry `i` of every other series carries the price date `i` |
| Pipeline.GapDayText | original_data/process_data.py:152-156 | the stretch's dates hold no colon, and its first day is 2010/07/17 |
| Pipeline.TweetLine | original_data/process_data.py:152-157 | entry `i` of the tweets series inside the stretch is day `i` with its grown count |
| Pipeline.StartsOnGap | original_data/process_data.py:188-189 | a successful run needs a price series whose dates follow the stretch day by day from 2010/07/17 |

## Left out

- File reading and writing (lines 93-94 and 222-227) are left out. The model starts from the six files' texts and ends with the document's columns.
- `json.dumps` is left out: the document is kept as five columns.
- Floating point is not modelled. Prices, growths and indicator values are exact reals, so `accumulate_60` carries no rounding drift.
- `float()`, `str()` on floats, `'%0.2f'` and `math.sqrt` are not computed. They are parameters of `Columns.Env`, so every property holds for any choice of them.
- `math.pi` is the exact value of the double nearest to pi.
- Indicators.HotValue: does not model `nan` or infinite inputs, which reals do not have.
- Growth.Trunc: does not model `int()` of an infinite or `nan` float (`OverflowError`, `ValueError`), which reals do not have.
- DateText.ParseDate: accepts only zero-padded `YYYY/MM/DD` text. `strptime` also takes unpadded fields such as `2017/1/1`; every date the program handles is padded.
- The asserts are modelled as enabled. Under `python -O` they would be skipped.
- GapFill.AddMissingData: the dates are stepped through first and the values grown after. Every exception comes from `get_day` before anything is returned, so the outcome is the same.
- Columns.ReadPrices: each entry is split and read before the loop runs. The reads have no side effects, and the loop only looks at them turn by turn, so the outcome is the same.
- Columns.PriceTable: the columns are stated for the turns that complete. On a failing turn Python has appended part of a row: a split failure at line 171 appends nothing; a `float()` failure at line 173 has appended the date; a division by zero at line 178 has appended the date and the price. The run then ends with the exception, so these partial columns are never seen.
