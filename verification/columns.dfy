/** The three loops of `process_data` that build the output columns from
    the `date:value` entries: the price loop (dates, prices, 60-day growth),
    the hot-value loop and the bubble-index loop. Each loop stops at the
    first exception; an `assert` that fails is an exception too. */
module Columns {
  import opened Results
  import opened Text
  import opened Growth
  import opened Indicators

  /** The float operations the model does not compute: `float()` on a text
      (`None` where it raises `ValueError`), `str()` on a float, the
      `'%0.2f'` format, and `math.sqrt` on a non-negative float. */
  datatype Env = Env(
    parse: string -> Option<real>,
    show: real -> string,
    fixed2: real -> string,
    sqrt: real -> real)

  /** The series an exception is about; `Bubble` is the bubble formula. */
  datatype Series = Price | Difficulty | Trend | Sentaddr | Transaction | Tweets | Bubble

  /** What went wrong:
      - `Malformed`: an entry does not split into exactly two fields;
      - `BadNumber`: `float()` rejects a value;
      - `ZeroDivision`: a division by zero;
      - `Missing`: an index past the end of a list;
      - `Misaligned`: an entry's date differs from the price date at its index;
      - `MathDomain`: `math.sqrt` of a negative number;
      - `LengthMismatch`: the hot column is shorter than the price column. */
  datatype Kind = Malformed | BadNumber | ZeroDivision | Missing | Misaligned | MathDomain | LengthMismatch

  datatype Fault = Fault(series: Series, kind: Kind)

  /** The exception that ends a run, with the loop index it happened at. */
  datatype Failure = Failure(at: nat, fault: Fault)

  /** `key, value = entry.split(':')`: `None` unless there are exactly two
      fields. */
  function Fields(entry: string): (r: Option<(string, string)>)
    ensures r.Some? <==> Count(entry, ':') == 1
    ensures r.Some? ==> entry == r.value.0 + ":" + r.value.1
    ensures r.Some? ==> ':' !in r.value.0 && ':' !in r.value.1
  {
    var parts := Split(entry, ':');
    if |parts| == 2 then
      assert Join(parts, ':') == parts[0] + [':'] + parts[1] by {
        assert parts[1..] == [parts[1]];
      }
      Some((parts[0], parts[1]))
    else None
  }

  /** Splitting an entry written as `key:value` gives back its key and
      value, as long as neither holds a colon. */
  lemma FieldsOfEntry(key: string, value: string)
    requires ':' !in key && ':' !in value
    ensures Fields(key + ":" + value) == Some((key, value))
  {
    var parts := [key, value];
    assert Join(parts, ':') == key + ":" + value by {
      assert parts[1..] == [value];
    }
    SplitJoin(parts, ':');
  }

  /** The key `split(':')` finds is all of the entry before its first
      colon: an entry that starts with a colon-free `key` and a colon has
      that key, when it splits in two at all. */
  lemma KeyBeforeColon(key: string, rest: string)
    requires ':' !in key
    requires Fields(key + ":" + rest).Some?
    ensures Fields(key + ":" + rest).value.0 == key
  {
    var entry := key + ":" + rest;
    var k := Fields(entry).value.0;
    assert entry == k + ":" + Fields(entry).value.1;
    assert entry[|key|] == ':' && entry[|k|] == ':';
    assert forall j :: 0 <= j < |key| ==> entry[j] == key[j] != ':';
    assert forall j :: 0 <= j < |k| ==> entry[j] == k[j] != ':';
    assert |k| == |key|;
    assert k == entry[..|k|] && key == entry[..|key|];
  }

  /** Series `entries` at index `i`, checked against the price dates:
      `entries[i]`, then the split, then `date[i]`, then
      `assert key == date[i]`. The value text on success. */
  function Aligned(entries: seq<string>, s: Series, dates: seq<string>, i: nat): (r: Result<string, Fault>)
    ensures r.Ok? ==> i < |entries| && i < |dates| && entries[i] == dates[i] + ":" + r.value
    ensures r.Ok? ==> Fields(entries[i]) == Some((dates[i], r.value))
    ensures r == Err(Fault(s, Misaligned)) ==>
      i < |entries| && i < |dates| && Fields(entries[i]).Some? && Fields(entries[i]).value.0 != dates[i]
  {
    if i >= |entries| then Err(Fault(s, Missing))
    else match Fields(entries[i])
      case None => Err(Fault(s, Malformed))
      case Some(kv) =>
        if i >= |dates| then Err(Fault(Price, Missing))
        else if kv.0 != dates[i] then Err(Fault(s, Misaligned))
        else Ok(kv.1)
  }

  /** An entry made of the right date and a colon-free value passes the
      check and yields that value. */
  lemma AlignedEntry(entries: seq<string>, s: Series, dates: seq<string>, i: nat, value: string)
    requires i < |entries| && i < |dates| && ':' !in dates[i] && ':' !in value
    requires entries[i] == dates[i] + ":" + value
    ensures Aligned(entries, s, dates, i) == Ok(value)
  {
    FieldsOfEntry(dates[i], value);
  }

  // The price loop.

  /** A price entry as the loop reads it: its date and its price. */
  datatype PriceRow = PriceRow(date: string, price: real)

  /** `key, value = entry.split(':')`, then `float(value)`; on failure,
      which of the two raised. */
  function ReadRow(env: Env, entry: string): (r: Result<PriceRow, Kind>)
    ensures r.Ok? <==> Fields(entry).Some? && env.parse(Fields(entry).value.1).Some?
    ensures r.Ok? ==> entry == r.value.date + ":" + Fields(entry).value.1
    ensures r.Ok? ==> Some(r.value.price) == env.parse(Fields(entry).value.1)
    ensures r == Err(Malformed) <==> Fields(entry).None?
    ensures r.Err? ==> r.error == Malformed || r.error == BadNumber
  {
    match Fields(entry)
    case None => Err(Malformed)
    case Some(kv) =>
      match env.parse(kv.1)
      case None => Err(BadNumber)
      case Some(p) => Ok(PriceRow(kv.0, p))
  }

  /** Every price entry read, whether or not the loop gets that far. */
  function Rows(env: Env, entries: seq<string>): (rows: seq<Result<PriceRow, Kind>>)
    ensures |rows| == |entries|
    ensures forall i :: 0 <= i < |entries| ==> rows[i] == ReadRow(env, entries[i])
  {
    seq(|entries|, i requires 0 <= i < |entries| => ReadRow(env, entries[i]))
  }

  /** The price of every row; 0.0 stands in for a row that does not read,
      which no turn of the loop ever uses. */
  function PriceSeries(rows: seq<Result<PriceRow, Kind>>): (p: seq<real>)
    ensures |p| == |rows|
    ensures forall i :: 0 <= i < |rows| && rows[i].Ok? ==> p[i] == rows[i].value.price
  {
    seq(|rows|, i requires 0 <= i < |rows| => if rows[i].Ok? then rows[i].value.price else 0.0)
  }

  /** The first `n` turns of the price loop raise nothing: the entries are
      read and no growth divides by zero. */
  predicate PricesRun(rows: seq<Result<PriceRow, Kind>>, n: nat)
  {
    && AllRead(rows, n)
    && Divisible(PriceSeries(rows), n)
  }

  /** Why turn `i` of the price loop raises, when the turns before it did
      not: the split or `float()`, then the division. */
  function PriceFault(rows: seq<Result<PriceRow, Kind>>, i: nat): Option<Kind>
    requires PricesRun(rows, i) && i < |rows|
  {
    if rows[i].Err? then Some(rows[i].error)
    else if LastPrice(PriceSeries(rows), i) == 0.0 then Some(ZeroDivision)
    else None
  }

  /** A run of the price loop fails at its first faulty turn: turn `i`
      raises nothing exactly when the run goes on to `i + 1` turns. */
  lemma PriceFaultNone(rows: seq<Result<PriceRow, Kind>>, i: nat)
    requires PricesRun(rows, i) && i < |rows|
    ensures PriceFault(rows, i).None? <==> PricesRun(rows, i + 1)
  {
  }

  /** A turn that raises ends the run: no run gets past it. */
  lemma FaultStopsRun(rows: seq<Result<PriceRow, Kind>>, i: nat, n: nat)
    requires PricesRun(rows, i) && i < n <= |rows| && PriceFault(rows, i).Some?
    ensures !PricesRun(rows, n)
  {
  }

  /** A run that gets to `n` turns passes through every shorter one. */
  lemma RunPrefix(rows: seq<Result<PriceRow, Kind>>, m: nat, n: nat)
    requires PricesRun(rows, n) && m <= n
    ensures PricesRun(rows, m)
  {
  }

  /** The columns the price loop fills. */
  datatype PriceColumns = PriceColumns(date: seq<string>, price: seq<string>, growth60: seq<int>)

  /** Every one of the first `n` entries was read. */
  predicate AllRead(rows: seq<Result<PriceRow, Kind>>, n: nat)
  {
    n <= |rows| && forall i :: 0 <= i < n ==> rows[i].Ok?
  }

  /** The `date` column after `n` turns. */
  function Dates(rows: seq<Result<PriceRow, Kind>>, n: nat): (d: seq<string>)
    requires AllRead(rows, n)
    ensures |d| == n
    ensures forall j :: 0 <= j < n ==> d[j] == rows[j].value.date
  {
    if n == 0 then [] else Dates(rows, n - 1) + [rows[n - 1].value.date]
  }

  /** The `price` column after `n` turns: each price to two decimals. */
  function PriceTexts(env: Env, rows: seq<Result<PriceRow, Kind>>, n: nat): (d: seq<string>)
    requires AllRead(rows, n)
    ensures |d| == n
    ensures forall j :: 0 <= j < n ==> d[j] == env.fixed2(rows[j].value.price)
  {
    if n == 0 then [] else PriceTexts(env, rows, n - 1) + [env.fixed2(rows[n - 1].value.price)]
  }

  /** The columns after `n` turns, one row per turn. */
  function PriceTable(env: Env, rows: seq<Result<PriceRow, Kind>>, n: nat): (t: PriceColumns)
    requires PricesRun(rows, n)
  {
    PriceColumns(Dates(rows, n), PriceTexts(env, rows, n), Growth60s(PriceSeries(rows), n))
  }

  /** Before the first turn: no row, and the tracker as it starts. */
  lemma PriceTableStart(env: Env, rows: seq<Result<PriceRow, Kind>>)
    ensures PricesRun(rows, 0)
    ensures PriceTable(env, rows, 0) == PriceColumns([], [], [])
    ensures Tracking(PriceSeries(rows), 0) == Start
  {
    TrackingStart(PriceSeries(rows));
  }

  /** One more turn adds one row: the entry's date, its price to two
      decimals, and the 60-day growth at it. */
  lemma PriceTableStep(env: Env, rows: seq<Result<PriceRow, Kind>>, i: nat)
    requires PricesRun(rows, i + 1)
    ensures PricesRun(rows, i)
    ensures var t := PriceTable(env, rows, i);
      PriceTable(env, rows, i + 1) == PriceColumns(
        t.date + [rows[i].value.date],
        t.price + [env.fixed2(rows[i].value.price)],
        t.growth60 + [Growth60(PriceSeries(rows), i)])
  {
  }

  /** One turn of the price loop, on entry `i`: the row is recorded and
      the growth pushed, or the turn raises. */
  method PriceTurn(env: Env, rows: seq<Result<PriceRow, Kind>>, i: nat, tracker: Tracker, columns: PriceColumns)
    returns (next: Result<(Tracker, PriceColumns), Kind>)
    requires i < |rows| && PricesRun(rows, i)
    requires tracker == Tracking(PriceSeries(rows), i)
    requires columns == PriceTable(env, rows, i)
    ensures next.Ok? <==> PricesRun(rows, i + 1)
    ensures next.Ok? ==> next.value == (Tracking(PriceSeries(rows), i + 1), PriceTable(env, rows, i + 1))
    ensures next.Err? ==> PriceFault(rows, i) == Some(next.error)
  {
    var row := rows[i];
    if row.Err? {
      return Err(row.error);
    }
    var step := Advance(tracker, row.value.price);
    AdvanceTracks(PriceSeries(rows), i);
    if step.None? {
      return Err(ZeroDivision);
    }
    PriceTableStep(env, rows, i);
    var grown := PriceColumns(
      columns.date + [row.value.date],
      columns.price + [env.fixed2(row.value.price)],
      columns.growth60 + [step.value.1]);
    return Ok((step.value.0, grown));
  }

  /** The price loop over the read entries: record each date and price to
      two decimals, and push each growth through the 60-day window. */
  method ReadPrices(env: Env, rows: seq<Result<PriceRow, Kind>>) returns (r: Result<PriceColumns, Failure>)
    ensures r.Ok? <==> PricesRun(rows, |rows|)
    ensures r.Ok? ==> r.value == PriceTable(env, rows, |rows|)
    ensures r.Err? ==>
      && r.error.at < |rows| && PricesRun(rows, r.error.at)
      && r.error.fault.series == Price
      && PriceFault(rows, r.error.at) == Some(r.error.fault.kind)
  {
    var tracker := Start;
    var columns := PriceColumns([], [], []);
    PriceTableStart(env, rows);
    var i := 0;
    while i < |rows|
      invariant i <= |rows| && PricesRun(rows, i)
      invariant tracker == Tracking(PriceSeries(rows), i)
      invariant columns == PriceTable(env, rows, i)
    {
      var next := PriceTurn(env, rows, i, tracker, columns);
      if next.Err? {
        FaultStopsRun(rows, i, |rows|);
        return Err(Failure(i, Fault(Price, next.error)));
      }
      tracker, columns := next.value.0, next.value.1;
      i := i + 1;
    }
    return Ok(columns);
  }

  // The hot-value and bubble-index loops.

  /** Turn `i` of the hot-value loop: the trend entry, then the tweets
      entry, each checked against the price date; `null` counts as 0; the
      hot value truncated toward zero. */
  function HotStep(env: Env, trend: seq<string>, tweets: seq<string>, dates: seq<string>, i: nat): Result<int, Fault>
  {
    match Aligned(trend, Trend, dates, i)
    case Err(f) => Err(f)
    case Ok(trendText) =>
      match Aligned(tweets, Tweets, dates, i)
      case Err(f) => Err(f)
      case Ok(tweetsText) =>
        match ValueOrZero(trendText, env.parse)
        case None => Err(Fault(Trend, BadNumber))
        case Some(g) =>
          match ValueOrZero(tweetsText, env.parse)
          case None => Err(Fault(Tweets, BadNumber))
          case Some(w) =>
            match HotValue(env.sqrt, g, w)
            case None => Err(Fault(Tweets, MathDomain))
            case Some(h) => Ok(Trunc(h))
  }

  /** A hot value exists only for a day on which both series carry the
      price date, and it is the formula applied to their values, `null`
      read as 0. */
  lemma HotStepMeaning(env: Env, trend: seq<string>, tweets: seq<string>, dates: seq<string>, i: nat)
    ensures HotStep(env, trend, tweets, dates, i).Ok? ==>
      && i < |trend| && i < |tweets| && i < |dates|
      && Aligned(trend, Trend, dates, i).Ok? && Aligned(tweets, Tweets, dates, i).Ok?
      && var g := ValueOrZero(Aligned(trend, Trend, dates, i).value, env.parse);
         var w := ValueOrZero(Aligned(tweets, Tweets, dates, i).value, env.parse);
         && g.Some? && w.Some? && w.value >= 0.0
         && HotStep(env, trend, tweets, dates, i) == Ok(Trunc(HotValue(env.sqrt, g.value, w.value).value))
    ensures HotStep(env, trend, tweets, dates, i) == Err(Fault(Trend, Misaligned)) <==>
      Aligned(trend, Trend, dates, i) == Err(Fault(Trend, Misaligned))
    ensures HotStep(env, trend, tweets, dates, i) == Err(Fault(Tweets, Misaligned)) <==>
      Aligned(trend, Trend, dates, i).Ok? && Aligned(tweets, Tweets, dates, i) == Err(Fault(Tweets, Misaligned))
    ensures HotStep(env, trend, tweets, dates, i) == Err(Fault(Tweets, MathDomain)) ==>
      && Aligned(tweets, Tweets, dates, i).Ok?
      && env.parse(Aligned(tweets, Tweets, dates, i).value).Some?
      && env.parse(Aligned(tweets, Tweets, dates, i).value).value < 0.0
  {
  }

  /** Turn `i` of the bubble-index loop: the difficulty, active-address and
      transaction entries, each checked against the price date, then their
      values (`null` counts as 0), then the price re-read from its
      two-decimal text, and the bubble index truncated toward zero. */
  function BubbleStep(env: Env, table: PriceColumns, hot: seq<int>,
    difficulty: seq<string>, sentaddr: seq<string>, transaction: seq<string>, i: nat): Result<int, Fault>
  {
    match Aligned(difficulty, Difficulty, table.date, i)
    case Err(f) => Err(f)
    case Ok(dText) =>
      match Aligned(sentaddr, Sentaddr, table.date, i)
      case Err(f) => Err(f)
      case Ok(sText) =>
        match Aligned(transaction, Transaction, table.date, i)
        case Err(f) => Err(f)
        case Ok(tText) =>
          match ValueOrZero(dText, env.parse)
          case None => Err(Fault(Difficulty, BadNumber))
          case Some(d) =>
            match ValueOrZero(sText, env.parse)
            case None => Err(Fault(Sentaddr, BadNumber))
            case Some(s) =>
              match ValueOrZero(tText, env.parse)
              case None => Err(Fault(Transaction, BadNumber))
              case Some(t) =>
                if i >= |table.price| || i >= |table.growth60| then Err(Fault(Price, Missing))
                else if i >= |hot| then Err(Fault(Trend, Missing))
                else
                  match env.parse(table.price[i])
                  case None => Err(Fault(Price, BadNumber))
                  case Some(p) =>
                    match BubbleIndex(p, table.growth60[i] as real, hot[i] as real, d, s, t)
                    case None => Err(Fault(Bubble, ZeroDivision))
                    case Some(b) => Ok(Trunc(b))
  }

  /** A bubble index exists only for a day on which all three activity
      series carry the price date, and it is the formula applied to their
      values; it divides by zero exactly when the activity adds up to 0. */
  lemma BubbleStepMeaning(env: Env, table: PriceColumns, hot: seq<int>,
    difficulty: seq<string>, sentaddr: seq<string>, transaction: seq<string>, i: nat)
    ensures BubbleStep(env, table, hot, difficulty, sentaddr, transaction, i).Ok? ==>
      && Aligned(difficulty, Difficulty, table.date, i).Ok?
      && Aligned(sentaddr, Sentaddr, table.date, i).Ok?
      && Aligned(transaction, Transaction, table.date, i).Ok?
      && i < |table.price| && i < |table.growth60| && i < |hot|
      && env.parse(table.price[i]).Some?
      && var d := ValueOrZero(Aligned(difficulty, Difficulty, table.date, i).value, env.parse);
         var s := ValueOrZero(Aligned(sentaddr, Sentaddr, table.date, i).value, env.parse);
         var t := ValueOrZero(Aligned(transaction, Transaction, table.date, i).value, env.parse);
         && d.Some? && s.Some? && t.Some?
         && Denominator(d.value, s.value, t.value) != 0.0
         && BubbleStep(env, table, hot, difficulty, sentaddr, transaction, i) == Ok(Trunc(BubbleIndex(
              env.parse(table.price[i]).value, table.growth60[i] as real, hot[i] as real,
              d.value, s.value, t.value).value))
  {
  }

  /** With the tweet count, the price, the growth and a positive network
      activity fixed, a higher trend index never lowers the bubble index of
      the day, through the hot value truncated as the hot loop stores it. */
  lemma HigherTrendNeverLowersBubble(sqrt: real -> real, a: real, b: real, tweets: real,
    price: real, growth: real, difficulty: real, sentaddr: real, transaction: real)
    requires a <= b && tweets >= 0.0
    requires Denominator(difficulty, sentaddr, transaction) > 0.0
    ensures BubbleIndex(price, growth, Trunc(HotValue(sqrt, a, tweets).value) as real,
                        difficulty, sentaddr, transaction).value
         <= BubbleIndex(price, growth, Trunc(HotValue(sqrt, b, tweets).value) as real,
                        difficulty, sentaddr, transaction).value
  {
    HotValueRisesWithTrend(sqrt, a, b, tweets);
    TruncMonotone(HotValue(sqrt, a, tweets).value, HotValue(sqrt, b, tweets).value);
    BubbleIndexMonotone(price, growth, Trunc(HotValue(sqrt, a, tweets).value) as real,
      price, growth, Trunc(HotValue(sqrt, b, tweets).value) as real,
      difficulty, sentaddr, transaction);
  }

  /** A day on which all three activity series are `null` stops the run with
      a division by zero. */
  lemma AllNullActivityDividesByZero(env: Env, table: PriceColumns, hot: seq<int>,
    difficulty: seq<string>, sentaddr: seq<string>, transaction: seq<string>, i: nat)
    requires Aligned(difficulty, Difficulty, table.date, i) == Ok("null")
    requires Aligned(sentaddr, Sentaddr, table.date, i) == Ok("null")
    requires Aligned(transaction, Transaction, table.date, i) == Ok("null")
    requires i < |table.price| && i < |table.growth60| && i < |hot| && env.parse(table.price[i]).Some?
    ensures BubbleStep(env, table, hot, difficulty, sentaddr, transaction, i) == Err(Fault(Bubble, ZeroDivision))
  {
  }

  /** Turns `0 .. at - 1` succeed and turn `at` raises `fault`. */
  predicate FirstFault(step: nat -> Result<int, Fault>, n: nat, f: Failure)
  {
    f.at < n && step(f.at) == Err(f.fault) && forall j :: 0 <= j < f.at ==> step(j).Ok?
  }

  /** A loop has one first faulty turn. */
  lemma FirstFaultUnique(step: nat -> Result<int, Fault>, n: nat, f: Failure, g: Failure)
    requires FirstFault(step, n, f) && FirstFault(step, n, g)
    ensures f == g
  {
  }

  /** `for i in range(n)`, appending the result of each turn, stopping at
      the first exception. */
  method Scan(n: nat, step: nat -> Result<int, Fault>) returns (r: Result<seq<int>, Failure>)
    ensures r.Ok? <==> forall i :: 0 <= i < n ==> step(i).Ok?
    ensures r.Ok? ==> |r.value| == n && forall i :: 0 <= i < n ==> r.value[i] == step(i).value
    ensures r.Err? ==> FirstFault(step, n, r.error)
  {
    var column := [];
    for i := 0 to n
      invariant |column| == i
      invariant forall j :: 0 <= j < i ==> step(j).Ok? && column[j] == step(j).value
    {
      var x := step(i);
      if x.Err? {
        return Err(Failure(i, x.error));
      }
      column := column + [x.value];
    }
    return Ok(column);
  }
}
