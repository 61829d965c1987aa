/** `process_data`: the six scraped series are read, the tweets series is
    prefixed with a synthetic stretch for the days it does not cover, and
    three loops build the five columns of the document written to
    `data.json`. The run either yields that document or stops at the first
    exception, which the model reports with the series, the kind and the
    loop index. */
module Pipeline {
  import opened Results
  import opened Text
  import opened Calendar
  import opened DateText
  import opened DataFile
  import opened GapFill
  import opened Growth
  import opened Columns

  /** The texts of the six data files. */
  datatype Feeds = Feeds(
    price: string, difficulty: string, trend: string,
    sentaddr: string, transaction: string, tweets: string)

  /** The five columns of the JSON document. */
  datatype Document = Document(
    date: seq<string>, price: seq<string>, growth60: seq<int>, hot: seq<int>, bubble: seq<int>)

  /** The entries `read_datafile` makes of a data file's text. */
  function Read(text: string): seq<string>
  {
    Pairs(Split(text, ','))
  }

  /** The synthetic tweets stretch: from 2010/07/17 up to 2014/04/09, the
      day the tweets file starts, 300 tweets growing 0.2% a day. */
  const GapStart: string := "2010/07/17"
  const GapEnd: string := "2014/04/09"
  const GapInit: real := 300.0
  const GapScale: real := 0.002

  /** The number of days from 2010/07/17 to 2014/04/09. */
  const GapLength: nat := 1362

  /** The stretch can be filled, and it is 1362 days long. */
  lemma TweetsGap()
    ensures ParseDate(GapStart) == Some(Date(2010, 7, 17))
    ensures Fillable(GapStart, GapEnd) && DaysBetween(GapStart, GapEnd) == Some(GapLength)
  {
    ParseFormat(Date(2010, 7, 17));
    ParseFormat(Date(2014, 4, 9));
    assert FormatDate(Date(2010, 7, 17)) == GapStart;
    assert FormatDate(Date(2014, 4, 9)) == GapEnd;
  }

  /** Every day of the stretch has a date text. */
  lemma GapDaysExist(i: nat)
    requires i < GapLength
    ensures GetDay(GapStart, i).Ok?
  {
    TweetsGap();
    LandsOnEnd(GapStart, GapEnd);
    StepsBefore(GapStart, GapLength, i);
  }

  /** The date text of day `i` of the stretch. */
  function GapDay(i: nat): string
    requires i < GapLength
  {
    GapDaysExist(i);
    GetDay(GapStart, i).value
  }

  /** The synthetic stretch: one entry per day, the count grown once more
      on each day. */
  function GapLines(show: real -> string): (g: seq<string>)
    ensures |g| == GapLength
  {
    seq(GapLength, i requires 0 <= i < GapLength => Line(GapDay(i), GapValue(GapInit, GapScale, i), show))
  }

  /** The tweets series the hot-value loop reads: the stretch, then the
      file. */
  function TweetSeries(env: Env, feeds: Feeds): seq<string>
  {
    GapLines(env.show) + Read(feeds.tweets)
  }

  /** The price entries, read. */
  function PriceRows(env: Env, feeds: Feeds): seq<Result<PriceRow, Kind>>
  {
    Rows(env, Read(feeds.price))
  }

  /** The turns of the hot-value loop, against the price dates. */
  function HotSteps(env: Env, feeds: Feeds, dates: seq<string>): nat -> Result<int, Fault>
  {
    (i: nat) => HotStep(env, Read(feeds.trend), TweetSeries(env, feeds), dates, i)
  }

  /** The turns of the bubble-index loop, against the price columns and the
      hot column. */
  function BubbleSteps(env: Env, feeds: Feeds, table: PriceColumns, hot: seq<int>): nat -> Result<int, Fault>
  {
    (i: nat) => BubbleStep(env, table, hot, Read(feeds.difficulty), Read(feeds.sentaddr), Read(feeds.transaction), i)
  }

  predicate AllOk(step: nat -> Result<int, Fault>, n: nat)
  {
    forall i :: 0 <= i < n ==> step(i).Ok?
  }

  /** The column a loop of `n` successful turns appends. */
  function Column(step: nat -> Result<int, Fault>, n: nat): (c: seq<int>)
    requires AllOk(step, n)
    ensures |c| == n
  {
    seq(n, i requires 0 <= i < n => step(i).value)
  }

  /** The whole run raises nothing: the price loop, the hot-value loop, the
      assert that there are as many hot values as prices, and the
      bubble-index loop. */
  predicate Succeeds(env: Env, feeds: Feeds)
  {
    var rows := PriceRows(env, feeds);
    && PricesRun(rows, |rows|)
    && var table := PriceTable(env, rows, |rows|);
       var hot := HotSteps(env, feeds, table.date);
       var n := |Read(feeds.trend)|;
       && AllOk(hot, n)
       && n == |rows|
       && AllOk(BubbleSteps(env, feeds, table, Column(hot, n)), |rows|)
  }

  /** The document a successful run writes. Both length asserts of
      `process_data` hold: all five columns, and the trend series, are as
      long as the price series. */
  function Output(env: Env, feeds: Feeds): (out: Document)
    requires Succeeds(env, feeds)
    ensures var n := |Read(feeds.price)|;
      && |Read(feeds.trend)| == n
      && |out.date| == n && |out.price| == n && |out.growth60| == n
      && |out.hot| == n && |out.bubble| == n
  {
    var rows := PriceRows(env, feeds);
    var table := PriceTable(env, rows, |rows|);
    var hot := Column(HotSteps(env, feeds, table.date), |rows|);
    Document(table.date, table.price, table.growth60, hot, Column(BubbleSteps(env, feeds, table, hot), |rows|))
  }

  /** The exception a failing run stops with: the first faulty turn of the
      first loop that has one, or the length assert between the second and
      the third loop. */
  predicate Fails(env: Env, feeds: Feeds, f: Failure)
  {
    var rows := PriceRows(env, feeds);
    if !PricesRun(rows, |rows|) then
      && f.at < |rows| && PricesRun(rows, f.at)
      && f.fault.series == Price && PriceFault(rows, f.at) == Some(f.fault.kind)
    else
      var table := PriceTable(env, rows, |rows|);
      var hot := HotSteps(env, feeds, table.date);
      var n := |Read(feeds.trend)|;
      if !AllOk(hot, n) then FirstFault(hot, n, f)
      else if n != |rows| then f == Failure(n, Fault(Trend, LengthMismatch))
      else FirstFault(BubbleSteps(env, feeds, table, Column(hot, n)), |rows|, f)
  }

  /** The reading part of `process_data`: the six series, the tweets one
      after the synthetic stretch. */
  method ReadFeeds(env: Env, feeds: Feeds)
    returns (price: seq<string>, difficulty: seq<string>, trend: seq<string>,
             sentaddr: seq<string>, transaction: seq<string>, tweets: seq<string>)
    ensures price == Read(feeds.price) && difficulty == Read(feeds.difficulty)
    ensures trend == Read(feeds.trend) && sentaddr == Read(feeds.sentaddr)
    ensures transaction == Read(feeds.transaction)
    ensures tweets == TweetSeries(env, feeds)
  {
    price := ReadDatafile(feeds.price);
    difficulty := ReadDatafile(feeds.difficulty);
    trend := ReadDatafile(feeds.trend);
    sentaddr := ReadDatafile(feeds.sentaddr);
    transaction := ReadDatafile(feeds.transaction);
    var gap := AddMissingData(GapStart, GapEnd, GapInit, GapScale, env.show);
    TweetsGap();
    GapMatches(env.show, gap.value);
    var file := ReadDatafile(feeds.tweets);
    tweets := gap.value + file;
  }

  /** `process_data` on the texts of the six files. */
  method ProcessData(env: Env, feeds: Feeds) returns (r: Result<Document, Failure>)
    ensures r.Ok? <==> Succeeds(env, feeds)
    ensures r.Ok? ==> r.value == Output(env, feeds)
    ensures r.Err? ==> Fails(env, feeds, r.error)
  {
    var price, difficulty, trend, sentaddr, transaction, tweets := ReadFeeds(env, feeds);
    var table := ReadPrices(env, Rows(env, price));
    if table.Err? {
      return Err(table.error);
    }
    var dates := table.value.date;
    var hotStep := (i: nat) => HotStep(env, trend, tweets, dates, i);
    var hot := Scan(|trend|, hotStep);
    SameTurns(hotStep, HotSteps(env, feeds, dates), |trend|, if hot.Err? then hot.error else Failure(0, Fault(Trend, Missing)));
    if hot.Err? {
      return Err(hot.error);
    }
    ColumnOf(hotStep, |trend|, hot.value);
    if |hot.value| != |table.value.price| {
      return Err(Failure(|trend|, Fault(Trend, LengthMismatch)));
    }
    var bubbleStep := (i: nat) => BubbleStep(env, table.value, hot.value, difficulty, sentaddr, transaction, i);
    var bubble := Scan(|price|, bubbleStep);
    SameTurns(bubbleStep, BubbleSteps(env, feeds, table.value, hot.value), |price|,
      if bubble.Err? then bubble.error else Failure(0, Fault(Bubble, Missing)));
    if bubble.Err? {
      return Err(bubble.error);
    }
    ColumnOf(bubbleStep, |price|, bubble.value);
    return Ok(Document(table.value.date, table.value.price, table.value.growth60, hot.value, bubble.value));
  }

  /** What `add_missing_data` returns for the tweets stretch is the
      stretch. */
  lemma GapMatches(show: real -> string, gap: seq<string>)
    requires |gap| == GapLength
    requires forall i :: 0 <= i < |gap| ==>
      GetDay(GapStart, i).Ok? && gap[i] == Line(GetDay(GapStart, i).value, GapValue(GapInit, GapScale, i), show)
    ensures gap == GapLines(show)
  {
  }

  /** Two loops whose turns agree succeed, fail and fill their columns
      alike. */
  lemma SameTurns(a: nat -> Result<int, Fault>, b: nat -> Result<int, Fault>, n: nat, f: Failure)
    requires forall i :: a(i) == b(i)
    ensures AllOk(a, n) <==> AllOk(b, n)
    ensures FirstFault(a, n, f) <==> FirstFault(b, n, f)
    ensures AllOk(a, n) ==> Column(a, n) == Column(b, n)
  {
  }

  /** A failing run stops with one exception only. */
  lemma FailsUnique(env: Env, feeds: Feeds, f: Failure, g: Failure)
    requires Fails(env, feeds, f) && Fails(env, feeds, g)
    ensures f == g
  {
    var rows := PriceRows(env, feeds);
    if !PricesRun(rows, |rows|) {
      if f.at < g.at {
        FaultStopsRun(rows, f.at, g.at);
        assert false;
      }
      if g.at < f.at {
        FaultStopsRun(rows, g.at, f.at);
        assert false;
      }
    } else {
      var table := PriceTable(env, rows, |rows|);
      var hot := HotSteps(env, feeds, table.date);
      var n := |Read(feeds.trend)|;
      if !AllOk(hot, n) {
        FirstFaultUnique(hot, n, f, g);
      } else if n == |rows| {
        FirstFaultUnique(BubbleSteps(env, feeds, table, Column(hot, n)), |rows|, f, g);
      }
    }
  }

  /** Row `i` of a successful run's document comes from price entry `i`:
      its date is the entry's key, its price the entry's value to two
      decimals, and its growth the 60-day growth at that price. */
  lemma OutputPrices(env: Env, feeds: Feeds, i: nat)
    requires Succeeds(env, feeds) && i < |Read(feeds.price)|
    ensures var out, entry := Output(env, feeds), Read(feeds.price)[i];
      && Fields(entry).Some? && Fields(entry).value.0 == out.date[i]
      && env.parse(Fields(entry).value.1) == Some(PriceSeries(PriceRows(env, feeds))[i])
      && out.price[i] == env.fixed2(PriceSeries(PriceRows(env, feeds))[i])
      && out.growth60[i] == Growth60(PriceSeries(PriceRows(env, feeds)), i)
  {
    var rows := PriceRows(env, feeds);
    var entry := Read(feeds.price)[i];
    assert rows[i] == ReadRow(env, entry) && rows[i].Ok?;
    assert Fields(entry).value.0 == rows[i].value.date;
  }

  /** On a successful run, entry `i` of each of the other five series is
      dated with the price date `i`. */
  lemma OutputAligned(env: Env, feeds: Feeds, i: nat)
    requires Succeeds(env, feeds) && i < |Read(feeds.price)|
    ensures i < |Read(feeds.trend)| && i < |TweetSeries(env, feeds)|
    ensures i < |Read(feeds.difficulty)| && i < |Read(feeds.sentaddr)| && i < |Read(feeds.transaction)|
    ensures var date := Output(env, feeds).date[i];
      && Fields(Read(feeds.trend)[i]).Some? && Fields(Read(feeds.trend)[i]).value.0 == date
      && Fields(TweetSeries(env, feeds)[i]).Some? && Fields(TweetSeries(env, feeds)[i]).value.0 == date
      && Fields(Read(feeds.difficulty)[i]).Some? && Fields(Read(feeds.difficulty)[i]).value.0 == date
      && Fields(Read(feeds.sentaddr)[i]).Some? && Fields(Read(feeds.sentaddr)[i]).value.0 == date
      && Fields(Read(feeds.transaction)[i]).Some? && Fields(Read(feeds.transaction)[i]).value.0 == date
  {
    var rows := PriceRows(env, feeds);
    var table := PriceTable(env, rows, |rows|);
    var hot := HotSteps(env, feeds, table.date);
    assert hot(i).Ok?;
    HotStepMeaning(env, Read(feeds.trend), TweetSeries(env, feeds), table.date, i);
    var column := Column(hot, |rows|);
    assert BubbleSteps(env, feeds, table, column)(i).Ok?;
    BubbleStepMeaning(env, table, column, Read(feeds.difficulty), Read(feeds.sentaddr), Read(feeds.transaction), i);
  }

  /** The synthetic stretch's dates hold no colon. */
  lemma GapDayText(i: nat)
    requires i < GapLength
    ensures ':' !in GapDay(i)
    ensures i == 0 ==> GapDay(i) == GapStart
  {
    TweetsGap();
    GapDaysExist(i);
    var s := ParseDate(GapStart).value;
    assert AddDays(s, i).Some? && GapDay(i) == FormatDate(AddDays(s, i).value);
    FormatNoColon(AddDays(s, i).value);
    if i == 0 {
      GetDayZero(GapStart);
    }
  }

  /** Entry `i` of the tweets series, inside the stretch, is day `i` of
      the stretch with its grown count. */
  lemma TweetLine(env: Env, feeds: Feeds, i: nat)
    requires i < GapLength
    ensures TweetSeries(env, feeds)[i] == GapDay(i) + ":" + env.show(GapValue(GapInit, GapScale, i))
  {
    assert TweetSeries(env, feeds)[i] == GapLines(env.show)[i];
  }

  /** Because the tweets series starts with the stretch, a successful run
      needs price dates that follow it day by day from 2010/07/17. */
  lemma StartsOnGap(env: Env, feeds: Feeds, i: nat)
    requires Succeeds(env, feeds) && i < |Read(feeds.price)| && i < GapLength
    ensures Output(env, feeds).date[i] == GapDay(i)
    ensures i == 0 ==> Output(env, feeds).date[0] == GapStart
  {
    OutputAligned(env, feeds, i);
    GapDayText(i);
    TweetLine(env, feeds, i);
    KeyBeforeColon(GapDay(i), env.show(GapValue(GapInit, GapScale, i)));
  }

  /** A column built turn by turn is the column of the turns. */
  lemma ColumnOf(step: nat -> Result<int, Fault>, n: nat, c: seq<int>)
    requires |c| == n && forall i :: 0 <= i < n ==> step(i).Ok? && c[i] == step(i).value
    ensures AllOk(step, n) && c == Column(step, n)
  {
  }
}
