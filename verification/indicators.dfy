/** The two indicator formulas of `process_data` and its treatment of
    missing values, over exact reals. The square root is a parameter, and
    Python's exceptions become `None`: `math.sqrt` of a negative number is a
    domain error, and a zero denominator in the bubble index is a division
    by zero. */
module Indicators {
  import opened Results

  /** `math.pi`: the double nearest to pi, written out exactly. */
  const Pi: real := 3.141592653589793115997963468544185161590576171875

  /** Weight of the Google Trends index in the hot value. */
  const TrendWeight: real := 6.27

  /** Difficulty is counted in units of ten million in the denominator. */
  const DifficultyUnit: real := 10000000.0

  /** `0.0 if text == 'null' else float(text)`: a missing sample counts as 0;
      `parse` is `float()`, `None` where it raises. */
  function ValueOrZero(text: string, parse: string -> Option<real>): (r: Option<real>)
    ensures text == "null" ==> r == Some(0.0)
    ensures text != "null" ==> r == parse(text)
  {
    if text == "null" then Some(0.0) else parse(text)
  }

  /** `get_hot_value`: square root of the tweet count plus the weighted
      trend index; `None` for a negative tweet count. */
  function HotValue(sqrt: real -> real, trend: real, tweets: real): (r: Option<real>)
    ensures r.None? <==> tweets < 0.0
    ensures r.Some? ==> r.value - trend * TrendWeight == sqrt(tweets)
  {
    if tweets < 0.0 then None else Some(sqrt(tweets) + trend * TrendWeight)
  }

  /** The denominator of the price term of the bubble index. */
  function Denominator(difficulty: real, sentaddr: real, transaction: real): real
  {
    sentaddr + difficulty / DifficultyUnit + transaction
  }

  /** `get_bubble_index`: the price over the network activity, scaled by
      5000, plus a tenth of the momentum term, minus 30; `None` when the
      denominator is 0. */
  function BubbleIndex(price: real, growth: real, hot: real, difficulty: real, sentaddr: real, transaction: real)
    : (r: Option<real>)
    ensures r.None? <==> Denominator(difficulty, sentaddr, transaction) == 0.0
  {
    var d := Denominator(difficulty, sentaddr, transaction);
    if d == 0.0 then None
    else Some(5000.0 * price / d + (growth * Pi + hot / Pi) / 10.0 - 30.0)
  }

  /** With the tweet count fixed, a higher trend index gives a higher hot
      value. */
  lemma HotValueRisesWithTrend(sqrt: real -> real, a: real, b: real, tweets: real)
    requires a <= b && tweets >= 0.0
    ensures HotValue(sqrt, a, tweets).value <= HotValue(sqrt, b, tweets).value
  {
  }

  /** With network activity fixed and positive, the bubble index rises with
      the price, the growth and the hot value. */
  lemma BubbleIndexMonotone(
    p1: real, g1: real, h1: real, p2: real, g2: real, h2: real,
    difficulty: real, sentaddr: real, transaction: real)
    requires Denominator(difficulty, sentaddr, transaction) > 0.0
    requires p1 <= p2 && g1 <= g2 && h1 <= h2
    ensures BubbleIndex(p1, g1, h1, difficulty, sentaddr, transaction).value
         <= BubbleIndex(p2, g2, h2, difficulty, sentaddr, transaction).value
  {
    var d := Denominator(difficulty, sentaddr, transaction);
    assert 5000.0 * p1 / d <= 5000.0 * p2 / d by {
      assert 5000.0 * p2 / d - 5000.0 * p1 / d == 5000.0 * (p2 - p1) / d;
    }
    assert g1 * Pi <= g2 * Pi;
    assert h1 / Pi <= h2 / Pi;
  }

  /** Missing samples of all three network series make the denominator 0,
      whatever the price, growth and hot value. */
  lemma AllMissingDividesByZero(parse: string -> Option<real>, price: real, growth: real, hot: real)
    ensures ValueOrZero("null", parse) == Some(0.0)
    ensures BubbleIndex(price, growth, hot, 0.0, 0.0, 0.0).None?
  {
  }
}
