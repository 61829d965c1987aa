/** The 60-day growth column of `process_data`: each price's growth over the
    previous price goes into a first-in first-out window of at most 60
    growths, whose running total, times 100 and truncated toward zero, is the
    `growth_60_day` output. The previous price starts at 0.0 and is replaced
    by the current one whenever it is 0.0, so the first growth is 0 and a
    growth is divided by zero only when the price and the one it is compared
    with are both 0.0. Prices are exact reals here. */
module Growth {
  import opened Results

  /** The number of daily growths the window keeps. */
  const Capacity: nat := 60

  /** Sum of a sequence, added up from the front. */
  function Sum(s: seq<real>): real
  {
    if |s| == 0 then 0.0 else Sum(s[..|s| - 1]) + s[|s| - 1]
  }

  /** Taking off the first element takes it off the sum. */
  lemma {:induction false} SumFront(s: seq<real>)
    requires |s| > 0
    ensures Sum(s) == s[0] + Sum(s[1..])
    decreases |s|
  {
    if |s| > 1 {
      var init := s[..|s| - 1];
      SumFront(init);
      assert init[1..] == s[1..][..|s| - 2];
    } else {
      assert s[1..] == [];
    }
  }

  /** The price the i-th price is compared with: the one before it, unless
      that is 0.0 or there is none, in which case the price itself. */
  function LastPrice(prices: seq<real>, i: nat): real
    requires i < |prices|
  {
    if i == 0 || prices[i - 1] == 0.0 then prices[i] else prices[i - 1]
  }

  /** None of the first `n` growths divides by zero. */
  predicate Divisible(prices: seq<real>, n: nat)
    requires n <= |prices|
  {
    forall i :: 0 <= i < n ==> LastPrice(prices, i) != 0.0
  }

  /** `(price - last) / last`: the relative change from `last` to `price`. */
  function Change(price: real, last: real): real
    requires last != 0.0
  {
    (price - last) / last
  }

  /** The growth of the i-th price over the price it is compared with. */
  function DayGrowth(prices: seq<real>, i: nat): real
    requires i < |prices| && LastPrice(prices, i) != 0.0
  {
    Change(prices[i], LastPrice(prices, i))
  }

  /** The growths of the first `n` prices, oldest first. */
  function Growths(prices: seq<real>, n: nat): (r: seq<real>)
    requires n <= |prices| && Divisible(prices, n)
    ensures |r| == n
    ensures forall i :: 0 <= i < n ==> r[i] == DayGrowth(prices, i)
  {
    if n == 0 then [] else Growths(prices, n - 1) + [DayGrowth(prices, n - 1)]
  }

  /** Where the last `Capacity` of `n` growths begin. */
  function WindowStart(n: nat): nat
  {
    if n > Capacity then n - Capacity else 0
  }

  /** The growths held after `n` prices: the most recent ones, at most 60. */
  function Recent(prices: seq<real>, n: nat): seq<real>
    requires n <= |prices| && Divisible(prices, n)
  {
    Growths(prices, n)[WindowStart(n)..]
  }

  /** Python's `int()` on a float: truncation toward zero. */
  function Trunc(x: real): (r: int)
    ensures 0.0 <= x ==> r as real <= x < r as real + 1.0
    ensures x < 0.0 ==> r as real - 1.0 < x <= r as real
  {
    if x >= 0.0 then x.Floor else -((-x).Floor)
  }

  /** The `growth_60_day` output for price `i`: the window's total after it,
      in percent, truncated. */
  function Growth60(prices: seq<real>, i: nat): int
    requires i < |prices| && Divisible(prices, i + 1)
  {
    Trunc(Sum(Recent(prices, i + 1)) * 100.0)
  }

  /** The `growth_60_day` column after `n` prices. */
  function Growth60s(prices: seq<real>, n: nat): (g: seq<int>)
    requires n <= |prices| && Divisible(prices, n)
    ensures |g| == n
    ensures forall j :: 0 <= j < n ==> g[j] == Growth60(prices, j)
  {
    if n == 0 then [] else Growth60s(prices, n - 1) + [Growth60(prices, n - 1)]
  }

  /** The deque and the running total `accumulate_60`. */
  datatype Window = Window(queue: seq<real>, total: real)

  /** Adding a growth: the oldest one leaves first when 60 are held. */
  function Push(w: Window, g: real): Window
  {
    var kept := if |w.queue| >= Capacity then Window(w.queue[1..], w.total - w.queue[0]) else w;
    Window(kept.queue + [g], kept.total + g)
  }

  /** The running total is the total of the deque. */
  predicate Summed(w: Window)
  {
    w.total == Sum(w.queue)
  }

  /** Pushing keeps the running total equal to the total of the deque, and
      the deque at most 60 long. */
  lemma PushKeepsSum(w: Window, g: real)
    requires Summed(w) && |w.queue| <= Capacity
    ensures Summed(Push(w, g)) && |Push(w, g).queue| <= Capacity
  {
    var kept := if |w.queue| >= Capacity then w.queue[1..] else w.queue;
    if |w.queue| >= Capacity {
      SumFront(w.queue);
    }
    assert (kept + [g])[..|kept|] == kept;
  }

  /** Pushing the next growth onto the window of the first `n` prices gives
      the window of the first `n + 1`. */
  lemma PushRecent(prices: seq<real>, n: nat, total: real)
    requires n < |prices| && Divisible(prices, n + 1)
    ensures Push(Window(Recent(prices, n), total), DayGrowth(prices, n)).queue == Recent(prices, n + 1)
  {
    var before, after := Growths(prices, n), Growths(prices, n + 1);
    assert after == before + [DayGrowth(prices, n)];
    if n >= Capacity {
      assert before[WindowStart(n)..][1..] == before[WindowStart(n + 1)..];
    }
  }

  /** What `process_data` keeps between prices: the previous price and the
      window. */
  datatype Tracker = Tracker(last: real, window: Window)

  /** Before the first price. */
  const Start: Tracker := Tracker(0.0, Window([], 0.0))

  /** One turn of the price loop's growth part: reseed a zero previous price,
      fail on a division by zero, push the growth, remember the price, and
      output the total in percent. */
  function Advance(t: Tracker, price: real): Option<(Tracker, int)>
  {
    var last := if t.last == 0.0 then price else t.last;
    if last == 0.0 then None
    else
      var w := Push(t.window, Change(price, last));
      Some((Tracker(price, w), Trunc(w.total * 100.0)))
  }

  /** A turn that does not divide by zero outputs the pushed window's total
      in percent. */
  lemma AdvanceOutput(t: Tracker, price: real, last: real)
    requires last == (if t.last == 0.0 then price else t.last) && last != 0.0
    ensures Advance(t, price) == Some((Tracker(price, Push(t.window, Change(price, last))),
                                       Trunc(Push(t.window, Change(price, last)).total * 100.0)))
  {
  }

  /** The tracker after the first `n` prices, as the reference definitions
      describe it. */
  function Tracking(prices: seq<real>, n: nat): Tracker
    requires n <= |prices| && Divisible(prices, n)
  {
    Tracker(if n == 0 then 0.0 else prices[n - 1], Window(Recent(prices, n), Sum(Recent(prices, n))))
  }

  lemma TrackingStart(prices: seq<real>)
    ensures Tracking(prices, 0) == Start
  {
  }

  /** One turn takes the tracker of `n` prices to the tracker of `n + 1` and
      outputs the growth of price `n`; it fails exactly when price `n` would
      be divided by zero. */
  lemma AdvanceTracks(prices: seq<real>, n: nat)
    requires n < |prices| && Divisible(prices, n)
    ensures Advance(Tracking(prices, n), prices[n]).None? <==> LastPrice(prices, n) == 0.0
    ensures Advance(Tracking(prices, n), prices[n]).Some? ==>
      && Divisible(prices, n + 1)
      && Advance(Tracking(prices, n), prices[n]).value == (Tracking(prices, n + 1), Growth60(prices, n))
  {
    var t := Tracking(prices, n);
    var last := if t.last == 0.0 then prices[n] else t.last;
    assert last == LastPrice(prices, n);
    if last != 0.0 {
      assert Divisible(prices, n + 1);
      AdvanceGrows(prices, n, last);
    }
  }

  /** The turn of a price that does not divide by zero. */
  lemma AdvanceGrows(prices: seq<real>, n: nat, last: real)
    requires n < |prices| && Divisible(prices, n + 1)
    requires last == LastPrice(prices, n)
    requires last == (if Tracking(prices, n).last == 0.0 then prices[n] else Tracking(prices, n).last)
    ensures Advance(Tracking(prices, n), prices[n]) == Some((Tracking(prices, n + 1), Growth60(prices, n)))
  {
    var t, next := Tracking(prices, n), Tracking(prices, n + 1);
    PushTracked(prices, n);
    var w := Push(t.window, Change(prices[n], last));
    assert w == next.window;
    AdvanceOutput(t, prices[n], last);
    assert next == Tracker(prices[n], w);
    assert Growth60(prices, n) == Trunc(next.window.total * 100.0);
  }

  /** The tracked window keeps its total and holds at most 60 growths. */
  lemma TrackedWindow(prices: seq<real>, n: nat)
    requires n <= |prices| && Divisible(prices, n)
    ensures Summed(Tracking(prices, n).window) && |Tracking(prices, n).window.queue| <= Capacity
  {
  }

  /** Pushing the growth of price `n` onto the window of `n` prices gives the
      window of `n + 1`, total included. */
  lemma PushTracked(prices: seq<real>, n: nat)
    requires n < |prices| && Divisible(prices, n + 1)
    ensures Push(Tracking(prices, n).window, DayGrowth(prices, n)) == Tracking(prices, n + 1).window
  {
    var t := Tracking(prices, n);
    TrackedWindow(prices, n);
    PushRecent(prices, n, t.window.total);
    PushKeepsSum(t.window, DayGrowth(prices, n));
  }

  /** The growth of price `i` is decided by the prices up to `i`: cutting
      off the later ones does not change it. */
  lemma GrowthPrefix(prices: seq<real>, i: nat)
    requires i < |prices| && Divisible(prices, i + 1)
    ensures Divisible(prices[..i + 1], i + 1)
    ensures Growth60(prices[..i + 1], i) == Growth60(prices, i)
  {
    var cut := prices[..i + 1];
    forall j | 0 <= j < i + 1
      ensures LastPrice(cut, j) == LastPrice(prices, j)
    {
      assert cut[j] == prices[j];
      if j > 0 {
        assert cut[j - 1] == prices[j - 1];
      }
    }
    assert Growths(cut, i + 1) == Growths(prices, i + 1);
  }

  /** The window holds min(n, 60) growths, the newest last. */
  lemma RecentShape(prices: seq<real>, n: nat)
    requires 0 < n <= |prices| && Divisible(prices, n)
    ensures |Recent(prices, n)| == if n < Capacity then n else Capacity
    ensures Recent(prices, n)[|Recent(prices, n)| - 1] == DayGrowth(prices, n - 1)
  {
  }

  /** A division by zero happens exactly at a price of 0.0 that is the first
      price or follows another 0.0. */
  lemma ZeroDivisionCause(prices: seq<real>, i: nat)
    requires i < |prices|
    ensures LastPrice(prices, i) == 0.0 <==> prices[i] == 0.0 && (i == 0 || prices[i - 1] == 0.0)
  {
  }

  /** The first growth is 0: the first price is compared with itself. So is
      the growth right after a price of 0.0. */
  lemma ReseededGrowthIsZero(prices: seq<real>, i: nat)
    requires i < |prices| && prices[i] != 0.0
    requires i == 0 || prices[i - 1] == 0.0
    ensures LastPrice(prices, i) != 0.0 && DayGrowth(prices, i) == 0.0
  {
  }

  /** With every price positive nothing is divided by zero, and each growth
      after the first is the relative change from the day before. */
  lemma PositivePrices(prices: seq<real>)
    requires forall i :: 0 <= i < |prices| ==> prices[i] > 0.0
    ensures Divisible(prices, |prices|)
    ensures forall i :: 0 < i < |prices| ==>
      DayGrowth(prices, i) == (prices[i] - prices[i - 1]) / prices[i - 1]
  {
  }

  /** Prices 100, 110, 121, 90 grow by 0, 10%, 10% and -31/121. */
  lemma ExampleGrowths()
    ensures var prices := [100.0, 110.0, 121.0, 90.0];
      && Divisible(prices, 4)
      && Recent(prices, 1) == [0.0]
      && Recent(prices, 2) == [0.0, 0.1]
      && Recent(prices, 3) == [0.0, 0.1, 0.1]
      && Recent(prices, 4) == [0.0, 0.1, 0.1, -31.0 / 121.0]
  {
    var prices := [100.0, 110.0, 121.0, 90.0];
    assert LastPrice(prices, 0) == 100.0 && LastPrice(prices, 1) == 100.0;
    assert LastPrice(prices, 2) == 110.0 && LastPrice(prices, 3) == 121.0;
    assert Divisible(prices, 4);
    assert DayGrowth(prices, 0) == 0.0;
    assert DayGrowth(prices, 1) == 0.1 by {
      assert (110.0 - 100.0) / 100.0 == 0.1;
    }
    assert DayGrowth(prices, 2) == 0.1 by {
      assert (121.0 - 110.0) / 110.0 == 0.1;
    }
    assert DayGrowth(prices, 3) == -31.0 / 121.0 by {
      assert (90.0 - 121.0) / 121.0 == -31.0 / 121.0;
    }
    assert Growths(prices, 1) == [0.0];
    assert Growths(prices, 2) == [0.0, 0.1];
    assert Growths(prices, 3) == [0.0, 0.1, 0.1];
    assert Growths(prices, 4) == [0.0, 0.1, 0.1, -31.0 / 121.0];
  }

  /** So the outputs are 0, 10, 20 and -5: the last total, -680/121 percent,
      is truncated toward zero, not down to -6. */
  lemma GrowthExample()
    ensures var prices := [100.0, 110.0, 121.0, 90.0];
      && Divisible(prices, 4)
      && Growth60(prices, 0) == 0 && Growth60(prices, 1) == 10
      && Growth60(prices, 2) == 20 && Growth60(prices, 3) == -5
  {
    ExampleGrowths();
    var prices := [100.0, 110.0, 121.0, 90.0];
    SumExamples();
    assert Growth60(prices, 0) == Trunc(Sum([0.0]) * 100.0);
    assert Growth60(prices, 1) == Trunc(Sum([0.0, 0.1]) * 100.0);
    assert Growth60(prices, 2) == Trunc(Sum([0.0, 0.1, 0.1]) * 100.0);
    assert Growth60(prices, 3) == Trunc(Sum([0.0, 0.1, 0.1, -31.0 / 121.0]) * 100.0);
    TruncExamples();
  }

  lemma SumExamples()
    ensures Sum([0.0]) * 100.0 == 0.0
    ensures Sum([0.0, 0.1]) * 100.0 == 10.0
    ensures Sum([0.0, 0.1, 0.1]) * 100.0 == 20.0
    ensures Sum([0.0, 0.1, 0.1, -31.0 / 121.0]) * 100.0 == -680.0 / 121.0
  {
    assert [0.0, 0.1][..1] == [0.0];
    assert [0.0, 0.1, 0.1][..2] == [0.0, 0.1];
    assert [0.0, 0.1, 0.1, -31.0 / 121.0][..3] == [0.0, 0.1, 0.1];
  }

  /** Truncation toward zero never reverses the order of two values. */
  lemma TruncMonotone(x: real, y: real)
    requires x <= y
    ensures Trunc(x) <= Trunc(y)
  {
  }

  lemma TruncExamples()
    ensures Trunc(0.0) == 0 && Trunc(10.0) == 10 && Trunc(20.0) == 20
    ensures Trunc(-680.0 / 121.0) == -5
  {
  }
}
