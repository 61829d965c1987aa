/** `add_missing_data`: a synthetic series for a period that a feed does not
    cover. Starting from `start`, one entry per day up to, but not including,
    `end`; the value compounds by `scale` before each entry is written, so
    even the first entry is already grown once. */
module GapFill {
  import opened Results
  import opened Calendar
  import opened DateText

  /** `x` to the power `n`. */
  function Power(x: real, n: nat): real
  {
    if n == 0 then 1.0 else x * Power(x, n - 1)
  }

  /** The value written with entry `i`: `init` grown `i + 1` times by `scale`. */
  function GapValue(init: real, scale: real, i: nat): real
  {
    init * Power(1.0 + scale, i + 1)
  }

  /** The running value after `n` growths: `init`, then the values of the
      entries in turn. */
  function Grown(init: real, scale: real, n: nat): real
  {
    if n == 0 then init else GapValue(init, scale, n - 1)
  }

  /** How many days `end` lies after `start`, when both are dates and
      `end` is not earlier. */
  function DaysBetween(start: string, end: string): (r: Option<nat>)
    ensures r.Some? ==> ParseDate(start).Some? && ParseDate(end).Some?
    ensures r.Some? ==> Ordinal(ParseDate(end).value) == Ordinal(ParseDate(start).value) + r.value
  {
    match (ParseDate(start), ParseDate(end))
    case (Some(s), Some(e)) =>
      if Ordinal(e) >= Ordinal(s) then Some(Ordinal(e) - Ordinal(s)) else None
    case _ => None
  }

  /** The loop stops: `end` is reachable from `start` by whole days, and
      `strftime` can write the dates on the way. */
  predicate Fillable(start: string, end: string)
  {
    && DaysBetween(start, end).Some?
    && ParseDate(start).value.year >= StrftimeMinYear
  }

  /** Stepping `start` by the day distance to `end` lands on `end`'s text. */
  lemma LandsOnEnd(start: string, end: string)
    requires Fillable(start, end)
    ensures GetDay(start, DaysBetween(start, end).value) == Ok(end)
  {
    var s, e := ParseDate(start).value, ParseDate(end).value;
    var k := DaysBetween(start, end).value;
    OrdinalRange(e);
    YearsFollowOrdinals(s, e);
    var r := AddDays(s, k);
    OrdinalInjective(r.value, e);
    FormatParse(end);
  }

  /** What one call `get_day(start, index)` of the loop can do: fail on
      unparsable text at once, fail on `strftime` only at the first step,
      succeed only inside `datetime`'s range, and overflow only outside it. */
  lemma StepOutcome(start: string, index: nat)
    ensures GetDay(start, index) == Err(Unparsable) <==> ParseDate(start).None?
    ensures GetDay(start, index).Ok? ==>
      ParseDate(start).Some? && Ordinal(ParseDate(start).value) + index <= MaxOrdinal
    ensures GetDay(start, index) == Err(OutOfRange) ==>
      ParseDate(start).Some? && Ordinal(ParseDate(start).value) + index > MaxOrdinal
    ensures ParseDate(start).Some? && ParseDate(start).value.year >= StrftimeMinYear ==>
      GetDay(start, index) != Err(Before1900)
    ensures index == 0 && ParseDate(start).Some? ==>
      (GetDay(start, index).Ok? <==> ParseDate(start).value.year >= StrftimeMinYear)
  {
    if ParseDate(start).Some? {
      var s := ParseDate(start).value;
      OrdinalRange(s);
      if AddDays(s, index).Some? {
        YearsFollowOrdinals(s, AddDays(s, index).value);
      }
      if index == 0 {
        AddZeroDays(s);
      }
    }
  }

  /** A date text reached from `start` in `index` steps is `index` days
      after it. */
  lemma ReachedDistance(start: string, end: string, index: nat)
    requires GetDay(start, index) == Ok(end)
    ensures DaysBetween(start, end) == Some(index)
  {
    var s := ParseDate(start).value;
    var e := AddDays(s, index).value;
    assert end == FormatDate(e);
    ParseFormat(e);
    assert ParseDate(end) == Some(e);
    assert Ordinal(e) == Ordinal(s) + index;
  }

  /** The loop stops on a date whose text is `end`: then `end` is that many
      days after `start`. */
  lemma StopsAtEnd(start: string, end: string, index: nat)
    requires GetDay(start, index) == Ok(end)
    requires ParseDate(start).value.year >= StrftimeMinYear
    ensures Fillable(start, end) && DaysBetween(start, end) == Some(index)
  {
    ReachedDistance(start, end, index);
  }

  /** Fewer steps than a successful number of steps succeed too, once the
      start year is one `strftime` can write. */
  lemma StepsBefore(start: string, k: nat, i: nat)
    requires GetDay(start, k).Ok? && i <= k
    requires ParseDate(start).value.year >= StrftimeMinYear
    ensures GetDay(start, i).Ok?
  {
    var s := ParseDate(start).value;
    OrdinalRange(s);
    YearsFollowOrdinals(s, AddDays(s, i).value);
  }

  /** `days` are the texts of the first `|days|` steps from `start`, none of
      them `end`. */
  predicate Visited(start: string, end: string, days: seq<string>)
  {
    forall i :: 0 <= i < |days| ==> GetDay(start, i) == Ok(days[i]) && days[i] != end
  }

  /** Appending keeps a pointwise property of a sequence of step results. */
  lemma StepsAppend(steps: nat -> Result<string, DateError>, end: string, days: seq<string>, day: string)
    requires forall i :: 0 <= i < |days| ==> steps(i) == Ok(days[i]) && days[i] != end
    requires steps(|days|) == Ok(day) && day != end
    ensures forall i :: 0 <= i < |days| + 1 ==> steps(i) == Ok((days + [day])[i]) && (days + [day])[i] != end
  {
    var longer := days + [day];
    forall i | 0 <= i < |longer|
      ensures steps(i) == Ok(longer[i]) && longer[i] != end
    {
      if i < |days| {
        assert longer[i] == days[i];
      }
    }
  }

  /** One more step that is not `end` extends the visited dates. */
  lemma VisitedAppend(start: string, end: string, days: seq<string>, day: string)
    requires Visited(start, end, days)
    requires GetDay(start, |days|) == Ok(day) && day != end
    ensures Visited(start, end, days + [day])
  {
    StepsAppend(i => GetDay(start, i), end, days, day);
  }

  /** `value += value * scale`: growing once more by `scale` reaches the
      next power. */
  method Grow(value: real, scale: real, ghost init: real, ghost n: nat) returns (grown: real)
    requires value == Grown(init, scale, n)
    ensures grown == GapValue(init, scale, n)
    ensures grown == Grown(init, scale, n + 1)
  {
    var p := Power(1.0 + scale, n);
    assert value == init * p;
    assert Power(1.0 + scale, n + 1) == (1.0 + scale) * p;
    grown := value + value * scale;
    assert grown == init * ((1.0 + scale) * p);
  }

  /** One entry of the series: the date text, a colon, the value as text. */
  function Line(date: string, value: real, show: real -> string): string
  {
    date + ":" + show(value)
  }

  /** A turn of the loop that raises: the period was not fillable, and the
      exception says why. */
  lemma TurnFails(start: string, end: string, index: nat)
    requires GetDay(start, index).Err?
    requires index > 0 ==> ParseDate(start).Some? && ParseDate(start).value.year >= StrftimeMinYear
    requires Fillable(start, end) ==> index <= DaysBetween(start, end).value
    ensures !Fillable(start, end)
    ensures GetDay(start, index).error == Unparsable <==> ParseDate(start).None?
    ensures GetDay(start, index).error == Before1900 <==>
      ParseDate(start).Some? && ParseDate(start).value.year < StrftimeMinYear
  {
    StepOutcome(start, index);
    if Fillable(start, end) {
      OrdinalRange(ParseDate(end).value);
    }
  }

  /** A turn of the loop that reaches a date other than `end`: the next
      index still lies within the period, and within `datetime`'s range. */
  lemma TurnContinues(start: string, end: string, index: nat)
    requires GetDay(start, index).Ok? && GetDay(start, index).value != end
    requires index > 0 ==> ParseDate(start).Some? && ParseDate(start).value.year >= StrftimeMinYear
    requires Fillable(start, end) ==> index <= DaysBetween(start, end).value
    ensures ParseDate(start).Some? && ParseDate(start).value.year >= StrftimeMinYear
    ensures Ordinal(ParseDate(start).value) + index <= MaxOrdinal
    ensures Fillable(start, end) ==> index < DaysBetween(start, end).value
  {
    StepOutcome(start, index);
    if Fillable(start, end) {
      LandsOnEnd(start, end);
    }
  }

  /** The dates `add_missing_data` visits, one `get_day(start, index)` per
      turn of its loop, until the date text equals `end`. */
  method GapDays(start: string, end: string) returns (r: Result<seq<string>, DateError>)
    ensures r.Ok? <==> Fillable(start, end)
    ensures r == Err(Unparsable) <==> ParseDate(start).None?
    ensures r == Err(Before1900) <==>
      ParseDate(start).Some? && ParseDate(start).value.year < StrftimeMinYear
    ensures r.Ok? ==> |r.value| == DaysBetween(start, end).value
    ensures r.Ok? ==> Visited(start, end, r.value)
  {
    if Fillable(start, end) {
      OrdinalRange(ParseDate(end).value);
    }
    ghost var base := if ParseDate(start).Some? then Ordinal(ParseDate(start).value) else 0;
    var days: seq<string> := [];
    var index: nat := 0;
    while true
      invariant |days| == index
      invariant Visited(start, end, days)
      invariant index > 0 ==>
        && ParseDate(start).Some?
        && ParseDate(start).value.year >= StrftimeMinYear
        && base + index <= MaxOrdinal + 1
      invariant Fillable(start, end) ==> index <= DaysBetween(start, end).value
      invariant Fillable(start, end) ==> Ordinal(ParseDate(end).value) <= MaxOrdinal
      decreases MaxOrdinal + 1 - base - index
    {
      var day := GetDay(start, index);
      if day.Err? {
        TurnFails(start, end, index);
        return Err(day.error);
      }
      if day.value == end {
        StepOutcome(start, index);
        StopsAtEnd(start, end, index);
        break;
      }
      TurnContinues(start, end, index);
      VisitedAppend(start, end, days, day.value);
      days := days + [day.value];
      index := index + 1;
    }
    return Ok(days);
  }

  /** The second pass of `add_missing_data`: each date with the value
      grown once more than the one before it. */
  method CompoundLines(days: seq<string>, init: real, scale: real, show: real -> string)
    returns (entries: seq<string>)
    ensures |entries| == |days|
    ensures forall i :: 0 <= i < |days| ==> entries[i] == Line(days[i], GapValue(init, scale, i), show)
  {
    entries := [];
    var value := init;
    while |entries| < |days|
      invariant |entries| <= |days|
      invariant value == Grown(init, scale, |entries|)
      invariant forall i :: 0 <= i < |entries| ==>
        entries[i] == Line(days[i], GapValue(init, scale, i), show)
    {
      value := Grow(value, scale, init, |entries|);
      ghost var previous := entries;
      entries := entries + [Line(days[|entries|], value, show)];
      forall i | 0 <= i < |entries|
        ensures entries[i] == Line(days[i], GapValue(init, scale, i), show)
      {
        if i < |previous| {
          assert entries[i] == previous[i];
        }
      }
    }
  }

  /** `add_missing_data(start, end, init, scale)`; `show` is Python's `str`
      on floats. The dates are stepped through first and the values
      compounded over them after; as every exception comes from `get_day`,
      and comes before anything is returned, the outcome is the same. */
  method AddMissingData(start: string, end: string, init: real, scale: real, show: real -> string)
    returns (r: Result<seq<string>, DateError>)
    ensures r.Ok? <==> Fillable(start, end)
    ensures r == Err(Unparsable) <==> ParseDate(start).None?
    ensures r == Err(Before1900) <==>
      ParseDate(start).Some? && ParseDate(start).value.year < StrftimeMinYear
    ensures r.Ok? ==> |r.value| == DaysBetween(start, end).value
    ensures r.Ok? ==> forall i :: 0 <= i < |r.value| ==>
      && GetDay(start, i).Ok?
      && GetDay(start, i).value != end
      && r.value[i] == Line(GetDay(start, i).value, GapValue(init, scale, i), show)
  {
    var days := GapDays(start, end);
    if days.Err? {
      return Err(days.error);
    }
    var entries := CompoundLines(days.value, init, scale, show);
    return Ok(entries);
  }
}
