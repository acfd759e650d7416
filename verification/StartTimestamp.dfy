/** Start of the partition a timestamp falls into; all times in whole seconds since the epoch. */
module StartTimestamp {
  import opened Arith

  const DAY := 86400
  const WEEK := 604800

  /** The first second after the last day that the calendar library knows, in the year 262142. */
  const CALENDAR_END := 8_210_266_876_800

  /** `Panic` stands for the arithmetic and conversion failures that abort the process. */
  datatype Start = At(ts: nat) | Panic

  function DayStart(time: nat): nat {
    time / DAY * DAY
  }

  /** Days since Monday; 1970-01-01 was a Thursday. */
  function Weekday(time: nat): nat {
    (time / DAY + 3) % 7
  }

  /** Where the search starts: midnight, or, for periods longer than a day, midnight of this week's Tuesday. */
  function Anchor(period: nat, time: nat): int {
    if period <= DAY then DayStart(time) else DayStart(time) - (Weekday(time) - 1) * DAY
  }

  /** `start` is the last point of the grid anchor + k * period that is not after `time`. */
  ghost predicate OnGrid(anchor: int, period: nat, time: int, start: int) {
    && start <= time < start + period
    && exists k: nat :: start == anchor + k * period
  }

  /** That grid point, by division. */
  function GridStart(anchor: int, period: nat, time: int): int
    requires period > 0
  {
    anchor + (time - anchor) / period * period
  }

  lemma GridStartOnGrid(anchor: int, period: nat, time: int)
    requires period > 0 && anchor <= time
    ensures OnGrid(anchor, period, time, GridStart(anchor, period, time))
  {
    var k := (time - anchor) / period;
    assert time - anchor == period * k + (time - anchor) % period;
    assert k >= 0 by {
      if k < 0 {
        MulAtLeast(period, k);
      }
    }
  }

  /** The `while` search; it ends because every step stays at or before `time`. */
  method Search(anchor: int, period: nat, time: int) returns (start: int)
    requires period > 0 && anchor <= time
    ensures OnGrid(anchor, period, time, start) && start == GridStart(anchor, period, time)
  {
    start := anchor;
    ghost var k: nat := 0;
    while !(start <= time < start + period)
      invariant start <= time && start == anchor + k * period
      decreases time - start
    {
      start := start + period;
      k := k + 1;
    }
    GridStartOnGrid(anchor, period, time);
    GridPointUnique(anchor, period, time, start, GridStart(anchor, period, time));
  }

  lemma GridPointUnique(anchor: int, period: nat, time: int, s: int, s': int)
    requires period > 0 && OnGrid(anchor, period, time, s) && OnGrid(anchor, period, time, s')
    ensures s == s'
  {
    var k: nat :| s == anchor + k * period;
    var k': nat :| s' == anchor + k' * period;
    assert s - s' == (k - k') * period;
    MulAtLeast(period, k - k');
    assert period * (k - k') == (k - k') * period;
  }

  lemma AnchorAfterFirstWeek(period: nat, time: nat)
    requires period <= DAY || Weekday(time) != 0
    ensures Anchor(period, time) <= time
    ensures 4 * DAY <= time ==> Anchor(period, time) >= 0
  {
  }

  /**
   Start of the partition for a time, as `get_start_timestamp_by_timestamp` rounds it. The process
   is aborted by a time or a partition end beyond the calendar, by a period of more than a week,
   on Mondays for periods of more than a day, and by a start before the epoch.
   */
  function StartOf(period: nat, time: nat): Start
    requires period > 0
  {
    if time >= CALENDAR_END || period > WEEK || (period > DAY && Weekday(time) == 0) then Panic
    else
      var s := GridStart(Anchor(period, time), period, time);
      if s < 0 || s + period >= CALENDAR_END then Panic else At(s)
  }

  lemma StartOfMeaning(period: nat, time: nat)
    requires period > 0
    ensures StartOf(period, time).At? ==> OnGrid(Anchor(period, time), period, time, StartOf(period, time).ts)
    ensures StartOf(period, time).At? ==>
              StartOf(period, time).ts <= time < StartOf(period, time).ts + period < CALENDAR_END
    ensures period <= DAY && time + period < CALENDAR_END ==> StartOf(period, time).At?
    ensures DAY < period <= WEEK && 4 * DAY <= time && time + period < CALENDAR_END ==>
              (StartOf(period, time).Panic? <==> Weekday(time) == 0)
  {
    if period <= DAY || Weekday(time) != 0 {
      AnchorAfterFirstWeek(period, time);
      GridStartOnGrid(Anchor(period, time), period, time);
    }
  }

  /** `get_start_timestamp_by_timestamp`; without rounding, the time itself is the start. */
  method GetStartTimestamp(period: nat, time: nat, round: bool) returns (r: Start)
    requires period > 0
    ensures r == if round then StartOf(period, time) else if time < CALENDAR_END then At(time) else Panic
    ensures round && r.At? ==> OnGrid(Anchor(period, time), period, time, r.ts)
    ensures round && period <= DAY && time + period < CALENDAR_END ==> r.At?
    ensures round && DAY < period <= WEEK && 4 * DAY <= time && time + period < CALENDAR_END ==>
              (r.Panic? <==> Weekday(time) == 0)
  {
    StartOfMeaning(period, time);
    if time >= CALENDAR_END {
      return Panic;
    }
    if !round {
      return At(time);
    }
    if period > WEEK {
      return Panic;
    }
    if period > DAY && Weekday(time) == 0 {
      return Panic;
    }
    AnchorAfterFirstWeek(period, time);
    var start := Search(Anchor(period, time), period, time);
    if start < 0 || start + period >= CALENDAR_END {
      return Panic;
    }
    return At(start);
  }

  /** A period that divides the day puts every start on multiples of the period, across days. */
  lemma AlignedAcrossDays(period: nat, time: nat, start: nat)
    requires period > 0 && DAY % period == 0 && OnGrid(DayStart(time), period, time, start)
    ensures start % period == 0
  {
    var k: nat :| start == DayStart(time) + k * period;
    var d := DAY / period;
    assert DAY == period * d;
    var q := time / DAY;
    calc {
      start;
      q * (period * d) + k * period;
      == { MulAssoc(q, period, d); assert q * period == period * q; MulAssoc(period, q, d); }
      period * (q * d) + period * k;
      period * (q * d + k);
    }
    ModUnique(start, period, q * d + k, 0);
  }

  /** Two partitions of one length on multiples of it are the same or do not overlap. */
  lemma AlignedDisjoint(period: nat, a: nat, b: nat)
    requires period > 0 && a % period == 0 && b % period == 0 && a != b
    ensures a + period <= b || b + period <= a
  {
    var x, y := a / period, b / period;
    assert a == period * x && b == period * y;
    assert a - b == period * (x - y);
    MulAtLeast(period, x - y);
  }
}
