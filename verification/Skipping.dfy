/** The step by which reads skip old holders: how it is computed, and exactly when skipping is right. */
module Skipping {
  import opened Types
  import opened Arith
  import opened Holders

  // ---- the step computed at start-up ----

  function Max(a: nat, b: nat): nat {
    if a >= b then a else b
  }

  /** Unsigned 64-bit difference. */
  function Gap(a: nat, b: nat): nat {
    (b - a) % U64
  }

  /** The period or the largest difference between neighbours. */
  function MaxGap(all: seq<nat>, period: nat): nat {
    if |all| < 2 then period
    else Max(MaxGap(all[..|all| - 1], period), Gap(all[|all| - 2], all[|all| - 1]))
  }

  function StepOf(starts: seq<nat>, now: nat, period: nat, adjust: nat): nat {
    Max(adjust, (2 * MaxGap(starts + [now], period) + 1) % U64)
  }

  method SafeTimestampStep(starts: seq<nat>, now: nat, period: nat, adjust: Option<nat>) returns (step: Option<nat>)
    ensures step.None? <==> adjust.None?
    ensures step.Some? ==> step.value == StepOf(starts, now, period, adjust.value)
  {
    if adjust.None? {
      return None;
    }
    var all := starts + [now];
    var maxDiff := period;
    assert all[..1] == [all[0]];
    for i := 0 to |all| - 1
      invariant maxDiff == MaxGap(all[..i + 1], period) >= period
    {
      assert all[..i + 2][..i + 1] == all[..i + 1];
      var diff := Gap(all[i], all[i + 1]);
      if maxDiff < diff {
        maxDiff := diff;
      }
    }
    assert all[..|all|] == all;
    step := Some(Max(adjust.value, (2 * Max(maxDiff, period) + 1) % U64));
  }

  lemma {:induction false} MaxGapAscending(all: seq<nat>, period: nat, top: nat)
    requires Ascending(all) && (forall i | 0 <= i < |all| :: all[i] <= top) && top < U64
    ensures period <= MaxGap(all, period) <= Max(period, top)
  {
    if |all| >= 2 {
      MaxGapAscending(all[..|all| - 1], period, top);
      GapForward(all[|all| - 2], all[|all| - 1]);
    }
  }

  lemma GapForward(a: nat, b: nat)
    requires a <= b < U64
    ensures Gap(a, b) == b - a
  {
    ModUnique(b - a, U64, 0, b - a);
  }

  lemma {:induction false} MaxGapAtLeast(all: seq<nat>, period: nat, i: nat)
    requires Ascending(all) && (forall k | 0 <= k < |all| :: all[k] < U64) && i + 1 < |all|
    ensures all[i + 1] - all[i] <= MaxGap(all, period)
  {
    var n := |all| - 1;
    if i + 1 < n {
      MaxGapAtLeast(all[..n], period, i);
    } else {
      GapForward(all[i], all[i + 1]);
    }
  }

  /** Sorted starts, none of them after `now`. */
  ghost predicate InPast(starts: seq<nat>, now: nat) {
    Ascending(starts) && forall i | 0 <= i < |starts| :: starts[i] <= now
  }

  /** With all partitions in the past nothing wraps. */
  lemma StepInPast(starts: seq<nat>, now: nat, period: nat, adjust: nat, gap: nat)
    requires InPast(starts, now) && 2 * (now + period) + 1 < U64 && gap == MaxGap(starts + [now], period)
    ensures StepOf(starts, now, period, adjust) == Max(adjust, 2 * gap + 1)
    ensures period <= gap <= now + period
  {
    MaxGapAscending(starts + [now], period, now);
    ModUnique(2 * gap + 1, U64, 0, 2 * gap + 1);
  }

  /** The step then exceeds twice the distance from any partition to the next, and from the last to the clock. */
  lemma StepExceedsGaps(starts: seq<nat>, now: nat, period: nat, adjust: nat, all: seq<nat>, i: nat)
    requires InPast(starts, now) && 2 * (now + period) + 1 < U64 && all == starts + [now] && i < |starts|
    ensures 2 * (all[i + 1] - all[i]) < StepOf(starts, now, period, adjust)
  {
    StepInPast(starts, now, period, adjust, MaxGap(all, period));
    MaxGapAtLeast(all, period, i);
  }

  /** Beyond any time in seconds that a clock or a client can mean. */
  const FAR := 0x1000_0000_0000_0000

  /**
   When the last partition starts `d` seconds after the clock, the unsigned difference wraps, and
   the step is the unsigned form of minus (2 * d - 1).
   */
  lemma FutureStartWraps(starts: seq<nat>, now: nat, d: nat, period: nat, adjust: nat)
    requires starts != [] && Ascending(starts) && starts[|starts| - 1] == now + d
    requires 0 < d && now + d < FAR && period < FAR && adjust < FAR
    ensures StepOf(starts, now, period, adjust) == Unsigned(-(2 * d - 1))
  {
    var all := starts + [now];
    MaxGapAscending(starts, period, now + d);
    assert all[..|all| - 1] == starts;
    ModUnique(now - (now + d), U64, -1, U64 - d);
    assert MaxGap(all, period) == U64 - d;
    ModUnique(2 * (U64 - d) + 1, U64, 1, U64 - 2 * d + 1);
    ModUnique(1 - 2 * d, U64, -1, U64 - 2 * d + 1);
  }

  // ---- a signed step ----

  /** The unsigned 64-bit form of a signed step. */
  function Unsigned(e: int): nat {
    e % U64
  }

  /** Adding the step to a holder's end gives an unsigned 64-bit number. */
  ghost predicate InRange(holders: seq<Holder>, e: int) {
    forall h | h in holders :: 0 <= h.end + e < U64
  }

  lemma SignedSum(end: nat, e: int)
    requires 0 <= end + e < U64
    ensures (end + Unsigned(e)) % U64 == end + e
  {
    ModShift(end + e, U64, -(e / U64));
    assert end + Unsigned(e) == end + e + U64 * -(e / U64);
    ModUnique(end + e, U64, 0, end + e);
  }

  /** Reads of groups of this period, with records that date from periods of up to `reach`, are right. */
  ghost predicate AlwaysRight(period: nat, e: int, reach: nat) {
    forall holders, ops, key, possible, q: Progress
      | && Recorded(holders, period, ops, reach) && InRange(holders, e) && NoFalseNegatives(holders, key, possible)
        && Scans(holders, key, Some(Unsigned(e)), possible, {}, 0, q)
      :: LatestWins(ops, key, q.Answer())
  }

  lemma LongStepIsRight(period: nat, e: int, reach: nat, holders: seq<Holder>, ops: set<Stored>, key: Key,
                        possible: set<nat>, q: Progress)
    requires reach <= period + e + 2
    requires Recorded(holders, period, ops, reach) && InRange(holders, e) && NoFalseNegatives(holders, key, possible)
    requires Scans(holders, key, Some(Unsigned(e)), possible, {}, 0, q)
    ensures LatestWins(ops, key, q.Answer())
  {
    ScanReadsOps(holders, key, Some(Unsigned(e)), possible, {}, 0, q, ops);
    NoFailure(holders, key, Some(Unsigned(e)), possible, 0, q);
    forall s | s in ops && s.key == key ensures q.best.Some? && s.rec.Ts() <= q.best.value.Ts() {
      var h :| h in holders && Home(h, s, reach);
      var j :| 0 <= j < |holders| && holders[j] == h;
      ScanCovers(holders, key, Some(Unsigned(e)), possible, {}, 0, q, j, s);
      SignedSum(h.end, e);
    }
  }

  /** A scan that finds a put in the last of two holders and skips the first. */
  lemma SecondHides(holders: seq<Holder>, key: Key, step: nat, d: BobData) returns (q: Progress)
    requires |holders| == 2 && holders[1].recs == {Stored(key, Found(d))}
    requires !ShouldCheck(holders[0], Some(step), Some(d.ts))
    ensures Scans(holders, key, Some(step), {0, 1}, {}, 0, q) && q.Answer() == Data(d)
  {
    q := Progress(Some(Found(d)), false);
    assert Reads(holders[1], key, Some(Found(d))) && q == NOTHING_READ.Better(Some(Found(d)));
    ScanOne(holders, key, Some(step), {0, 1}, {}, 1, NOTHING_READ, q);
    ScanOne(holders, key, Some(step), {0, 1}, {}, 0, q, q);
  }

  /** With a shorter step there is a group with a put that is read although a newer delete is recorded. */
  lemma ShortStepIsWrong(period: nat, e: int, reach: nat)
    requires 0 < period <= reach < FAR && -FAR < e && reach > period + e + 2
    ensures !AlwaysRight(period, e, reach)
  {
    var key: Key := [];
    var x: nat := if e >= 0 then 0 else -2 * e;
    var t, u := x + reach - 1, x + period + e + 1;
    var d := BobData([], u);
    var del, put := Stored(key, Deleted(t)), Stored(key, Found(d));
    var holders, ops := [Holder(x, x + period, {del}), Holder(u, u + period, {put})], {del, put};
    assert Home(holders[0], del, reach) && Home(holders[1], put, reach);
    assert Recorded(holders, period, ops, reach) && InRange(holders, e);
    SignedSum(holders[0].end, e);
    var q := SecondHides(holders, key, Unsigned(e), d);
    assert !LatestWins(ops, key, Data(d)) by {
      assert del in ops && del.rec.Ts() > u;
    }
  }

  /** Reads are right on all recorded groups if and only if the step makes up for the longest period. */
  lemma SkippingIsRightExactly(period: nat, e: int, reach: nat)
    requires 0 < period <= reach < FAR && -FAR < e
    ensures AlwaysRight(period, e, reach) == (reach <= period + e + 2)
  {
    if reach <= period + e + 2 {
      forall holders, ops, key, possible, q: Progress
        | && Recorded(holders, period, ops, reach) && InRange(holders, e) && NoFalseNegatives(holders, key, possible)
          && Scans(holders, key, Some(Unsigned(e)), possible, {}, 0, q)
        ensures LatestWins(ops, key, q.Answer())
      {
        LongStepIsRight(period, e, reach, holders, ops, key, possible, q);
      }
    } else {
      ShortStepIsWrong(period, e, reach);
    }
  }

  /**
   With the last partition `d` seconds after the clock, reads stay right exactly if d = 1 and no
   earlier period was longer than the current one by more than a second.
   */
  lemma FutureStartIsRightExactly(period: nat, d: nat, reach: nat)
    requires 0 < period <= reach < FAR && 0 < d && 2 * d - 1 < FAR
    ensures AlwaysRight(period, -(2 * d - 1), reach)
         == (reach + 2 * d - 1 <= period + 2)
         == (d == 1 && reach <= period + 1)
  {
    SkippingIsRightExactly(period, -(2 * d - 1), reach);
  }
}
