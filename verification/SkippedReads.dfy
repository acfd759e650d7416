/** Histories of a group that end in a wrong read because the newest operation is skipped. */
module SkippedReads {
  import opened Types
  import opened Arith
  import opened StartTimestamp
  import opened Holders
  import opened Skipping
  import opened GroupHistory

  /** A scan of the group, with an exact filter and no failing read, gives an answer no newest operation gives. */
  ghost predicate Misread(g: GroupState, key: Key, q: Progress) {
    ScanOf(g, key, q) && !LatestWins(g.ops, key, q.Answer())
  }

  /** Partitions of a period of at most a day are counted from midnight. */
  lemma StartInDay(period: Seconds, day: nat, k: nat, time: nat)
    requires period <= DAY && k * period <= time - day * DAY < (k + 1) * period && 0 <= time - day * DAY < DAY
    requires day * DAY + DAY + period < CALENDAR_END
    ensures StartOf(period, time) == At(day * DAY + k * period)
  {
    ModUnique(time, DAY, day, time - day * DAY);
    assert DayStart(time) == day * DAY;
    var r := time - day * DAY;
    assert r == period * k + (r - k * period) && 0 <= r - k * period < period;
    ModUnique(r, period, k, r - k * period);
  }

  /** A put with nothing in its way: no holder covers its time, and the partition for it is known. */
  lemma PutInNewHolder(g: GroupState, key: Key, data: BobData, start: nat)
    requires StartOf(g.period, data.ts) == At(start) && forall h | h in g.holders :: !h.Covers(data.ts)
    ensures var s := Stored(key, Found(data));
            Apply(g, Put(key, data, true, true))
              == g.(holders := g.holders + [Holder(start, start + g.period, {s})], ops := g.ops + {s})
  {
    var s := Stored(key, Found(data));
    var hs := g.holders + [Holder(start, start + g.period, {})];
    assert Holder(start, start + g.period, {}).Add(s) == Holder(start, start + g.period, {s});
    assert AddAt(hs, |g.holders|, s) == g.holders + [Holder(start, start + g.period, {s})];
  }

  ghost predicate Reachable(first: Seconds, g: GroupState) {
    exists events :: Replay(first, events) == g
  }

  /** A state after a history under the given settings. */
  ghost predicate SettledReach(first: Seconds, period: Seconds, adjust: nat, g: GroupState) {
    exists events :: SettledHistory(first, period, adjust, events) && Replay(first, events) == g
  }

  lemma SettledNew(first: Seconds, period: Seconds, adjust: nat)
    ensures SettledReach(first, period, adjust, NewGroup(first))
  {
    assert SettledHistory(first, period, adjust, []) && Replay(first, []) == NewGroup(first);
  }

  lemma SettledNext(first: Seconds, period: Seconds, adjust: nat, g: GroupState, e: Event, g': GroupState)
    requires SettledReach(first, period, adjust, g) && Settled(g, period, adjust, e) && Apply(g, e) == g'
    ensures SettledReach(first, period, adjust, g')
  {
    var events :| SettledHistory(first, period, adjust, events) && Replay(first, events) == g;
    assert (events + [e])[..|events|] == events;
    assert SettledHistory(first, period, adjust, events + [e]) && Replay(first, events + [e]) == g';
  }

  lemma ReachableNew(first: Seconds)
    ensures Reachable(first, NewGroup(first))
  {
    assert Replay(first, []) == NewGroup(first);
  }

  lemma ReachableNext(first: Seconds, g: GroupState, e: Event, g': GroupState)
    requires Reachable(first, g) && Apply(g, e) == g'
    ensures Reachable(first, g')
  {
    var events :| Replay(first, events) == g;
    assert (events + [e])[..|events|] == events;
    assert Replay(first, events + [e]) == g';
  }

  lemma PutNew(g: GroupState, key: Key, data: BobData, start: nat, g': GroupState)
    requires StartOf(g.period, data.ts) == At(start) && forall h | h in g.holders :: !h.Covers(data.ts)
    requires g' == g.(holders := g'.holders, ops := g'.ops)
    requires g'.holders == g.holders + [Holder(start, start + g.period, {Stored(key, Found(data))})]
    requires g'.ops == g.ops + {Stored(key, Found(data))}
    ensures Apply(g, Put(key, data, true, true)) == g'
  {
    PutInNewHolder(g, key, data, start);
  }

  // ---- a period that was shortened ----

  lemma AfterDelete(long: Seconds, key: Key, del: nat)
    requires long <= DAY && del < long
    ensures Apply(NewGroup(long), Delete(key, del, true, true, _ => true))
         == NewGroup(long).(holders := [Holder(0, long, {Stored(key, Deleted(del))})],
                            ops := {Stored(key, Deleted(del))})
  {
    var s := Stored(key, Deleted(del));
    StartInDay(long, 0, 0, del);
    var h := Holder(0, long, {});
    assert {} + {s} == {s} && h.Add(s) == Holder(0, long, {s});
    assert [] + [h] == [h] && AddAt([h], 0, s) == [h.Add(s)];
    assert Bury([h.Add(s)], 0, s, _ => true) == [h.Add(s)];
  }

  lemma AfterRestart(g: GroupState, h: Holder, period: Seconds, adjust: nat)
    requires g.holders == [h] && h.start == 0 && 2 * period + 1 < U64
    ensures Apply(g, Restart(period, Some(adjust), 0))
         == GroupState([h.(end := period)], period, Some(Max(adjust, 2 * period + 1)), g.ops, Max(g.reach, period),
                       g.steady && period == g.period)
  {
    var re := [h.(end := period)];
    assert Reopened(g.holders, period) == re;
    assert re[..0] == [] && SortByStart([]) == [] && SortByStart(re) == InsertByStart(re[0], []) == re;
    assert Starts(re) == [0];
    var all := [0] + [0];
    assert MaxGap(all[..1], period) == period && Gap(0, 0) == 0;
    StepInPast([0], 0, period, adjust, MaxGap(all, period));
  }

  ghost function BeforePut(long: nat, period: Seconds, step: nat, d: Stored): GroupState {
    GroupState([Holder(0, period, {d})], period, Some(step), {d}, long, false)
  }

  /** The group after a put that found no holder for its time. */
  ghost function WithNewHolder(g: GroupState, start: nat, s: Stored): GroupState {
    g.(holders := g.holders + [Holder(start, start + g.period, {s})], ops := g.ops + {s})
  }

  lemma BeforePutReachable(long: Seconds, period: Seconds, adjust: nat, key: Key, d: Stored)
    requires period < long <= DAY && adjust < FAR && d == Stored(key, Deleted(long - 1))
    ensures SettledReach(long, period, adjust, BeforePut(long, period, Max(adjust, 2 * period + 1), d))
  {
    var g := NewGroup(long).(holders := [Holder(0, long, {d})], ops := {d});
    SettledNew(long, period, adjust);
    AfterDelete(long, key, long - 1);
    SettledNext(long, period, adjust, NewGroup(long), Delete(key, long - 1, true, true, _ => true), g);
    AfterRestart(g, Holder(0, long, {d}), period, adjust);
    SettledNext(long, period, adjust, g, Restart(period, Some(adjust), 0),
                BeforePut(long, period, Max(adjust, 2 * period + 1), d));
  }

  lemma NotCovered(long: nat, period: Seconds, step: nat, d: Stored, ts: nat)
    requires period <= ts
    ensures forall h | h in BeforePut(long, period, step, d).holders :: !h.Covers(ts)
  {
  }

  lemma ToShortened(long: nat, period: Seconds, step: nat, d: Stored, key: Key, ts: nat, start: nat, g: GroupState)
    requires g == BeforePut(long, period, step, d) && period <= ts && StartOf(period, ts) == At(start)
    ensures Apply(g, PutEvent(key, ts)) == WithNewHolder(g, start, PutAt(key, ts))
  {
    NotCovered(long, period, step, d, ts);
    PutInNewHolder(g, key, BobData([], ts), start);
  }

  lemma BeforePutSettings(long: Seconds, period: Seconds, adjust: nat, d: Stored, e: Event, g: GroupState)
    requires period < long <= DAY && adjust < FAR && e.Put? && e.data.ts < DAY
    requires g == BeforePut(long, period, Max(adjust, 2 * period + 1), d)
    ensures Settled(g, period, adjust, e)
  {
  }

  lemma ShortenedMisreads(long: Seconds, period: Seconds, step: nat, key: Key, ts: nat, start: nat, g: GroupState)
    returns (q: Progress)
    requires ts == period + step + 1 < long - 1 < U64
    requires g == WithNewHolder(BeforePut(long, period, step, Stored(key, Deleted(long - 1))), start, PutAt(key, ts))
    ensures Misread(g, key, q)
  {
    ModUnique(period + step, U64, 0, period + step);
    assert g.holders == [Holder(0, period, {Stored(key, Deleted(long - 1))}),
                         Holder(start, start + period, {PutAt(key, ts)})];
    q := SecondHides(g.holders, key, step, BobData([], ts));
    assert NoFalseNegatives(g.holders, key, {0, 1});
    assert Stored(key, Deleted(long - 1)) in g.ops;
  }

  lemma ShortenedReachable(long: Seconds, period: Seconds, adjust: nat, step: nat, key: Key, ts: nat, start: nat,
                           before: GroupState, g: GroupState)
    requires period < long <= DAY && adjust < FAR && step == Max(adjust, 2 * period + 1)
    requires period <= ts < DAY && StartOf(period, ts) == At(start)
    requires before == BeforePut(long, period, step, Stored(key, Deleted(long - 1)))
    requires g == WithNewHolder(before, start, PutAt(key, ts))
    ensures SettledReach(long, period, adjust, g)
  {
    BeforePutReachable(long, period, adjust, key, Stored(key, Deleted(long - 1)));
    BeforePutSettings(long, period, adjust, Stored(key, Deleted(long - 1)), PutEvent(key, ts), before);
    ToShortened(long, period, step, Stored(key, Deleted(long - 1)), key, ts, start, before);
    SettledNext(long, period, adjust, before, PutEvent(key, ts), g);
  }

  /**
   Whenever shortening the period leaves a step that does not make up for the longest period, a
   history of three events ends in a put being read although a newer delete was acknowledged.
   */
  lemma ShortenedPeriodMisreads(long: Seconds, period: Seconds, adjust: nat, key: Key)
    returns (g: GroupState, q: Progress)
    requires long <= DAY && !Covering(long, period, adjust)
    ensures SettledReach(long, period, adjust, g)
    ensures g.period == period && g.reach == long && g.step == Some(Max(adjust, 2 * period + 1))
    ensures Misread(g, key, q)
  {
    var step := Max(adjust, 2 * period + 1);
    var u := period + step + 1;
    var k := u / period;
    assert u == period * k + u % period && (k + 1) * period == k * period + period;
    StartInDay(period, 0, k, u);
    var before := BeforePut(long, period, step, Stored(key, Deleted(long - 1)));
    g := WithNewHolder(before, k * period, PutAt(key, u));
    ShortenedReachable(long, period, adjust, step, key, u, k * period, before, g);
    q := ShortenedMisreads(long, period, step, key, u, k * period, g);
  }

  /** Every read is right after every history under the settings. */
  ghost predicate SettingsRight(long: Seconds, period: Seconds, adjust: nat) {
    forall g, key, q | SettledReach(long, period, adjust, g) && ScanOf(g, key, q) :: LatestWins(g.ops, key, q.Answer())
  }

  lemma CoveringIsRight(long: Seconds, period: Seconds, adjust: nat, g: GroupState, key: Key, q: Progress)
    requires Covering(long, period, adjust) && SettledReach(long, period, adjust, g) && ScanOf(g, key, q)
    ensures LatestWins(g.ops, key, q.Answer())
  {
    var events :| SettledHistory(long, period, adjust, events) && Replay(long, events) == g;
    SettledFits(long, period, adjust, events);
    HistoryReads(long, events, key, q, q);
  }

  /**
   A group whose period is changed with the clock ahead is read correctly after all histories if and
   only if the first period is at most the new one plus the larger of the setting and twice the new
   one plus one, plus 2.
   */
  lemma SettingsAreRightExactly(long: Seconds, period: Seconds, adjust: nat)
    requires long <= DAY
    ensures SettingsRight(long, period, adjust) <==> Covering(long, period, adjust)
  {
    if Covering(long, period, adjust) {
      forall g, key, q | SettledReach(long, period, adjust, g) && ScanOf(g, key, q)
        ensures LatestWins(g.ops, key, q.Answer())
      {
        CoveringIsRight(long, period, adjust, g, key, q);
      }
    } else {
      var g, q := ShortenedPeriodMisreads(long, period, adjust, []);
    }
  }

  // ---- a partition after the clock ----

  /** A put, or the tombstone in the actual holder, goes to the only holder that covers its time. */
  lemma OnlyHolder(hs: seq<Holder>, i: nat, ts: nat)
    requires i < |hs| && forall j | 0 <= j < |hs| :: hs[j].Covers(ts) <==> j == i
    ensures Actual(hs, ts) == Some(i)
  {
    assert hs[i] in hs;
  }

  lemma SortOne(h: Holder)
    ensures SortByStart([h]) == [h]
  {
    assert [h][..0] == [] && SortByStart([h]) == InsertByStart(h, SortByStart([]));
  }

  /** A restart with one partition, which starts `d` seconds after the clock. */
  lemma RestartBeforeFuture(g: GroupState, h: Holder, d: nat, adjust: nat)
    requires g.holders == [h] && h.end == h.start + g.period && g.reach == g.period && g.steady
    requires 0 < d <= h.start < FAR && g.period < FAR && adjust < FAR
    ensures Apply(g, Restart(g.period, Some(adjust), h.start - d)) == g.(step := Some(Unsigned(-(2 * d - 1))))
  {
    assert Reopened([h], g.period) == [h];
    SortOne(h);
    assert Starts([h]) == [h.start];
    FutureStartWraps([h.start], h.start - d, d, g.period, adjust);
  }

  function PutAt(key: Key, ts: nat): Stored {
    Stored(key, Found(BobData([], ts)))
  }

  function PutEvent(key: Key, ts: nat): Event {
    Put(key, BobData([], ts), true, true)
  }

  function DeleteEvent(key: Key, at: nat): Event {
    Delete(key, at, true, true, _ => true)
  }

  /** A partition in the future, opened by a put of another key, and the restart before its time. */
  ghost function Opened(period: Seconds, f: nat, step: Option<nat>, other: Key): GroupState {
    GroupState([Holder(f, f + period, {PutAt(other, f)})], period, step, {PutAt(other, f)}, period, true)
  }

  lemma ToOpened(period: Seconds, f: nat, d: nat, adjust: nat, other: Key)
    requires StartOf(period, f) == At(f) && 0 < d <= f < FAR && period < FAR && adjust < FAR
    ensures Apply(NewGroup(period), PutEvent(other, f)) == Opened(period, f, None, other)
    ensures Apply(Opened(period, f, None, other), Restart(period, Some(adjust), f - d))
         == Opened(period, f, Some(Unsigned(-(2 * d - 1))), other)
  {
    PutNew(NewGroup(period), other, BobData([], f), f, Opened(period, f, None, other));
    RestartBeforeFuture(Opened(period, f, None, other), Opened(period, f, None, other).holders[0], d, adjust);
  }

  lemma OpenedReachable(period: Seconds, f: nat, d: nat, adjust: nat, other: Key, g: GroupState)
    requires StartOf(period, f) == At(f) && 0 < d <= f < FAR && period < FAR && adjust < FAR
    requires g == Opened(period, f, Some(Unsigned(-(2 * d - 1))), other)
    ensures Reachable(period, g)
  {
    ReachableNew(period);
    ToOpened(period, f, d, adjust, other);
    ReachableNext(period, NewGroup(period), PutEvent(other, f), Opened(period, f, None, other));
    ReachableNext(period, Opened(period, f, None, other), Restart(period, Some(adjust), f - d), g);
  }

  // ---- periods from two seconds on ----

  /** Partitions start at `f` in the future and at `b` and `c` in the past, each at the beginning of a day. */
  datatype Scene = Scene(period: Seconds, f: nat, c: nat, b: nat, step: Option<nat>, key: Key, other: Key) {
    ghost predicate Ordered() {
      2 <= period && b + period <= c && c + period <= f < FAR && key != other
    }

    ghost predicate Valid() {
      && Ordered()
      && StartOf(period, f) == At(f) && StartOf(period, c) == At(c) && StartOf(period, b) == At(b)
    }

    /** The last two seconds of the partition at `c`. */
    function DeletedAt(): nat
      requires period >= 2
    {
      c + period - 2
    }

    function Tombstone(): Stored
      requires period >= 2
    {
      Stored(key, Deleted(DeletedAt()))
    }

    function Last(): Stored
      requires period >= 2
    {
      PutAt(key, DeletedAt() + 1)
    }

    /** Holders in the order of their creation. */
    ghost function Holders(mid: set<Stored>, early: set<Stored>): seq<Holder> {
      [Holder(f, f + period, {PutAt(other, f)}), Holder(c, c + period, mid), Holder(b, b + period, early)]
    }

    ghost function State(mid: set<Stored>, early: set<Stored>, ops: set<Stored>): GroupState {
      GroupState(Holders(mid, early), period, step, ops, period, true)
    }

    ghost function FirstOps(): set<Stored> {
      {PutAt(other, f)} + {PutAt(other, c)} + {PutAt(key, b)}
    }

    /** Two more partitions, then the delete with its copy in the older partition, then the newest put. */
    ghost function Filled(): GroupState {
      State({PutAt(other, c)}, {PutAt(key, b)}, FirstOps())
    }

    ghost function Buried(): GroupState
      requires period >= 2
    {
      State({PutAt(other, c)} + {Tombstone()}, {PutAt(key, b)} + {Tombstone()}, FirstOps() + {Tombstone()})
    }

    ghost function Final(): GroupState
      requires period >= 2
    {
      State({PutAt(other, c)} + {Tombstone()} + {Last()}, {PutAt(key, b)} + {Tombstone()},
            FirstOps() + {Tombstone()} + {Last()})
    }
  }

  lemma InSecond(w: Scene, mid: set<Stored>, early: set<Stored>, ts: nat)
    requires w.Ordered() && w.c <= ts < w.c + w.period
    ensures Actual(w.Holders(mid, early), ts) == Some(1)
  {
    OnlyHolder(w.Holders(mid, early), 1, ts);
  }

  lemma BuryInThird(w: Scene, mid: set<Stored>, early: set<Stored>, s: Stored)
    requires w.Ordered() && exists x | x in early :: x.key == s.key
    ensures Bury(w.Holders(mid, early), w.c, s, _ => true) == w.Holders(mid, early + {s})
  {
    var hs := w.Holders(mid, early);
    var hs' := Bury(hs, w.c, s, _ => true);
    assert hs[2].Has(s.key) && hs[0].start >= w.c && hs[1].start >= w.c;
    assert hs'[0] == hs[0] && hs'[1] == hs[1] && hs'[2] == hs[2].Add(s);
  }

  lemma LateWrite(w: Scene, mid: set<Stored>, early: set<Stored>, ops: set<Stored>, s: Stored)
    requires w.Ordered() && w.c <= s.rec.Ts() < w.c + w.period
    ensures Locate(w.Holders(mid, early), w.period, s.rec.Ts(), true) == (w.Holders(mid, early), Some(1))
    ensures Write(w.State(mid, early, ops), s, true, true) == w.State(mid + {s}, early, ops + {s})
  {
    InSecond(w, mid, early, s.rec.Ts());
    assert AddAt(w.Holders(mid, early), 1, s) == w.Holders(mid + {s}, early);
  }

  lemma LateDelete(w: Scene, mid: set<Stored>, early: set<Stored>, ops: set<Stored>, at: nat)
    requires w.Ordered() && w.c <= at < w.c + w.period && exists x | x in early :: x.key == w.key
    ensures var s := Stored(w.key, Deleted(at));
            Apply(w.State(mid, early, ops), DeleteEvent(w.key, at)) == w.State(mid + {s}, early + {s}, ops + {s})
  {
    var s := Stored(w.key, Deleted(at));
    LateWrite(w, mid, early, ops, s);
    BuryInThird(w, mid + {s}, early, s);
  }

  ghost function Middle(w: Scene): GroupState {
    GroupState([Holder(w.f, w.f + w.period, {PutAt(w.other, w.f)}), Holder(w.c, w.c + w.period, {PutAt(w.other, w.c)})],
               w.period, w.step, {PutAt(w.other, w.f)} + {PutAt(w.other, w.c)}, w.period, true)
  }

  lemma ToMiddle(w: Scene, open: GroupState, mid: GroupState)
    requires w.Valid() && open == Opened(w.period, w.f, w.step, w.other) && mid == Middle(w)
    ensures Apply(open, PutEvent(w.other, w.c)) == mid
  {
    assert mid.holders == open.holders + [Holder(w.c, w.c + w.period, {PutAt(w.other, w.c)})];
    PutNew(open, w.other, BobData([], w.c), w.c, mid);
  }

  lemma ToFilled(w: Scene)
    requires w.Valid()
    ensures Apply(Middle(w), PutEvent(w.key, w.b)) == w.Filled()
  {
    assert w.Filled().holders == Middle(w).holders + [Holder(w.b, w.b + w.period, {PutAt(w.key, w.b)})];
    PutNew(Middle(w), w.key, BobData([], w.b), w.b, w.Filled());
  }

  lemma FilledReachable(w: Scene, open: GroupState)
    requires w.Valid() && open == Opened(w.period, w.f, w.step, w.other) && Reachable(w.period, open)
    ensures Reachable(w.period, w.Filled())
  {
    ToMiddle(w, open, Middle(w));
    ReachableNext(w.period, open, PutEvent(w.other, w.c), Middle(w));
    ToFilled(w);
    ReachableNext(w.period, Middle(w), PutEvent(w.key, w.b), w.Filled());
  }

  lemma ToBuried(w: Scene, at: nat, mid: set<Stored>, early: set<Stored>)
    requires w.Ordered() && at == w.DeletedAt() && mid == {PutAt(w.other, w.c)} && early == {PutAt(w.key, w.b)}
    ensures Apply(w.Filled(), DeleteEvent(w.key, at)) == w.Buried()
  {
    assert PutAt(w.key, w.b) in early && PutAt(w.key, w.b).key == w.key;
    LateDelete(w, mid, early, w.FirstOps(), at);
  }

  lemma LatePut(w: Scene, mid: set<Stored>, early: set<Stored>, ops: set<Stored>, ts: nat)
    requires w.Ordered() && w.c <= ts < w.c + w.period
    ensures Apply(w.State(mid, early, ops), PutEvent(w.key, ts))
         == w.State(mid + {PutAt(w.key, ts)}, early, ops + {PutAt(w.key, ts)})
  {
    LateWrite(w, mid, early, ops, PutAt(w.key, ts));
  }

  lemma ToFinal(w: Scene, at: nat, del: Stored, last: Stored, mid: set<Stored>, early: set<Stored>, ops: set<Stored>)
    requires w.Ordered() && at == w.DeletedAt() && del == w.Tombstone() && last == PutAt(w.key, at + 1)
    requires mid == {PutAt(w.other, w.c)} + {del} && early == {PutAt(w.key, w.b)} + {del} && ops == w.FirstOps() + {del}
    ensures Apply(w.Buried(), PutEvent(w.key, at + 1)) == w.Final()
  {
    assert w.Buried() == w.State(mid, early, ops);
    assert w.Last() == last && w.Final() == w.State(mid + {last}, early, ops + {last});
    LatePut(w, mid, early, ops, at + 1);
  }

  lemma BuriedReachable(w: Scene, filled: GroupState, buried: GroupState)
    requires w.Ordered() && Reachable(w.period, filled) && filled == w.Filled() && buried == w.Buried()
    ensures Reachable(w.period, buried)
  {
    ToBuried(w, w.DeletedAt(), {PutAt(w.other, w.c)}, {PutAt(w.key, w.b)});
    ReachableNext(w.period, filled, DeleteEvent(w.key, w.DeletedAt()), buried);
  }

  lemma FinalReachable(w: Scene, buried: GroupState, final: GroupState)
    requires w.Ordered() && Reachable(w.period, buried) && buried == w.Buried() && final == w.Final()
    ensures Reachable(w.period, final)
  {
    var del := w.Tombstone();
    ToFinal(w, w.DeletedAt(), del, w.Last(),
            {PutAt(w.other, w.c)} + {del}, {PutAt(w.key, w.b)} + {del}, w.FirstOps() + {del});
    ReachableNext(w.period, buried, PutEvent(w.key, w.DeletedAt() + 1), final);
  }

  lemma FinalStamps(w: Scene)
    requires w.Ordered()
    ensures DistinctStamps(w.Final().ops, w.key) && !LatestWins(w.Final().ops, w.key, NotFound)
  {
    assert w.Last() in w.Final().ops && w.Last().key == w.key;
    forall t: nat ensures !Newest(w.Final().ops, w.key, Deleted(t)) {
      if Stored(w.key, Deleted(t)) in w.Final().ops {
        assert t < w.Last().rec.Ts();
      }
    }
  }

  /** A scan that reads a tombstone in the third holder and skips the second; the first does not have the key. */
  lemma ThirdHides(hs: seq<Holder>, key: Key, step: Option<nat>, t: nat) returns (q: Progress)
    requires |hs| == 3 && !hs[0].Has(key) && Newest(hs[2].recs, key, Deleted(t)) && !ShouldCheck(hs[1], step, Some(t))
    ensures NoFalseNegatives(hs, key, {1, 2}) && Scans(hs, key, step, {1, 2}, {}, 0, q) && q.Answer() == NotFound
  {
    q := Progress(Some(Deleted(t)), false);
    assert Reads(hs[2], key, q.best) && q == NOTHING_READ.Better(q.best);
    ScanOne(hs, key, step, {1, 2}, {}, 2, NOTHING_READ, q);
    ScanOne(hs, key, step, {1, 2}, {}, 1, q, q);
    ScanOne(hs, key, step, {1, 2}, {}, 0, q, q);
  }

  /** The scan meets the copied tombstone first and then skips the holder that has it and the newer put. */
  lemma FinalMisreads(w: Scene, d: nat) returns (q: Progress)
    requires w.Ordered() && 2 <= d && 2 * d - 1 <= w.c + w.period && w.step == Some(Unsigned(-(2 * d - 1)))
    ensures Misread(w.Final(), w.key, q) && q.Answer() == NotFound
  {
    SignedSum(w.c + w.period, -(2 * d - 1));
    ThirdHasTombstone(w);
    q := ThirdHides(w.Final().holders, w.key, w.step, w.DeletedAt());
    FinalStamps(w);
  }

  lemma ThirdHasTombstone(w: Scene)
    requires w.Ordered()
    ensures !w.Final().holders[0].Has(w.key) && Newest(w.Final().holders[2].recs, w.key, Deleted(w.DeletedAt()))
  {
    assert w.Tombstone() in w.Final().holders[2].recs;
  }

  // ---- a period of one second ----

  /** The key is put at `b + 1` and then deleted at `b`; each second is a partition of its own. */
  ghost function OneSecond(f: nat, b: nat, step: Option<nat>, key: Key, other: Key): GroupState {
    var put, del := PutAt(key, b + 1), Stored(key, Deleted(b));
    GroupState([Holder(f, f + 1, {PutAt(other, f)}), Holder(b + 1, b + 2, {put}), Holder(b, b + 1, {del})],
               1, step, {PutAt(other, f)} + {put} + {del}, 1, true)
  }

  lemma DeleteInNewHolder(g: GroupState, key: Key, at: nat, start: nat, g': GroupState)
    requires StartOf(g.period, at) == At(start) && forall h | h in g.holders :: !h.Covers(at) && h.start >= start
    requires g' == g.(holders := g'.holders, ops := g.ops + {Stored(key, Deleted(at))})
    requires g'.holders == g.holders + [Holder(start, start + g.period, {Stored(key, Deleted(at))})]
    ensures Apply(g, DeleteEvent(key, at)) == g'
  {
    var s := Stored(key, Deleted(at));
    var hs := g.holders + [Holder(start, start + g.period, {})];
    assert Holder(start, start + g.period, {}).Add(s) == Holder(start, start + g.period, {s});
    assert AddAt(hs, |g.holders|, s) == g'.holders;
    assert Write(g, s, true, true) == g';
    assert forall j | 0 <= j < |g'.holders| :: g'.holders[j].start >= start;
    assert Bury(g'.holders, start, s, _ => true) == g'.holders;
  }

  ghost function OnePut(f: nat, b: nat, step: Option<nat>, key: Key, other: Key): GroupState {
    GroupState([Holder(f, f + 1, {PutAt(other, f)}), Holder(b + 1, b + 2, {PutAt(key, b + 1)})],
               1, step, {PutAt(other, f)} + {PutAt(key, b + 1)}, 1, true)
  }

  lemma OnePutReachable(f: nat, b: nat, step: Option<nat>, key: Key, other: Key, open: GroupState, mid: GroupState)
    requires open == Opened(1, f, step, other) && Reachable(1, open) && b + 2 <= f && StartOf(1, b + 1) == At(b + 1)
    requires mid == OnePut(f, b, step, key, other)
    ensures Reachable(1, mid)
  {
    assert mid.holders == open.holders + [Holder(b + 1, b + 2, {PutAt(key, b + 1)})];
    PutNew(open, key, BobData([], b + 1), b + 1, mid);
    ReachableNext(1, open, PutEvent(key, b + 1), mid);
  }

  lemma OneSecondReachable(f: nat, b: nat, step: Option<nat>, key: Key, other: Key, mid: GroupState, g: GroupState)
    requires mid == OnePut(f, b, step, key, other) && Reachable(1, mid) && b + 2 <= f && StartOf(1, b) == At(b)
    requires g == OneSecond(f, b, step, key, other)
    ensures Reachable(1, g)
  {
    assert g.holders == mid.holders + [Holder(b, b + 1, {Stored(key, Deleted(b))})];
    DeleteInNewHolder(mid, key, b, b, g);
    ReachableNext(1, mid, DeleteEvent(key, b), g);
  }

  lemma OneSecondMisreads(f: nat, b: nat, d: nat, key: Key, other: Key, g: GroupState) returns (q: Progress)
    requires g == OneSecond(f, b, Some(Unsigned(-(2 * d - 1))), key, other)
    requires key != other && 2 <= d && 2 * d - 1 <= b + 2 < U64
    ensures Misread(g, key, q) && q.Answer() == NotFound && DistinctStamps(g.ops, key)
  {
    SignedSum(b + 2, -(2 * d - 1));
    q := ThirdHides(g.holders, key, g.step, b);
    assert PutAt(key, b + 1) in g.ops && PutAt(key, b + 1).rec.Ts() == b + 1;
    assert forall t: nat | Stored(key, Deleted(t)) in g.ops :: t == b;
  }

  // ---- all periods ----

  lemma LongerPeriodMisreads(period: Seconds, day: nat, d: nat, adjust: nat, key: Key, other: Key)
    returns (g: GroupState, q: Progress)
    requires 2 <= period <= DAY && 2 <= d && 2 * d <= day * DAY && adjust < FAR && key != other
    requires day * DAY + 4 * DAY < CALENDAR_END
    ensures Reachable(period, g) && g.steady && g.step == Some(Unsigned(-(2 * d - 1)))
    ensures Misread(g, key, q) && q.Answer() == NotFound && DistinctStamps(g.ops, key)
  {
    var b := day * DAY;
    var w := Scene(period, b + 2 * DAY, b + DAY, b, Some(Unsigned(-(2 * d - 1))), key, other);
    assert b + DAY == (day + 1) * DAY && b + 2 * DAY == (day + 2) * DAY;
    StartInDay(period, day, 0, b);
    StartInDay(period, day + 1, 0, b + DAY);
    StartInDay(period, day + 2, 0, b + 2 * DAY);
    OpenedReachable(period, w.f, d, adjust, other, Opened(period, w.f, w.step, other));
    FilledReachable(w, Opened(period, w.f, w.step, other));
    BuriedReachable(w, w.Filled(), w.Buried());
    FinalReachable(w, w.Buried(), w.Final());
    FinalStamps(w);
    q := FinalMisreads(w, d);
    g := w.Final();
  }

  lemma OneSecondPeriodMisreads(day: nat, d: nat, adjust: nat, key: Key, other: Key)
    returns (g: GroupState, q: Progress)
    requires 2 <= d && 2 * d <= day * DAY && adjust < FAR && key != other && day * DAY + 4 * DAY < CALENDAR_END
    ensures Reachable(1, g) && g.steady && g.step == Some(Unsigned(-(2 * d - 1)))
    ensures Misread(g, key, q) && q.Answer() == NotFound && DistinctStamps(g.ops, key)
  {
    var b := day * DAY;
    var f, step := b + DAY, Some(Unsigned(-(2 * d - 1)));
    assert f == (day + 1) * DAY;
    StartInDay(1, day, 0, b);
    StartInDay(1, day, 1, b + 1);
    StartInDay(1, day + 1, 0, f);
    var open := Opened(1, f, step, other);
    OpenedReachable(1, f, d, adjust, other, open);
    OnePutReachable(f, b, step, key, other, open, OnePut(f, b, step, key, other));
    g := OneSecond(f, b, step, key, other);
    OneSecondReachable(f, b, step, key, other, OnePut(f, b, step, key, other), g);
    q := OneSecondMisreads(f, b, d, key, other, g);
  }

  /**
   For every period of up to a day that never changed, and every restart with the last partition two
   seconds or more after the clock, some history ends in not-found although the newest operation is
   a put. Its operations on the key carry distinct timestamps.
   */
  lemma FutureStartMisreads(period: Seconds, d: nat, adjust: nat, key: Key, other: Key)
    returns (g: GroupState, q: Progress)
    requires period <= DAY && 2 <= d && adjust < FAR && key != other && 2 * d + 5 * DAY < CALENDAR_END
    ensures Reachable(period, g) && g.steady && g.step == Some(Unsigned(-(2 * d - 1)))
    ensures Misread(g, key, q) && q.Answer() == NotFound && DistinctStamps(g.ops, key)
  {
    var day := 2 * d / DAY + 1;
    assert 2 * d == DAY * (2 * d / DAY) + 2 * d % DAY;
    if period == 1 {
      g, q := OneSecondPeriodMisreads(day, d, adjust, key, other);
    } else {
      g, q := LongerPeriodMisreads(period, day, d, adjust, key, other);
    }
  }
}
