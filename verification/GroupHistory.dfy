/** The states of a vdisk group on a normal disk, over every history of puts, forced deletes and restarts. */
module GroupHistory {
  import opened Types
  import opened Arith
  import opened StartTimestamp
  import opened Holders
  import opened Skipping

  type Seconds = p: nat | p > 0 witness 1

  // ---- reload order ----

  /** Holders are sorted by start when they are read back from disk. */
  function InsertByStart(h: Holder, hs: seq<Holder>): seq<Holder> {
    if hs == [] || h.start < hs[0].start then [h] + hs else [hs[0]] + InsertByStart(h, hs[1..])
  }

  function SortByStart(hs: seq<Holder>): seq<Holder> {
    if hs == [] then [] else InsertByStart(hs[|hs| - 1], SortByStart(hs[..|hs| - 1]))
  }

  ghost predicate Sorted(hs: seq<Holder>) {
    forall i, j | 0 <= i < j < |hs| :: hs[i].start <= hs[j].start
  }

  ghost predicate DistinctStarts(hs: seq<Holder>) {
    forall i, j | 0 <= i < j < |hs| :: hs[i].start != hs[j].start
  }

  lemma {:induction false} InsertByStartMembers(h: Holder, hs: seq<Holder>)
    ensures forall x :: x in InsertByStart(h, hs) <==> x == h || x in hs
  {
    if hs != [] && h.start >= hs[0].start {
      InsertByStartMembers(h, hs[1..]);
      assert forall x :: x in hs <==> x == hs[0] || x in hs[1..];
    }
  }

  lemma {:induction false} InsertByStartSorted(h: Holder, hs: seq<Holder>)
    requires Sorted(hs)
    ensures Sorted(InsertByStart(h, hs))
  {
    if hs != [] && h.start >= hs[0].start {
      var r := InsertByStart(h, hs[1..]);
      InsertByStartSorted(h, hs[1..]);
      InsertByStartMembers(h, hs[1..]);
      forall i | 0 <= i < |r| ensures hs[0].start <= r[i].start {
        assert r[i] in r;
      }
    }
  }

  lemma {:induction false} InsertByStartDistinct(h: Holder, hs: seq<Holder>)
    requires DistinctStarts(hs) && forall x | x in hs :: x.start != h.start
    ensures DistinctStarts(InsertByStart(h, hs))
  {
    if hs != [] && h.start >= hs[0].start {
      var r := InsertByStart(h, hs[1..]);
      InsertByStartDistinct(h, hs[1..]);
      InsertByStartMembers(h, hs[1..]);
      forall i | 0 <= i < |r| ensures hs[0].start != r[i].start {
        assert r[i] in r;
      }
    } else {
      assert forall i | 0 <= i < |hs| :: hs[i] in hs;
    }
  }

  lemma {:induction false} SortByStartProperties(hs: seq<Holder>)
    ensures forall x :: x in SortByStart(hs) <==> x in hs
    ensures Sorted(SortByStart(hs))
    ensures DistinctStarts(hs) ==> DistinctStarts(SortByStart(hs))
  {
    if hs != [] {
      var init, last := hs[..|hs| - 1], hs[|hs| - 1];
      SortByStartProperties(init);
      assert hs == init + [last];
      InsertByStartMembers(last, SortByStart(init));
      InsertByStartSorted(last, SortByStart(init));
      if DistinctStarts(hs) {
        assert forall x | x in init :: x.start != last.start;
        InsertByStartDistinct(last, SortByStart(init));
      }
    }
  }

  function Reopened(hs: seq<Holder>, period: nat): seq<Holder> {
    seq(|hs|, i requires 0 <= i < |hs| => hs[i].(end := hs[i].start + period))
  }

  // ---- partitions of one length ----

  /** With a period that divides the day and never changed, partitions do not overlap. */
  ghost predicate Disjoint(hs: seq<Holder>) {
    forall i, j | 0 <= i < j < |hs| :: hs[i].end <= hs[j].start || hs[j].end <= hs[i].start
  }

  ghost predicate OnPeriodGrid(hs: seq<Holder>, period: nat)
    requires period > 0
  {
    && DistinctStarts(hs)
    && forall h | h in hs :: h.start % period == 0 && h.end == h.start + period
  }

  lemma GridIsDisjoint(hs: seq<Holder>, period: nat)
    requires period > 0 && OnPeriodGrid(hs, period)
    ensures Disjoint(hs)
    ensures forall i, j, ts: nat | 0 <= i < |hs| && 0 <= j < |hs| && hs[i].Covers(ts) && hs[j].Covers(ts) :: i == j
  {
    forall i, j | 0 <= i < j < |hs| ensures hs[i].end <= hs[j].start || hs[j].end <= hs[i].start {
      assert hs[i] in hs && hs[j] in hs;
      AlignedDisjoint(period, hs[i].start, hs[j].start);
    }
  }

  // ---- the state and its events ----

  /** `ops`, `reach` and `steady` are the acknowledged operations, the longest period, and whether it never changed. */
  datatype GroupState = GroupState(
    holders: seq<Holder>, period: Seconds, step: Option<nat>,
    ops: set<Stored>, reach: nat, steady: bool)

  /** The flags say whether a holder could be created and a record written; `older` says so for older holders. */
  datatype Event =
    | Put(key: Key, data: BobData, created: bool, written: bool)
    | Delete(key: Key, at: nat, created: bool, written: bool, older: nat -> bool)
    | Restart(period: Seconds, adjust: Option<nat>, now: nat)

  function NewGroup(period: Seconds): GroupState {
    GroupState([], period, None, {}, period, true)
  }

  /** `get_or_create_actual_holder`: the holders after it, and the index of the one for the time. */
  function Locate(hs: seq<Holder>, period: Seconds, ts: nat, created: bool): (seq<Holder>, Option<nat>) {
    if Actual(hs, ts).Some? then (hs, Actual(hs, ts))
    else if created && StartOf(period, ts).At? then
      var s := StartOf(period, ts).ts;
      (hs + [Holder(s, s + period, {})], Some(|hs|))
    else (hs, None)
  }

  function AddAt(hs: seq<Holder>, i: nat, s: Stored): seq<Holder>
    requires i < |hs|
  {
    hs[i := hs[i].Add(s)]
  }

  /** A write to the holder for the operation's time; it is acknowledged if the record is written. */
  function Write(g: GroupState, s: Stored, created: bool, written: bool): GroupState {
    var (hs, i) := Locate(g.holders, g.period, s.rec.Ts(), created);
    if i.Some? && written then g.(holders := AddAt(hs, i.value, s), ops := g.ops + {s}) else g.(holders := hs)
  }

  function Acknowledged(g: GroupState, s: Stored, created: bool, written: bool): bool {
    Locate(g.holders, g.period, s.rec.Ts(), created).1.Some? && written
  }

  /** Tombstones in the holders that start before, have the key and take the write. */
  function Bury(hs: seq<Holder>, start: nat, s: Stored, older: nat -> bool): seq<Holder> {
    seq(|hs|, j requires 0 <= j < |hs| =>
      if hs[j].start < start && hs[j].Has(s.key) && older(j) then hs[j].Add(s) else hs[j])
  }

  function Starts(hs: seq<Holder>): seq<nat> {
    seq(|hs|, i requires 0 <= i < |hs| => hs[i].start)
  }

  function Apply(g: GroupState, e: Event): GroupState {
    match e
    case Put(key, data, created, written) => Write(g, Stored(key, Found(data)), created, written)
    case Delete(key, at, created, written, older) =>
      var s := Stored(key, Deleted(at));
      var g' := Write(g, s, created, written);
      if Acknowledged(g, s, created, written) then
        var i := Locate(g.holders, g.period, at, created).1.value;
        g'.(holders := Bury(g'.holders, g'.holders[i].start, s, older))
      else g'
    case Restart(period, adjust, now) =>
      var hs := SortByStart(Reopened(g.holders, period));
      GroupState(hs, period, if adjust.None? then None else Some(StepOf(Starts(hs), now, period, adjust.value)),
                 g.ops, Max(g.reach, period), g.steady && period == g.period)
  }

  function Replay(first: Seconds, events: seq<Event>): GroupState {
    if events == [] then NewGroup(first)
    else Apply(Replay(first, events[..|events| - 1]), events[|events| - 1])
  }

  // ---- how single writes keep the records in agreement ----

  lemma AddKeepsRecorded(hs: seq<Holder>, period: nat, ops: set<Stored>, reach: nat, i: nat, s: Stored)
    requires Recorded(hs, period, ops, reach) && i < |hs|
    requires s in ops || (hs[i].Covers(s.rec.Ts()) && period <= reach)
    ensures Recorded(hs[i := hs[i].Add(s)], period, ops + {s}, reach)
  {
    var hs' := hs[i := hs[i].Add(s)];
    assert hs[i] in hs && hs'[i] in hs';
    forall o | o in ops + {s} ensures exists h | h in hs' :: Home(h, o, reach) {
      if o in ops {
        var h :| h in hs && Home(h, o, reach);
        var j :| 0 <= j < |hs| && hs[j] == h;
        assert hs'[j] in hs' && Home(hs'[j], o, reach);
      } else {
        assert Home(hs'[i], o, reach);
      }
    }
    forall h | h in hs' ensures h.end == h.start + period && h.recs <= ops + {s} {
      var j :| 0 <= j < |hs'| && hs'[j] == h;
      assert hs[j] in hs;
    }
  }

  lemma NewHolderKeepsRecorded(hs: seq<Holder>, period: nat, ops: set<Stored>, reach: nat, start: nat)
    requires Recorded(hs, period, ops, reach)
    ensures Recorded(hs + [Holder(start, start + period, {})], period, ops, reach)
  {
    var hs' := hs + [Holder(start, start + period, {})];
    forall o | o in ops ensures exists h | h in hs' :: Home(h, o, reach) {
      var h :| h in hs && Home(h, o, reach);
      assert h in hs';
    }
  }

  lemma ReopenKeepsRecorded(hs: seq<Holder>, period: nat, ops: set<Stored>, reach: nat, period': nat, reach': nat)
    requires Recorded(hs, period, ops, reach) && reach <= reach'
    ensures Recorded(SortByStart(Reopened(hs, period')), period', ops, reach')
  {
    var re := Reopened(hs, period');
    SortByStartProperties(re);
    forall h | h in re ensures h.end == h.start + period' && h.recs <= ops {
      var j :| 0 <= j < |re| && re[j] == h;
      assert hs[j] in hs;
    }
    forall o | o in ops ensures exists h | h in SortByStart(re) :: Home(h, o, reach') {
      var h :| h in hs && Home(h, o, reach);
      var j :| 0 <= j < |hs| && hs[j] == h;
      assert re[j] in re && Home(re[j], o, reach');
    }
  }

  lemma AddAtHome(hs: seq<Holder>, period: nat, reach: nat, i: nat, s: Stored)
    requires PutsAtHome(hs, reach) && i < |hs| && hs[i].end == hs[i].start + period && period <= reach
    requires s.rec.Found? ==> hs[i].Covers(s.rec.Ts())
    ensures PutsAtHome(AddAt(hs, i, s), reach)
  {
    var hs' := AddAt(hs, i, s);
    forall h, x | h in hs' && x in h.recs && x.rec.Found? ensures Home(h, x, reach) {
      var j :| 0 <= j < |hs'| && hs'[j] == h;
      assert hs[j] in hs;
      if x in hs[j].recs {
        assert Home(hs[j], x, reach);
      }
    }
  }

  lemma ReopenAtHome(hs: seq<Holder>, reach: nat, period: nat, reach': nat)
    requires PutsAtHome(hs, reach) && reach <= reach'
    ensures PutsAtHome(SortByStart(Reopened(hs, period)), reach')
  {
    var re := Reopened(hs, period);
    SortByStartProperties(re);
    forall h, x | h in re && x in h.recs && x.rec.Found? ensures Home(h, x, reach') {
      var j :| 0 <= j < |re| && re[j] == h;
      assert hs[j] in hs && Home(hs[j], x, reach);
    }
  }

  lemma ReopenKeepsGrid(hs: seq<Holder>, period: nat)
    requires period > 0 && OnPeriodGrid(hs, period)
    ensures OnPeriodGrid(SortByStart(Reopened(hs, period)), period)
  {
    forall j | 0 <= j < |hs| ensures Reopened(hs, period)[j] == hs[j] {
      assert hs[j] in hs;
    }
    assert Reopened(hs, period) == hs;
    SortByStartProperties(hs);
  }

  // ---- what every event keeps ----

  /**
   Records agree with the operations, and puts are only in holders for their time; while a period that
   divides the day never changed, holders are on its grid.
   */
  ghost predicate Consistent(g: GroupState) {
    && g.period <= g.reach
    && Recorded(g.holders, g.period, g.ops, g.reach) && PutsAtHome(g.holders, g.reach)
    && (g.steady ==> g.period == g.reach)
    && (g.steady && g.period <= DAY && DAY % g.period == 0 ==> OnPeriodGrid(g.holders, g.period))
  }

  /** The holders are as before or one empty holder was added, which covers the time and which no other did. */
  ghost predicate AtMostOneAdded(hs: seq<Holder>, hs': seq<Holder>, ts: nat) {
    || hs' == hs
    || (&& |hs'| == |hs| + 1 && hs < hs' && hs'[|hs|].Covers(ts) && hs'[|hs|].recs == {}
        && forall h | h in hs :: !h.Covers(ts))
  }

  lemma LocateFinds(hs: seq<Holder>, period: Seconds, ts: nat, created: bool)
    ensures var (hs', i) := Locate(hs, period, ts, created);
            && AtMostOneAdded(hs, hs', ts)
            && (i.None? ==> hs' == hs)
            && (i.Some? ==> i.value < |hs'| && hs'[i.value].Covers(ts))
            && (i.Some? ==> forall j | 0 <= j < |hs'| && hs'[j].Covers(ts) :: hs'[j].start <= hs'[i.value].start)
            && (created && period <= DAY && ts + period < CALENDAR_END ==> i.Some?)
  {
    StartOfMeaning(period, ts);
  }

  lemma LocateKeeps(g: GroupState, ts: nat, created: bool)
    requires Consistent(g)
    ensures Consistent(g.(holders := Locate(g.holders, g.period, ts, created).0))
  {
    var hs := Locate(g.holders, g.period, ts, created).0;
    if hs != g.holders {
      StartOfMeaning(g.period, ts);
      var s := StartOf(g.period, ts).ts;
      NewHolderKeepsRecorded(g.holders, g.period, g.ops, g.reach, s);
      if OnPeriodGrid(g.holders, g.period) && g.period <= DAY && DAY % g.period == 0 {
        AlignedAcrossDays(g.period, ts, s);
        GridGrows(g.holders, g.period, s, ts);
      }
    }
  }

  lemma GridGrows(hs: seq<Holder>, period: Seconds, s: nat, ts: nat)
    requires OnPeriodGrid(hs, period) && s % period == 0 && s <= ts < s + period && forall h | h in hs :: !h.Covers(ts)
    ensures OnPeriodGrid(hs + [Holder(s, s + period, {})], period)
  {
    forall j | 0 <= j < |hs| ensures hs[j].start != s {
      assert hs[j] in hs;
    }
  }

  lemma AddKeepsGrid(hs: seq<Holder>, period: Seconds, i: nat, s: Stored)
    requires OnPeriodGrid(hs, period) && i < |hs|
    ensures OnPeriodGrid(AddAt(hs, i, s), period)
  {
    var hs' := AddAt(hs, i, s);
    forall h | h in hs' ensures h.start % period == 0 && h.end == h.start + period {
      var j :| 0 <= j < |hs'| && hs'[j] == h;
      assert hs[j] in hs;
    }
  }

  lemma AddKeeps(g: GroupState, i: nat, s: Stored)
    requires Consistent(g) && i < |g.holders|
    requires (s in g.ops && s.rec.Deleted?) || g.holders[i].Covers(s.rec.Ts())
    ensures Consistent(g.(holders := AddAt(g.holders, i, s), ops := g.ops + {s}))
  {
    assert g.holders[i] in g.holders;
    AddAtHome(g.holders, g.period, g.reach, i, s);
    AddKeepsRecorded(g.holders, g.period, g.ops, g.reach, i, s);
    if OnPeriodGrid(g.holders, g.period) {
      AddKeepsGrid(g.holders, g.period, i, s);
    }
  }

  lemma WriteKeeps(g: GroupState, s: Stored, created: bool, written: bool)
    requires Consistent(g)
    ensures Consistent(Write(g, s, created, written))
  {
    var (hs, i) := Locate(g.holders, g.period, s.rec.Ts(), created);
    LocateFinds(g.holders, g.period, s.rec.Ts(), created);
    LocateKeeps(g, s.rec.Ts(), created);
    if i.Some? {
      AddKeeps(g.(holders := hs), i.value, s);
    }
  }

  /** Tombstones in the first `n` holders only. */
  function BuryFirst(hs: seq<Holder>, n: nat, start: nat, s: Stored, older: nat -> bool): seq<Holder> {
    Bury(hs, start, s, (j: nat) => j < n && older(j))
  }

  lemma BuryOneMore(hs: seq<Holder>, n: nat, start: nat, s: Stored, older: nat -> bool)
    requires n < |hs|
    ensures var mid := BuryFirst(hs, n, start, s, older);
            BuryFirst(hs, n + 1, start, s, older)
              == if hs[n].start < start && hs[n].Has(s.key) && older(n) then AddAt(mid, n, s) else mid
  {
  }

  lemma {:induction false} BuryKeeps(g: GroupState, n: nat, start: nat, s: Stored, older: nat -> bool)
    requires Consistent(g) && s in g.ops && s.rec.Deleted? && n <= |g.holders|
    ensures Consistent(g.(holders := BuryFirst(g.holders, n, start, s, older)))
  {
    var hs := g.holders;
    if n == 0 {
      assert BuryFirst(hs, n, start, s, older) == hs;
    } else {
      var mid := BuryFirst(hs, n - 1, start, s, older);
      BuryKeeps(g, n - 1, start, s, older);
      BuryOneMore(hs, n - 1, start, s, older);
      AddKeeps(g.(holders := mid), n - 1, s);
      assert g.ops + {s} == g.ops;
    }
  }

  lemma RestartKeeps(g: GroupState, period: Seconds, adjust: Option<nat>, now: nat)
    requires Consistent(g)
    ensures Consistent(Apply(g, Restart(period, adjust, now)))
  {
    ReopenKeepsRecorded(g.holders, g.period, g.ops, g.reach, period, Max(g.reach, period));
    ReopenAtHome(g.holders, g.reach, period, Max(g.reach, period));
    if OnPeriodGrid(g.holders, period) {
      ReopenKeepsGrid(g.holders, period);
    }
  }

  lemma BuryAllKeeps(g: GroupState, start: nat, s: Stored, older: nat -> bool)
    requires Consistent(g) && s in g.ops && s.rec.Deleted?
    ensures Consistent(g.(holders := Bury(g.holders, start, s, older)))
  {
    BuryKeeps(g, |g.holders|, start, s, older);
    assert BuryFirst(g.holders, |g.holders|, start, s, older) == Bury(g.holders, start, s, older);
  }

  lemma DeleteKeeps(g: GroupState, key: Key, at: nat, created: bool, written: bool, older: nat -> bool)
    requires Consistent(g)
    ensures Consistent(Apply(g, Delete(key, at, created, written, older)))
  {
    var s := Stored(key, Deleted(at));
    WriteKeeps(g, s, created, written);
    if Acknowledged(g, s, created, written) {
      var g' := Write(g, s, created, written);
      LocateFinds(g.holders, g.period, at, created);
      BuryAllKeeps(g', g'.holders[Locate(g.holders, g.period, at, created).1.value].start, s, older);
    }
  }

  lemma ApplyKeeps(g: GroupState, e: Event)
    requires Consistent(g)
    ensures Consistent(Apply(g, e))
  {
    match e
    case Put(key, data, created, written) => WriteKeeps(g, Stored(key, Found(data)), created, written);
    case Delete(key, at, created, written, older) => DeleteKeeps(g, key, at, created, written, older);
    case Restart(period, adjust, now) => RestartKeeps(g, period, adjust, now);
  }

  /** After every history, whatever failed in it, holders and acknowledged operations agree. */
  lemma {:induction false} HistoryKeeps(first: Seconds, events: seq<Event>)
    ensures Consistent(Replay(first, events))
  {
    if events != [] {
      HistoryKeeps(first, events[..|events| - 1]);
      ApplyKeeps(Replay(first, events[..|events| - 1]), events[|events| - 1]);
    }
  }

  /** As long as a period that divides the day has not changed, partitions do not overlap after any history. */
  lemma HistoryDisjoint(first: Seconds, events: seq<Event>)
    requires var g := Replay(first, events); g.steady && g.period <= DAY && DAY % g.period == 0
    ensures var hs := Replay(first, events).holders;
            && Disjoint(hs)
            && forall i, j, ts: nat | 0 <= i < |hs| && 0 <= j < |hs| && hs[i].Covers(ts) && hs[j].Covers(ts) :: i == j
  {
    HistoryKeeps(first, events);
    GridIsDisjoint(Replay(first, events).holders, Replay(first, events).period);
  }

  // ---- when reads may skip, along a history ----

  ghost predicate Allowed(g: GroupState) {
    SkipAllowed(g.holders, g.period, g.step, g.reach)
  }

  ghost predicate FitsTime(g: GroupState, ts: nat) {
    g.step.Some? ==> ts + g.period + g.step.value < U64
  }

  lemma ReachedWithoutWrap(h: Holder, period: nat, step: nat, reach: nat)
    requires h.end == h.start + period && h.end + step < U64
    ensures Reached(h, step, reach) <==> reach <= period + step + 2
  {
    ModUnique(h.end + step, U64, 0, h.end + step);
  }

  ghost predicate SameIntervals(hs: seq<Holder>, hs': seq<Holder>) {
    |hs'| == |hs| && forall j | 0 <= j < |hs| :: hs'[j].start == hs[j].start && hs'[j].end == hs[j].end
  }

  lemma SameIntervalsAllowed(g: GroupState, hs: seq<Holder>, ops: set<Stored>)
    requires Allowed(g) && SameIntervals(g.holders, hs)
    ensures Allowed(g.(holders := hs, ops := ops))
  {
    if g.step.Some? {
      forall h | h in hs ensures Reached(h, g.step.value, g.reach) {
        var j :| 0 <= j < |hs| && hs[j] == h;
        assert g.holders[j] in g.holders;
      }
    }
  }

  lemma LocateAllowed(g: GroupState, ts: nat, created: bool)
    requires Allowed(g) && FitsTime(g, ts)
    ensures Allowed(g.(holders := Locate(g.holders, g.period, ts, created).0))
  {
    StartOfMeaning(g.period, ts);
    if g.step.Some? && Locate(g.holders, g.period, ts, created).0 != g.holders {
      var s := StartOf(g.period, ts).ts;
      ReachedWithoutWrap(Holder(s, s + g.period, {}), g.period, g.step.value, g.reach);
    }
  }

  lemma WriteAllowed(g: GroupState, s: Stored, created: bool, written: bool)
    requires Allowed(g) && FitsTime(g, s.rec.Ts())
    ensures Allowed(Write(g, s, created, written))
  {
    var (hs, i) := Locate(g.holders, g.period, s.rec.Ts(), created);
    LocateAllowed(g, s.rec.Ts(), created);
    if i.Some? && written {
      LocateFinds(g.holders, g.period, s.rec.Ts(), created);
      SameIntervalsAllowed(g.(holders := hs), AddAt(hs, i.value, s), g.ops + {s});
    }
  }

  lemma BuryAllowed(g: GroupState, start: nat, s: Stored, older: nat -> bool)
    requires Allowed(g)
    ensures Allowed(g.(holders := Bury(g.holders, start, s, older)))
  {
    var hs := Bury(g.holders, start, s, older);
    assert forall j | 0 <= j < |hs| :: hs[j] == g.holders[j] || hs[j] == g.holders[j].Add(s);
    SameIntervalsAllowed(g, hs, g.ops);
  }

  lemma DeleteAllowed(g: GroupState, key: Key, at: nat, created: bool, written: bool, older: nat -> bool)
    requires Allowed(g) && FitsTime(g, at)
    ensures Allowed(Apply(g, Delete(key, at, created, written, older)))
  {
    var s := Stored(key, Deleted(at));
    var g' := Write(g, s, created, written);
    WriteAllowed(g, s, created, written);
    if Acknowledged(g, s, created, written) {
      LocateFinds(g.holders, g.period, at, created);
      BuryAllowed(g', g'.holders[Locate(g.holders, g.period, at, created).1.value].start, s, older);
    }
  }

  /** No partition starts after the clock, and all values are far from the 64-bit limit. */
  ghost predicate ClockAhead(hs: seq<Holder>, period: nat, now: nat, adjust: nat) {
    3 * (now + period) + adjust + 1 < U64 && forall h | h in hs :: h.start <= now
  }

  lemma ReloadedInPast(hs: seq<Holder>, period: Seconds, now: nat)
    requires forall h | h in hs :: h.start <= now
    ensures var re := SortByStart(Reopened(hs, period));
            InPast(Starts(re), now) && forall h | h in re :: h.start <= now && h.end == h.start + period
  {
    var re := Reopened(hs, period);
    SortByStartProperties(re);
    forall h | h in SortByStart(re) ensures h.start <= now && h.end == h.start + period {
      var j :| 0 <= j < |re| && re[j] == h;
      assert hs[j] in hs;
    }
    assert forall i | 0 <= i < |SortByStart(re)| :: SortByStart(re)[i] in SortByStart(re);
  }

  /** With the clock ahead, reads may skip after a restart exactly if the step makes up for the longest period. */
  lemma RestartAllowed(g: GroupState, period: Seconds, adjust: nat, now: nat)
    requires ClockAhead(g.holders, period, now, adjust)
    ensures var g' := Apply(g, Restart(period, Some(adjust), now));
            && g'.step.Some? && 2 * period < g'.step.value && adjust <= g'.step.value
            && (Allowed(g') <==> SkipSafe(g'.period, g'.step, g'.reach))
  {
    var re := SortByStart(Reopened(g.holders, period));
    ReloadedInPast(g.holders, period, now);
    StepInPast(Starts(re), now, period, adjust, MaxGap(Starts(re) + [now], period));
    var step := StepOf(Starts(re), now, period, adjust);
    forall h | h in re ensures Reached(h, step, Max(g.reach, period)) <==> Max(g.reach, period) <= period + step + 2 {
      ReachedWithoutWrap(h, period, step, Max(g.reach, period));
    }
  }

  lemma LastIsLatest(hs: seq<Holder>, h: Holder)
    requires Sorted(hs) && h in hs
    ensures hs != [] && h.start <= hs[|hs| - 1].start
  {
    var k :| 0 <= k < |hs| && hs[k] == h;
  }

  lemma ReloadedStarts(hs: seq<Holder>, period: Seconds, top: nat)
    requires (forall h | h in hs :: h.start <= top) && exists h | h in hs :: h.start == top
    ensures var starts := Starts(SortByStart(Reopened(hs, period)));
            starts != [] && Ascending(starts) && starts[|starts| - 1] == top
  {
    var re := Reopened(hs, period);
    var sorted := SortByStart(re);
    ReloadedInPast(hs, period, top);
    SortByStartProperties(re);
    var h :| h in hs && h.start == top;
    var j :| 0 <= j < |hs| && hs[j] == h;
    assert re[j] in re;
    LastIsLatest(sorted, re[j]);
    assert sorted[|sorted| - 1] in sorted;
  }

  lemma ReloadedEnds(hs: seq<Holder>, period: Seconds, low: nat, top: nat)
    requires forall h | h in hs :: h.start <= top && low <= h.start + period
    ensures forall h | h in SortByStart(Reopened(hs, period)) :: low <= h.end == h.start + period <= top + period
  {
    var re := Reopened(hs, period);
    SortByStartProperties(re);
    forall h | h in re ensures low <= h.end == h.start + period <= top + period {
      var j :| 0 <= j < |re| && re[j] == h;
      assert hs[j] in hs;
    }
  }

  /** With a signed step whose sums stay in range, reads may skip exactly if it makes up for the longest period. */
  lemma AllowedSigned(hs: seq<Holder>, period: nat, e: int, reach: nat)
    requires hs != [] && InRange(hs, e) && (forall h | h in hs :: h.end == h.start + period)
          && reach <= period + Unsigned(e) + 2
    ensures SkipAllowed(hs, period, Some(Unsigned(e)), reach) <==> reach <= period + e + 2
  {
    forall h | h in hs ensures Reached(h, Unsigned(e), reach) <==> reach <= period + e + 2 {
      SignedSum(h.end, e);
    }
    assert hs[0] in hs;
  }

  /**
   With the last partition `d` seconds after the clock the step acts as minus (2 * d - 1). Reads may
   then skip exactly if that still makes up for the longest period: with an unchanged one, for d = 1 only.
   */
  lemma FutureRestartAllowed(g: GroupState, period: Seconds, adjust: nat, now: nat, d: nat)
    requires 0 < d && now + d < FAR && period < FAR && adjust < FAR && g.reach < FAR
    requires (forall h | h in g.holders :: h.start <= now + d && 2 * d - 1 <= h.start + period)
          && exists h | h in g.holders :: h.start == now + d
    ensures var g' := Apply(g, Restart(period, Some(adjust), now));
            Allowed(g') <==> g'.reach + 2 * d - 1 <= period + 2
  {
    var re := SortByStart(Reopened(g.holders, period));
    var reach, step := Max(g.reach, period), StepOf(Starts(re), now, period, adjust);
    ReloadedStarts(g.holders, period, now + d);
    FutureStartWraps(Starts(re), now, d, period, adjust);
    ModUnique(1 - 2 * d, U64, -1, U64 - 2 * d + 1);
    ReloadedEnds(g.holders, period, 2 * d - 1, now + d);
    AllowedSigned(re, period, -(2 * d - 1), reach);
  }

  /** What a caller can check before an event so that reads may still skip after it. */
  ghost predicate Fits(g: GroupState, e: Event) {
    match e
    case Put(key, data, created, written) => FitsTime(g, data.ts)
    case Delete(key, at, created, written, older) => FitsTime(g, at)
    case Restart(period, adjust, now) =>
      var hs := SortByStart(Reopened(g.holders, period));
      adjust.Some? ==> SkipAllowed(hs, period, Some(StepOf(Starts(hs), now, period, adjust.value)),
                                   Max(g.reach, period))
  }

  lemma ApplyAllowed(g: GroupState, e: Event)
    requires (e.Restart? || Allowed(g)) && Fits(g, e)
    ensures Allowed(Apply(g, e))
  {
    match e
    case Put(key, data, created, written) => WriteAllowed(g, Stored(key, Found(data)), created, written);
    case Delete(key, at, created, written, older) => DeleteAllowed(g, key, at, created, written, older);
    case Restart(period, adjust, now) =>
  }

  /** Every event of the history fitted when it came. */
  ghost predicate AllFit(first: Seconds, events: seq<Event>) {
    events == [] ||
    var n := |events| - 1;
    AllFit(first, events[..n]) && Fits(Replay(first, events[..n]), events[n])
  }

  lemma {:induction false} HistoryAllowed(first: Seconds, events: seq<Event>)
    requires AllFit(first, events)
    ensures Allowed(Replay(first, events))
  {
    if events != [] {
      HistoryAllowed(first, events[..|events| - 1]);
      ApplyAllowed(Replay(first, events[..|events| - 1]), events[|events| - 1]);
    }
  }

  // ---- histories under given settings ----

  /** Writes whose times fit; restarts with the given period, at least the given step setting, and the clock ahead. */
  ghost predicate Settled(g: GroupState, period: Seconds, adjust: nat, e: Event) {
    match e
    case Put(key, data, created, written) => FitsTime(g, data.ts)
    case Delete(key, at, created, written, older) => FitsTime(g, at)
    case Restart(p, a, now) => p == period && (a.Some? ==> adjust <= a.value && ClockAhead(g.holders, p, now, a.value))
  }

  ghost predicate SettledHistory(first: Seconds, period: Seconds, adjust: nat, events: seq<Event>) {
    events == [] ||
    var n := |events| - 1;
    SettledHistory(first, period, adjust, events[..n]) && Settled(Replay(first, events[..n]), period, adjust, events[n])
  }

  /** The step makes up for the first period, whatever the partitions. */
  predicate Covering(first: Seconds, period: Seconds, adjust: nat) {
    first <= period + Max(adjust, 2 * period + 1) + 2
  }

  lemma SettledFitsOne(g: GroupState, first: Seconds, period: Seconds, adjust: nat, e: Event)
    requires Settled(g, period, adjust, e) && Covering(first, period, adjust) && g.reach <= Max(first, period)
    ensures Fits(g, e) && Apply(g, e).reach <= Max(first, period)
  {
    if e.Restart? && e.adjust.Some? {
      RestartAllowed(g, period, e.adjust.value, e.now);
    }
  }

  /** With settings that cover the first period, as the first period itself does, all events fit. */
  lemma {:induction false} SettledFits(first: Seconds, period: Seconds, adjust: nat, events: seq<Event>)
    requires SettledHistory(first, period, adjust, events) && Covering(first, period, adjust)
    ensures AllFit(first, events) && Replay(first, events).reach <= Max(first, period)
  {
    if events != [] {
      var n := |events| - 1;
      SettledFits(first, period, adjust, events[..n]);
      SettledFitsOne(Replay(first, events[..n]), first, period, adjust, events[n]);
    }
  }

  /** A possible result of scanning the group for a key, with some filter and without failing reads. */
  ghost predicate ScanOf(g: GroupState, key: Key, q: Progress) {
    exists possible :: NoFalseNegatives(g.holders, key, possible) && Scans(g.holders, key, g.step, possible, {}, 0, q)
  }

  /**
   Reads after any history of puts, forced deletes and restarts, whichever of their writes failed:
   `get` answers as a newest acknowledged operation says. If the operations on the key carry
   distinct timestamps this is the only right answer, and every `exist` agrees with it.
   */
  lemma HistoryReads(first: Seconds, events: seq<Event>, key: Key, get: Progress, exist: Progress)
    requires AllFit(first, events)
    requires ScanOf(Replay(first, events), key, get) && ScanOf(Replay(first, events), key, exist)
    ensures LatestWins(Replay(first, events).ops, key, get.Answer())
    ensures DistinctStamps(Replay(first, events).ops, key) ==>
              && (forall a | LatestWins(Replay(first, events).ops, key, a) :: a == get.Answer())
              && exist.Exists() == get.Answer().Data?
  {
    var g := Replay(first, events);
    HistoryKeeps(first, events);
    HistoryAllowed(first, events);
    ReadsRight(g, key, get);
    ReadsRight(g, key, exist);
    if DistinctStamps(g.ops, key) {
      forall a | LatestWins(g.ops, key, a) ensures a == get.Answer() {
        DistinctStampsAgree(g.ops, key, a, get.Answer());
      }
    }
  }

  /**
   The same with holders that cannot be read: the answer is data of a newest put among the readable
   records, unless no such put is newer than a readable tombstone.
   */
  lemma HistoryReadsReadable(first: Seconds, events: seq<Event>, key: Key, possible: set<nat>, fails: set<nat>,
                             g: GroupState, q: Progress)
    requires AllFit(first, events) && g == Replay(first, events)
    requires NoFalseNegatives(g.holders, key, possible) && Scans(g.holders, key, g.step, possible, fails, 0, q)
    ensures LatestReadable(Readable(g.holders, fails), key, q.Answer())
  {
    HistoryKeeps(first, events);
    HistoryAllowed(first, events);
    ScanIsRightOnReadable(g.holders, g.period, g.reach, key, g.step, possible, fails, q);
  }

  lemma ReadsRight(g: GroupState, key: Key, q: Progress)
    requires Consistent(g) && Allowed(g) && ScanOf(g, key, q)
    ensures LatestWins(g.ops, key, q.Answer())
  {
    var possible :| NoFalseNegatives(g.holders, key, possible) && Scans(g.holders, key, g.step, possible, {}, 0, q);
    ScanIsRight(g.holders, g.period, g.ops, g.reach, key, g.step, possible, q);
  }
}
