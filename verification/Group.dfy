/** A vdisk group on a normal disk, updated in place; every method does what the event of its name does to the state. */
module Group {
  import opened Types
  import opened Arith
  import opened StartTimestamp
  import opened Holders
  import opened Skipping
  import opened GroupHistory

  /**
   The operation was added to holder `i`, which covers its time and starts latest among those that
   do; it is an old holder or one created because none covered the time. No other holder changed.
   */
  ghost predicate PlacedAt(hs: seq<Holder>, hs': seq<Holder>, i: nat, s: Stored)
    requires i < |hs'|
  {
    && hs'[i].Covers(s.rec.Ts())
    && (forall j | 0 <= j < |hs'| && hs'[j].Covers(s.rec.Ts()) :: hs'[j].start <= hs'[i].start)
    && (if i < |hs|
        then |hs'| == |hs| && hs'[i] == hs[i].Add(s)
        else i == |hs| && |hs'| == |hs| + 1 && hs'[i].recs == {s} && forall h | h in hs :: !h.Covers(s.rec.Ts()))
    && forall j | 0 <= j < |hs| && j != i :: hs'[j] == hs[j]
  }

  lemma WritePlaces(g: GroupState, s: Stored, created: bool, written: bool)
    ensures var g' := Write(g, s, created, written);
            if Acknowledged(g, s, created, written)
            then var i := Locate(g.holders, g.period, s.rec.Ts(), created).1;
                 i.Some? && i.value < |g'.holders| && PlacedAt(g.holders, g'.holders, i.value, s)
            else AtMostOneAdded(g.holders, g'.holders, s.rec.Ts())
    ensures created && written && g.period <= DAY && s.rec.Ts() + g.period < CALENDAR_END ==>
              Acknowledged(g, s, created, written)
  {
    var (hs, i) := Locate(g.holders, g.period, s.rec.Ts(), created);
    LocateFinds(g.holders, g.period, s.rec.Ts(), created);
    if Acknowledged(g, s, created, written) {
      var hs' := Write(g, s, created, written).holders;
      assert hs' == AddAt(hs, i.value, s) && PlacedAt(g.holders, hs', i.value, s);
    }
  }

  /**
   The tombstone is where a put of its time would be; besides, exactly the holders that start before
   it, have the key and take the write got it.
   */
  ghost predicate DeletedAt(hs: seq<Holder>, hs': seq<Holder>, i: nat, s: Stored, older: nat -> bool)
    requires i < |hs'|
  {
    && hs'[i].Covers(s.rec.Ts()) && s in hs'[i].recs
    && (forall j | 0 <= j < |hs'| && hs'[j].Covers(s.rec.Ts()) :: hs'[j].start <= hs'[i].start)
    && (if i < |hs| then |hs'| == |hs| else i == |hs| && |hs'| == |hs| + 1)
    && forall j | 0 <= j < |hs| && j != i ::
         hs'[j] == if hs[j].start < hs'[i].start && hs[j].Has(s.key) && older(j) then hs[j].Add(s) else hs[j]
  }

  lemma BuriedIsDeleted(hs: seq<Holder>, mid: seq<Holder>, i: nat, s: Stored, older: nat -> bool, hs': seq<Holder>)
    requires i < |mid| && PlacedAt(hs, mid, i, s) && hs' == Bury(mid, mid[i].start, s, older)
    ensures DeletedAt(hs, hs', i, s, older)
  {
    assert hs'[i] == mid[i];
    forall j | 0 <= j < |hs'| ensures hs'[j].start == mid[j].start && hs'[j].end == mid[j].end {
      assert hs'[j] == mid[j] || hs'[j] == mid[j].Add(s);
    }
  }

  /** Holders from `i` on that start before `start`, have the key and take the write got the tombstone; no others. */
  ghost predicate TombstonesFrom(hs: seq<Holder>, hs': seq<Holder>, i: nat, start: nat, s: Stored, older: nat -> bool) {
    && |hs'| == |hs|
    && forall j | 0 <= j < |hs| ::
         hs'[j] == if i <= j && hs[j].start < start && hs[j].Has(s.key) && older(j) then hs[j].Add(s) else hs[j]
  }

  lemma OneMoreTombstone(hs: seq<Holder>, hs': seq<Holder>, i: nat, start: nat, s: Stored, older: nat -> bool)
    requires i < |hs| && TombstonesFrom(hs, hs', i + 1, start, s, older)
    ensures hs'[i] == hs[i]
    ensures TombstonesFrom(hs, if hs[i].start < start && hs[i].Has(s.key) && older(i) then AddAt(hs', i, s) else hs',
                           i, start, s, older)
  {
  }

  /** Found if and only if a right `get` answers with data. */
  ghost predicate ExistsRightly(ops: set<Stored>, key: Key, found: bool) {
    exists a :: LatestWins(ops, key, a) && found == a.Data?
  }

  /** Found if and only if a right `get` of what can be read answers with data. */
  ghost predicate ExistsReadably(left: set<Stored>, key: Key, found: bool) {
    exists a :: LatestReadable(left, key, a) && found == a.Data?
  }

  class Group {
    var holders: seq<Holder>
    var period: Seconds
    var step: Option<nat>          // safe_timestamp_step, when skipping is configured
    ghost var ops: set<Stored>     // acknowledged puts and deletes
    ghost var reach: nat           // longest period used so far
    ghost var steady: bool         // the period never changed

    ghost function Value(): GroupState
      reads this
    {
      GroupState(holders, period, step, ops, reach, steady)
    }

    ghost predicate Valid()
      reads this
    {
      Consistent(Value())
    }

    /** Reads may skip: the step covers the longest period used so far, also where a sum with it wraps. */
    ghost predicate MaySkip()
      reads this
    {
      Allowed(Value())
    }

    constructor (period: Seconds)
      ensures Valid() && MaySkip() && Value() == NewGroup(period)
    {
      holders, this.period, step := [], period, None;
      ops, reach, steady := {}, period, true;
    }

    method GetOrCreateActualHolder(ts: nat, created: bool) returns (r: Option<nat>)
      requires Valid()
      modifies this`holders
      ensures Valid() && (holders, r) == Locate(old(holders), period, ts, created)
      ensures AtMostOneAdded(old(holders), holders, ts) && (r.None? ==> holders == old(holders))
      ensures r.Some? ==> r.value < |holders| && holders[r.value].Covers(ts)
      ensures r.Some? ==> forall j | 0 <= j < |holders| && holders[j].Covers(ts) ::
                holders[j].start <= holders[r.value].start
      ensures created && period <= DAY && ts + period < CALENDAR_END ==> r.Some?
    {
      LocateFinds(holders, period, ts, created);
      LocateKeeps(Value(), ts, created);
      r := FindActualHolder(holders, ts);
      if r.Some? || !created {
        return;
      }
      var start := GetStartTimestamp(period, ts, true);
      if start.Panic? {
        return;
      }
      holders := holders + [Holder(start.ts, start.ts + period, {})];
      r := Some(|holders| - 1);
    }

    /** The write shared by put and forced delete: find or create the partition, then record the operation. */
    method WriteActual(s: Stored, created: bool, written: bool) returns (i: Option<nat>)
      requires Valid()
      modifies this`holders, this`ops
      ensures Valid() && Value() == Write(old(Value()), s, created, written)
      ensures i.Some? == Acknowledged(old(Value()), s, created, written)
      ensures i.Some? ==> i == Locate(old(holders), period, s.rec.Ts(), created).1
    {
      WriteKeeps(Value(), s, created, written);
      i := GetOrCreateActualHolder(s.rec.Ts(), created);
      if i.None? || !written {
        return None;
      }
      holders := holders[i.value := holders[i.value].Add(s)];
      ops := ops + {s};
    }

    /** `Group::put`: an acknowledged put is an operation from then on; a failed one may leave an empty holder. */
    method Put(key: Key, data: BobData, created: bool, written: bool) returns (ok: bool)
      requires Valid()
      modifies this`holders, this`ops
      ensures Valid() && Value() == Apply(old(Value()), Event.Put(key, data, created, written))
      ensures ops == if ok then old(ops) + {Stored(key, Found(data))} else old(ops)
      ensures if ok then exists i | 0 <= i < |holders| :: PlacedAt(old(holders), holders, i, Stored(key, Found(data)))
              else AtMostOneAdded(old(holders), holders, data.ts)
      ensures created && written && period <= DAY && data.ts + period < CALENDAR_END ==> ok
      ensures old(MaySkip()) && (step.Some? ==> data.ts + period + step.value < U64) ==> MaySkip()
    {
      var s := Stored(key, Found(data));
      WritePlaces(Value(), s, created, written);
      if MaySkip() && FitsTime(Value(), data.ts) {
        WriteAllowed(Value(), s, created, written);
      }
      var i := WriteActual(s, created, written);
      ok := i.Some?;
    }

    /** Tombstones in the holders before the actual one; each write may fail, and only present keys get one. */
    method DeleteInHoldersBefore(start: nat, s: Stored, older: nat -> bool)
      modifies this`holders
      ensures holders == Bury(old(holders), start, s, older)
    {
      var i := |holders|;
      while i > 0
        invariant 0 <= i <= |holders| && TombstonesFrom(old(holders), holders, i, start, s, older)
      {
        i := i - 1;
        OneMoreTombstone(old(holders), holders, i, start, s, older);
        if holders[i].start < start && holders[i].Has(s.key) && older(i) {
          holders := holders[i := holders[i].Add(s)];
        }
      }
    }

    /** `Group::delete` with force. Only the actual holder decides; `older` says which later writes succeed. */
    method Delete(key: Key, ts: nat, created: bool, written: bool, older: nat -> bool) returns (ok: bool)
      requires Valid()
      modifies this`holders, this`ops
      ensures Valid() && Value() == Apply(old(Value()), Event.Delete(key, ts, created, written, older))
      ensures ops == if ok then old(ops) + {Stored(key, Deleted(ts))} else old(ops)
      ensures if ok then exists i | 0 <= i < |holders| ::
                           DeletedAt(old(holders), holders, i, Stored(key, Deleted(ts)), older)
              else AtMostOneAdded(old(holders), holders, ts)
      ensures created && written && period <= DAY && ts + period < CALENDAR_END ==> ok
      ensures old(MaySkip()) && (step.Some? ==> ts + period + step.value < U64) ==> MaySkip()
    {
      var s := Stored(key, Deleted(ts));
      ghost var g := Value();
      var i := WriteActual(s, created, written);
      ok := i.Some?;
      WritePlaces(g, s, created, written);
      if ok {
        LocateFinds(g.holders, period, ts, created);
        ghost var mid := holders;
        DeleteInHoldersBefore(holders[i.value].start, s, older);
        BuriedIsDeleted(g.holders, mid, i.value, s, older, holders);
      }
      assert Value() == Apply(g, Event.Delete(key, ts, created, written, older));
      ApplyKeeps(g, Event.Delete(key, ts, created, written, older));
      if Allowed(g) && FitsTime(g, ts) {
        DeleteAllowed(g, key, ts, created, written, older);
      }
    }

    /** `Group::run` after a restart, possibly with another period and skip setting. */
    method Restart(newPeriod: Seconds, adjust: Option<nat>, now: nat)
      requires Valid()
      modifies this
      ensures Valid() && Value() == Apply(old(Value()), Event.Restart(newPeriod, adjust, now))
      ensures ops == old(ops) && period == newPeriod && reach == Max(old(reach), newPeriod)
      ensures step == if adjust.None? then None else Some(StepOf(Starts(holders), now, period, adjust.value))
      ensures adjust.None? ==> MaySkip()
      ensures adjust.Some? && ClockAhead(old(holders), newPeriod, now, adjust.value) ==>
                (MaySkip() <==> SkipSafe(period, step, reach))
    {
      ghost var g := Value();
      var hs := SortByStart(Reopened(holders, newPeriod));
      steady := steady && newPeriod == period;
      holders, period, reach := hs, newPeriod, Max(reach, newPeriod);
      step := SafeTimestampStep(Starts(hs), now, newPeriod, adjust);
      assert Value() == Apply(g, Event.Restart(newPeriod, adjust, now));
      RestartKeeps(g, newPeriod, adjust, now);
      if adjust.Some? && ClockAhead(g.holders, newPeriod, now, adjust.value) {
        RestartAllowed(g, newPeriod, adjust.value, now);
      }
    }

    /**
     `Group::get`. Data is never made up; without failing reads the answer is that of a newest
     operation. Whatever fails, a newest put that can be read is returned unless a readable tombstone
     is as new; not-found is only said if every failing holder lies too far before a found tombstone.
     */
    method Get(key: Key, possible: set<nat>, fails: set<nat>) returns (a: Answer, ghost q: Progress)
      requires Valid() && NoFalseNegatives(holders, key, possible)
      ensures Scans(holders, key, step, possible, fails, 0, q) && a == q.Answer()
      ensures a.Data? ==> Stored(key, Found(a.data)) in ops
      ensures fails == {} && MaySkip() ==> LatestWins(ops, key, a)
      ensures MaySkip() ==> LatestReadable(Readable(holders, fails), key, a)
      ensures MaySkip() ==> forall d | NewestReadablePut(Readable(holders, fails), key, d) ::
                a.Data? && Newest(Readable(holders, fails), key, Found(a.data))
      ensures a.ReadFailed? ==> exists j | 0 <= j < |holders| :: j in possible && j in fails
      ensures a.NotFound? ==> forall j | 0 <= j < |holders| && j in possible && j in fails ::
                q.best.Some? && !ShouldCheck(holders[j], step, q.MaxTs())
    {
      a, q := Holders.Get(holders, step, key, possible, fails);
      ScanReadsOps(holders, key, step, possible, fails, 0, q, ops);
      ScanReadsReadable(holders, key, step, possible, fails, 0, q);
      if MaySkip() {
        ReadableRight(key, possible, fails, q);
      }
      if fails == {} {
        NoFailure(holders, key, step, possible, 0, q);
        if MaySkip() {
          ScanIsRight(holders, period, ops, reach, key, step, possible, q);
        }
      }
      if a.NotFound? {
        forall j | 0 <= j < |holders| && j in possible && j in fails
          ensures q.best.Some? && !ShouldCheck(holders[j], step, q.MaxTs())
        {
          ScanSkipsFailures(holders, key, step, possible, fails, 0, q, j);
        }
      }
    }

    lemma ReadableRight(key: Key, possible: set<nat>, fails: set<nat>, q: Progress)
      requires Valid() && MaySkip() && NoFalseNegatives(holders, key, possible)
      requires Scans(holders, key, step, possible, fails, 0, q)
      ensures LatestReadable(Readable(holders, fails), key, q.Answer())
      ensures ExistsReadably(Readable(holders, fails), key, q.Exists())
      ensures forall d | NewestReadablePut(Readable(holders, fails), key, d) ::
                q.Answer().Data? && Newest(Readable(holders, fails), key, Found(q.Answer().data))
    {
      var left := Readable(holders, fails);
      ScanIsRightOnReadable(holders, period, reach, key, step, possible, fails, q);
      forall d | NewestReadablePut(left, key, d)
        ensures q.Answer().Data? && Newest(left, key, Found(q.Answer().data))
      {
        NewestPutIsAnswered(left, key, q.Answer(), d);
      }
    }

    /** The answer for one key is right, and right on what can be read. */
    ghost predicate ExistAnswer(fails: set<nat>, key: Key, found: bool)
      reads this
    {
      && (fails == {} && MaySkip() ==> ExistsRightly(ops, key, found))
      && (MaySkip() ==> ExistsReadably(Readable(holders, fails), key, found))
    }

    method ExistOne(key: Key, possible: set<nat>, fails: set<nat>) returns (found: bool)
      requires Valid() && NoFalseNegatives(holders, key, possible)
      ensures ExistAnswer(fails, key, found)
    {
      ghost var q;
      found, q := ExistKey(holders, step, key, possible, fails);
      if MaySkip() {
        ReadableRight(key, possible, fails, q);
        if fails == {} {
          ScanIsRight(holders, period, ops, reach, key, step, possible, q);
          assert ExistsRightly(ops, key, found);
        }
      }
    }

    /** `Group::exist`, key by key: found exactly as a right `get` would answer with data. */
    method Exist(keys: seq<Key>, possible: Key -> set<nat>, fails: set<nat>) returns (exist: seq<bool>)
      requires Valid() && forall k | k in keys :: NoFalseNegatives(holders, k, possible(k))
      ensures |exist| == |keys| && forall i | 0 <= i < |keys| :: ExistAnswer(fails, keys[i], exist[i])
    {
      exist := [];
      for i := 0 to |keys|
        invariant |exist| == i && forall j | 0 <= j < i :: ExistAnswer(fails, keys[j], exist[j])
      {
        var found := ExistOne(keys[i], possible(keys[i]), fails);
        exist := exist + [found];
      }
    }
  }

  /** Every history is one of calls on a new group. */
  method Run(first: Seconds, events: seq<Event>) returns (g: Group)
    ensures fresh(g) && g.Valid() && g.Value() == Replay(first, events)
  {
    g := new Group(first);
    for k := 0 to |events|
      invariant fresh(g) && g.Valid() && g.Value() == Replay(first, events[..k])
    {
      assert events[..k + 1][..k] == events[..k];
      match events[k]
      case Put(key, data, created, written) => var _ := g.Put(key, data, created, written);
      case Delete(key, at, created, written, older) => var _ := g.Delete(key, at, created, written, older);
      case Restart(period, adjust, now) => g.Restart(period, adjust, now);
    }
    assert events[..|events|] == events;
  }
}
