/**
 Reading a time-partitioned group. A holder covers an interval of timestamps; a put or a forced
 delete is recorded in a holder for its time, and a delete may also leave tombstones in older
 holders. A read scans the holders from the last to the first, keeps the newest record, and skips
 holders that lie too far in the past. The answer should be that of a newest operation.
 */
module Holders {
  import opened Types
  import opened Arith

  /** A record of a key: data, or a tombstone. */
  datatype Rec = Found(data: BobData) | Deleted(at: nat) {
    function Ts(): nat {
      match this
      case Found(data) => data.ts
      case Deleted(at) => at
    }
  }

  datatype Stored = Stored(key: Key, rec: Rec)

  /** A partition of the group. Of its records, only a newest one per key can be read back. */
  datatype Holder = Holder(start: nat, end: nat, recs: set<Stored>) {
    predicate Covers(ts: nat) {
      start <= ts < end
    }

    function Add(s: Stored): Holder {
      this.(recs := recs + {s})
    }

    predicate Has(key: Key) {
      exists s | s in recs :: s.key == key
    }
  }

  /** Among `ops`, no operation on the key is newer than `rec`, which is one of them. */
  ghost predicate Newest(ops: set<Stored>, key: Key, rec: Rec) {
    Stored(key, rec) in ops && forall s | s in ops && s.key == key :: s.rec.Ts() <= rec.Ts()
  }

  /** The pearl contract of reading one holder; on equal timestamps any of the records may come back. */
  ghost predicate Reads(h: Holder, key: Key, r: Option<Rec>) {
    match r
    case None => !h.Has(key)
    case Some(rec) => Newest(h.recs, key, rec)
  }

  method ReadHolder(h: Holder, key: Key) returns (r: Option<Rec>)
    ensures Reads(h, key, r)
  {
    r := None;
    var left := h.recs;
    while left != {}
      invariant left <= h.recs
      invariant r.None? ==> forall s | s in h.recs - left :: s.key != key
      invariant r.Some? ==> Newest(h.recs - left, key, r.value)
      decreases left
    {
      var s :| s in left;
      left := left - {s};
      if s.key == key && (r.None? || s.rec.Ts() > r.value.Ts()) {
        r := Some(s.rec);
      }
    }
    assert h.recs - left == h.recs;
  }

  /** The covering holder with the latest start, the first such one. */
  function Actual(holders: seq<Holder>, ts: nat): (r: Option<nat>)
    ensures r.None? <==> forall h | h in holders :: !h.Covers(ts)
    ensures r.Some? ==> r.value < |holders| && holders[r.value].Covers(ts)
    ensures r.Some? ==> forall j | 0 <= j < |holders| && holders[j].Covers(ts) ::
              holders[j].start <= holders[r.value].start && (j < r.value ==> holders[j].start < holders[r.value].start)
  {
    if holders == [] then None
    else
      var n := |holders| - 1;
      var r := Actual(holders[..n], ts);
      assert holders == holders[..n] + [holders[n]];
      if holders[n].Covers(ts) && (r.None? || holders[n].start > holders[r.value].start) then Some(n) else r
  }

  /** `find_actual_holder`. */
  method FindActualHolder(holders: seq<Holder>, ts: nat) returns (r: Option<nat>)
    ensures r == Actual(holders, ts)
    ensures r.None? <==> forall h | h in holders :: !h.Covers(ts)
    ensures r.Some? ==> r.value < |holders| && holders[r.value].Covers(ts)
    ensures r.Some? ==> forall j | 0 <= j < |holders| && holders[j].Covers(ts) ::
              holders[j].start <= holders[r.value].start && (j < r.value ==> holders[j].start < holders[r.value].start)
  {
    r := None;
    for i := 0 to |holders|
      invariant r == Actual(holders[..i], ts)
    {
      assert holders[..i + 1][..i] == holders[..i];
      if holders[i].Covers(ts) && (r.None? || holders[i].start > holders[r.value].start) {
        r := Some(i);
      }
    }
    assert holders[..|holders|] == holders;
  }

  // ---- the scan ----

  /** `should_check_holder`; the sum is one of unsigned 64-bit numbers and wraps around. */
  predicate ShouldCheck(h: Holder, step: Option<nat>, maxTs: Option<nat>) {
    maxTs.None? || step.None? || (h.end + step.value) % U64 >= maxTs.value
  }

  /** The best record so far, which is what `max_timestamp` and `result` hold, and whether a read failed. */
  datatype Progress = Progress(best: Option<Rec>, failed: bool) {
    function MaxTs(): Option<nat> {
      match best
      case None => None
      case Some(rec) => Some(rec.Ts())
    }

    function Better(r: Option<Rec>): Progress {
      if r.Some? && (best.None? || r.value.Ts() > best.value.Ts()) then this.(best := r) else this
    }

    predicate Exists() {
      best.Some? && best.value.Found?
    }

    function Answer(): Answer {
      if Exists() then Data(best.value.data) else if failed then ReadFailed else NotFound
    }
  }

  datatype Answer = Data(data: BobData) | NotFound | ReadFailed

  const NOTHING_READ := Progress(None, false)

  /** One holder of the scan. */
  ghost predicate Visits(h: Holder, possible: bool, fails: bool, key: Key, step: Option<nat>, p: Progress,
                         q: Progress) {
    if !possible || !ShouldCheck(h, step, p.MaxTs()) then q == p
    else if fails then q == p.(failed := true)
    else exists r :: Reads(h, key, r) && q == p.Better(r)
  }

  /** What the scan may have found when it has gone through the holders from the last down to the `i`-th. */
  ghost predicate Scans(holders: seq<Holder>, key: Key, step: Option<nat>, possible: set<nat>, fails: set<nat>, i: nat,
                        q: Progress)
    decreases |holders| - i
  {
    if i >= |holders| then q == NOTHING_READ
    else exists p :: Scans(holders, key, step, possible, fails, i + 1, p)
                     && Visits(holders[i], i in possible, i in fails, key, step, p, q)
  }

  lemma ScanOne(holders: seq<Holder>, key: Key, step: Option<nat>, possible: set<nat>, fails: set<nat>, i: nat,
                p: Progress, q: Progress)
    requires i < |holders| && Scans(holders, key, step, possible, fails, i + 1, p)
    requires Visits(holders[i], i in possible, i in fails, key, step, p, q)
    ensures Scans(holders, key, step, possible, fails, i, q)
  {
  }

  /** The filter may name holders without the key but never leaves out one that has it. */
  ghost predicate NoFalseNegatives(holders: seq<Holder>, key: Key, possible: set<nat>) {
    forall i | 0 <= i < |holders| && holders[i].Has(key) :: i in possible
  }

  /** `Group::get` over the holders. */
  method Get(holders: seq<Holder>, step: Option<nat>, key: Key, possible: set<nat>, fails: set<nat>)
    returns (a: Answer, ghost q: Progress)
    ensures Scans(holders, key, step, possible, fails, 0, q) && a == q.Answer()
    ensures RightOnReadable(holders, step, key, possible, fails, a)
  {
    var hasError := false;
    var maxTs: Option<nat>, result: Option<BobData> := None, None;
    q := NOTHING_READ;
    var i := |holders|;
    while i > 0
      invariant 0 <= i <= |holders| && Scans(holders, key, step, possible, fails, i, q)
      invariant maxTs == q.MaxTs() && hasError == q.failed
      invariant result == if q.Exists() then Some(q.best.value.data) else None
    {
      i := i - 1;
      ghost var p := q;
      if i in possible && ShouldCheck(holders[i], step, maxTs) {
        if i in fails {
          hasError := true;
          q := p.(failed := true);
        } else {
          var r := ReadHolder(holders[i], key);
          if r.Some? && (maxTs.None? || r.value.Ts() > maxTs.value) {
            maxTs := Some(r.value.Ts());
            result := match r.value case Found(d) => Some(d) case Deleted(_) => None;
          }
          q := p.Better(r);
        }
      }
      assert Visits(holders[i], i in possible, i in fails, key, step, p, q);
    }
    a := match result case Some(d) => Data(d) case None => if hasError then ReadFailed else NotFound;
    GetsReadable(holders, step, key, possible, fails, q);
  }

  /** `Group::exist` for one key, by the same scan. A failed read counts as not found. */
  method ExistKey(holders: seq<Holder>, step: Option<nat>, key: Key, possible: set<nat>, fails: set<nat>)
    returns (found: bool, ghost q: Progress)
    ensures Scans(holders, key, step, possible, fails, 0, q) && found == q.Exists()
    ensures exists a: Answer :: found == a.Data? && RightOnReadable(holders, step, key, possible, fails, a)
  {
    var maxTs: Option<nat> := None;
    found := false;
    q := NOTHING_READ;
    var i := |holders|;
    while i > 0
      invariant 0 <= i <= |holders| && Scans(holders, key, step, possible, fails, i, q)
      invariant maxTs == q.MaxTs() && found == q.Exists()
    {
      i := i - 1;
      ghost var p := q;
      if i in possible && ShouldCheck(holders[i], step, maxTs) {
        q := p.(failed := true);
        if i !in fails {
          var r := ReadHolder(holders[i], key);
          if r.Some? && (maxTs.None? || r.value.Ts() > maxTs.value) {
            maxTs := Some(r.value.Ts());
            found := r.value.Found?;
          }
          q := p.Better(r);
        }
      }
      assert Visits(holders[i], i in possible, i in fails, key, step, p, q);
    }
    GetsReadable(holders, step, key, possible, fails, q);
  }

  // ---- what the holders record ----

  /** The holder in which an operation is sure to be found; its interval was `reach` long when it was written. */
  ghost predicate Home(h: Holder, s: Stored, reach: nat) {
    s in h.recs && h.start <= s.rec.Ts() < h.start + reach
  }

  /**
   Holders and acknowledged operations agree: nothing else is recorded, and every operation is
   recorded in a holder for its time. Tombstones elsewhere are not needed.
   */
  ghost predicate Recorded(holders: seq<Holder>, period: nat, ops: set<Stored>, reach: nat) {
    && (forall h | h in holders :: h.end == h.start + period && h.recs <= ops)
    && (forall s | s in ops :: exists h | h in holders :: Home(h, s, reach))
  }

  /** Skipping needs a step that makes up for partitions that were longer when they were written. */
  ghost predicate SkipSafe(period: nat, step: Option<nat>, reach: nat) {
    step.None? || reach <= period + step.value + 2
  }

  /** Whatever was recorded in the holder while it covered `reach` seconds, the step does not skip it wrongly. */
  ghost predicate Reached(h: Holder, step: nat, reach: nat) {
    h.start + reach <= (h.end + step) % U64 + 2
  }

  ghost predicate SkipAllowed(holders: seq<Holder>, period: nat, step: Option<nat>, reach: nat) {
    SkipSafe(period, step, reach) && (step.Some? ==> forall h | h in holders :: Reached(h, step.value, reach))
  }

  /** What the plain "newest operation wins" store answers. */
  ghost predicate LatestWins(ops: set<Stored>, key: Key, a: Answer) {
    match a
    case Data(d) => Newest(ops, key, Found(d))
    case NotFound => (forall s | s in ops :: s.key != key) || exists t :: Newest(ops, key, Deleted(t))
    case ReadFailed => false
  }

  /** The best record is one of the operations. */
  lemma {:induction false} ScanReadsOps(holders: seq<Holder>, key: Key, step: Option<nat>, possible: set<nat>,
                                        fails: set<nat>, i: nat, q: Progress, ops: set<Stored>)
    requires Scans(holders, key, step, possible, fails, i, q) && forall h | h in holders :: h.recs <= ops
    ensures q.best.Some? ==> Stored(key, q.best.value) in ops
    decreases |holders| - i
  {
    if i < |holders| {
      var p :| Scans(holders, key, step, possible, fails, i + 1, p)
               && Visits(holders[i], i in possible, i in fails, key, step, p, q);
      ScanReadsOps(holders, key, step, possible, fails, i + 1, p, ops);
      assert holders[i] in holders;
    }
  }

  lemma VisitImproves(h: Holder, possible: bool, fails: bool, key: Key, step: Option<nat>, p: Progress, q: Progress)
    requires Visits(h, possible, fails, key, step, p, q)
    ensures p.best.Some? ==> q.best.Some? && p.best.value.Ts() <= q.best.value.Ts()
    ensures p.failed ==> q.failed
    ensures !fails && possible ==> forall s | s in h.recs && s.key == key ::
              q.best.Some? && (s.rec.Ts() <= q.best.value.Ts() || !ShouldCheck(h, step, q.MaxTs()))
    ensures fails && possible && !q.failed ==> q.best.Some? && !ShouldCheck(h, step, q.MaxTs())
  {
  }

  /** A record in a scanned holder is not newer than the best one, unless its holder is too old for the best one. */
  lemma {:induction false} ScanCovers(holders: seq<Holder>, key: Key, step: Option<nat>, possible: set<nat>,
                                      fails: set<nat>, i: nat, q: Progress, j: nat, s: Stored)
    requires Scans(holders, key, step, possible, fails, i, q) && NoFalseNegatives(holders, key, possible)
    requires i <= j < |holders| && j !in fails && s in holders[j].recs && s.key == key
    ensures q.best.Some? && (s.rec.Ts() <= q.best.value.Ts() || !ShouldCheck(holders[j], step, q.MaxTs()))
    decreases |holders| - i
  {
    var p :| Scans(holders, key, step, possible, fails, i + 1, p)
             && Visits(holders[i], i in possible, i in fails, key, step, p, q);
    VisitImproves(holders[i], i in possible, i in fails, key, step, p, q);
    if i < j {
      ScanCovers(holders, key, step, possible, fails, i + 1, p, j, s);
    } else {
      assert holders[j].Has(key);
    }
  }

  /** Not-found is only said if every failing holder lies too far before a found tombstone. */
  lemma {:induction false} ScanSkipsFailures(holders: seq<Holder>, key: Key, step: Option<nat>, possible: set<nat>,
                                             fails: set<nat>, i: nat, q: Progress, j: nat)
    requires Scans(holders, key, step, possible, fails, i, q) && !q.failed
    requires i <= j < |holders| && j in possible && j in fails
    ensures q.best.Some? && !ShouldCheck(holders[j], step, q.MaxTs())
    decreases |holders| - i
  {
    var p :| Scans(holders, key, step, possible, fails, i + 1, p)
             && Visits(holders[i], i in possible, i in fails, key, step, p, q);
    VisitImproves(holders[i], i in possible, i in fails, key, step, p, q);
    if i < j {
      ScanSkipsFailures(holders, key, step, possible, fails, i + 1, p, j);
    }
  }

  lemma {:induction false} NoFailure(holders: seq<Holder>, key: Key, step: Option<nat>, possible: set<nat>, i: nat,
                                     q: Progress)
    requires Scans(holders, key, step, possible, {}, i, q)
    ensures !q.failed
    decreases |holders| - i
  {
    if i < |holders| {
      var p :| Scans(holders, key, step, possible, {}, i + 1, p)
               && Visits(holders[i], i in possible, i in {}, key, step, p, q);
      NoFailure(holders, key, step, possible, i + 1, p);
    }
  }

  /** A full scan cannot miss the newest operation: its home is neither filtered out nor wrongly skipped. */
  lemma ScanFindsNewest(holders: seq<Holder>, period: nat, ops: set<Stored>, reach: nat, key: Key,
                        step: Option<nat>, possible: set<nat>, q: Progress, s: Stored)
    requires Recorded(holders, period, ops, reach) && SkipAllowed(holders, period, step, reach)
    requires NoFalseNegatives(holders, key, possible) && Scans(holders, key, step, possible, {}, 0, q)
    requires s in ops && s.key == key
    ensures q.best.Some? && s.rec.Ts() <= q.best.value.Ts()
  {
    var h :| h in holders && Home(h, s, reach);
    var j :| 0 <= j < |holders| && holders[j] == h;
    ScanCovers(holders, key, step, possible, {}, 0, q, j, s);
    if !ShouldCheck(h, step, q.MaxTs()) {
      assert Reached(h, step.value, reach);
    }
  }

  /** A scan without failing reads answers as a newest operation says, for `get` and for `exist`. */
  lemma ScanIsRight(holders: seq<Holder>, period: nat, ops: set<Stored>, reach: nat, key: Key,
                    step: Option<nat>, possible: set<nat>, q: Progress)
    requires Recorded(holders, period, ops, reach) && SkipAllowed(holders, period, step, reach)
    requires NoFalseNegatives(holders, key, possible) && Scans(holders, key, step, possible, {}, 0, q)
    ensures LatestWins(ops, key, q.Answer())
  {
    ScanReadsOps(holders, key, step, possible, {}, 0, q, ops);
    NoFailure(holders, key, step, possible, 0, q);
    forall s | s in ops && s.key == key ensures q.best.Some? && s.rec.Ts() <= q.best.value.Ts() {
      ScanFindsNewest(holders, period, ops, reach, key, step, possible, q, s);
    }
  }

  // ---- scans in which some holders cannot be read ----

  /** Puts are only in holders for their time; copies elsewhere are tombstones. */
  ghost predicate PutsAtHome(holders: seq<Holder>, reach: nat) {
    forall h, s | h in holders && s in h.recs && s.rec.Found? :: Home(h, s, reach)
  }

  /** What the holders that can be read have. */
  ghost function Readable(holders: seq<Holder>, fails: set<nat>): set<Stored> {
    set j: nat, s | j < |holders| && j !in fails && s in holders[j].recs :: s
  }

  /**
   Data is a newest put among the readable records. Any other answer means that no readable put of
   the key is newer than some readable tombstone, or that there is none.
   */
  ghost predicate LatestReadable(left: set<Stored>, key: Key, a: Answer) {
    match a
    case Data(d) => Stored(key, Found(d)) in left && NoNewerPut(left, key, d.ts)
    case _ =>
      || (forall s | s in left :: s.key != key)
      || exists t :: Stored(key, Deleted(t)) in left && NoNewerPut(left, key, t)
  }

  /** Wherever puts are at home and reads may skip, the answer is right on what can be read. */
  ghost predicate RightOnReadable(holders: seq<Holder>, step: Option<nat>, key: Key, possible: set<nat>,
                                  fails: set<nat>, a: Answer) {
    NoFalseNegatives(holders, key, possible) ==>
      forall period: nat, reach: nat | PutsAtHome(holders, reach) && SkipAllowed(holders, period, step, reach) ::
        LatestReadable(Readable(holders, fails), key, a)
  }

  lemma GetsReadable(holders: seq<Holder>, step: Option<nat>, key: Key, possible: set<nat>, fails: set<nat>,
                     q: Progress)
    requires Scans(holders, key, step, possible, fails, 0, q)
    ensures RightOnReadable(holders, step, key, possible, fails, q.Answer()) && q.Exists() == q.Answer().Data?
  {
    if NoFalseNegatives(holders, key, possible) {
      forall period: nat, reach: nat | PutsAtHome(holders, reach) && SkipAllowed(holders, period, step, reach)
        ensures LatestReadable(Readable(holders, fails), key, q.Answer())
      {
        ScanIsRightOnReadable(holders, period, reach, key, step, possible, fails, q);
      }
    }
  }

  ghost predicate NoNewerPut(left: set<Stored>, key: Key, ts: nat) {
    forall s | s in left && s.key == key && s.rec.Found? :: s.rec.Ts() <= ts
  }

  /** A newest readable record is this put, and no readable tombstone is as new. */
  ghost predicate NewestReadablePut(left: set<Stored>, key: Key, d: BobData) {
    Newest(left, key, Found(d)) && forall t: nat | Stored(key, Deleted(t)) in left :: t < d.ts
  }

  /** Then only data of a newest readable record can be the answer. */
  lemma NewestPutIsAnswered(left: set<Stored>, key: Key, a: Answer, d: BobData)
    requires LatestReadable(left, key, a) && NewestReadablePut(left, key, d)
    ensures a.Data? && Newest(left, key, Found(a.data))
  {
    forall t: nat | NoNewerPut(left, key, t) ensures d.ts <= t {
      assert Stored(key, Found(d)).rec.Ts() <= t;
    }
  }

  lemma {:induction false} ScanReadsReadable(holders: seq<Holder>, key: Key, step: Option<nat>, possible: set<nat>,
                                             fails: set<nat>, i: nat, q: Progress)
    requires Scans(holders, key, step, possible, fails, i, q)
    ensures q.best.Some? ==> Stored(key, q.best.value) in Readable(holders, fails)
    ensures q.failed ==> exists j: nat | i <= j < |holders| :: j in possible && j in fails
    decreases |holders| - i
  {
    if i < |holders| {
      var p :| Scans(holders, key, step, possible, fails, i + 1, p)
               && Visits(holders[i], i in possible, i in fails, key, step, p, q);
      ScanReadsReadable(holders, key, step, possible, fails, i + 1, p);
    }
  }

  /** No put in a readable holder is newer than the best record of the scan. */
  lemma ScanFindsReadable(holders: seq<Holder>, period: nat, reach: nat, key: Key, step: Option<nat>,
                          possible: set<nat>, fails: set<nat>, q: Progress, s: Stored)
    requires PutsAtHome(holders, reach) && SkipAllowed(holders, period, step, reach)
    requires NoFalseNegatives(holders, key, possible) && Scans(holders, key, step, possible, fails, 0, q)
    requires s in Readable(holders, fails) && s.key == key
    ensures q.best.Some? && (s.rec.Found? ==> s.rec.Ts() <= q.best.value.Ts())
  {
    var j: nat :| j < |holders| && j !in fails && s in holders[j].recs;
    var h := holders[j];
    ScanCovers(holders, key, step, possible, fails, 0, q, j, s);
    if s.rec.Found? && !ShouldCheck(h, step, q.MaxTs()) {
      assert h in holders && Home(h, s, reach) && Reached(h, step.value, reach);
    }
  }

  /** Whatever holders fail, the scan answers with a newest readable put, unless a readable tombstone hides it. */
  lemma ScanIsRightOnReadable(holders: seq<Holder>, period: nat, reach: nat, key: Key, step: Option<nat>,
                              possible: set<nat>, fails: set<nat>, q: Progress)
    requires PutsAtHome(holders, reach) && SkipAllowed(holders, period, step, reach)
    requires NoFalseNegatives(holders, key, possible) && Scans(holders, key, step, possible, fails, 0, q)
    ensures LatestReadable(Readable(holders, fails), key, q.Answer())
    ensures exists a :: LatestReadable(Readable(holders, fails), key, a) && q.Exists() == a.Data?
  {
    var left := Readable(holders, fails);
    ScanReadsReadable(holders, key, step, possible, fails, 0, q);
    forall s | s in left && s.key == key
      ensures q.best.Some? && (s.rec.Found? ==> s.rec.Ts() <= q.best.value.Ts())
    {
      ScanFindsReadable(holders, period, reach, key, step, possible, fails, q, s);
    }
    if q.best.Some? {
      assert NoNewerPut(left, key, q.best.value.Ts());
    }
    assert LatestReadable(left, key, q.Answer()) && q.Exists() == q.Answer().Data?;
  }

  ghost predicate DistinctStamps(ops: set<Stored>, key: Key) {
    forall s, s' | s in ops && s' in ops && s.key == key == s'.key && s.rec.Ts() == s'.rec.Ts() :: s == s'
  }

  /** When the operations on a key carry distinct timestamps, there is one right answer. */
  lemma DistinctStampsAgree(ops: set<Stored>, key: Key, a: Answer, b: Answer)
    requires DistinctStamps(ops, key) && LatestWins(ops, key, a) && LatestWins(ops, key, b)
    ensures a == b
  {
    forall x, y | Newest(ops, key, x) && Newest(ops, key, y) ensures x == y {
      assert Stored(key, x) in ops && Stored(key, y) in ops;
    }
  }
}
