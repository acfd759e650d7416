/** Reads of a key that was overwritten: when they may return an older record than an acknowledged put. */
module Overwrites {
  import opened Types
  import opened Topology
  import opened Stores
  import opened PutProtocol
  import opened PutInvariant
  import opened ClusterGet
  import opened Durability

  // ---- an older record is read after an acknowledged put ----

  /** A cluster whose only node `a` keeps two replicas of `key`; the first disk has an older record. */
  ghost predicate TwoDisks(m: Mapper, st: Stores, a: NodeName, d: DiskName, e: DiskName, key: Key, early: BobData) {
    && m.Valid(1) && m.nodes == [a] && st.Keys == Elems(m.nodes) && d != e
    && st[a] == NodeStore(map[(d, key) := early], map[], map[], map[])
    && m.Targets(key) == [a] && Paths(m.ReplicasFor(key), a) == [d, e]
  }

  lemma TwoDisksExist(a: NodeName, d: DiskName, e: DiskName, key: Key, early: BobData) returns (m: Mapper, st: Stores)
    requires d != e
    ensures TwoDisks(m, st, a, d, e, key, early)
  {
    var rs := [Replica(a, d), Replica(a, e)];
    m := Mapper([a], map[0 := VDisk(0, rs)]);
    st := map[a := NodeStore(map[(d, key) := early], map[], map[], map[])];
    assert m.vdisks.Keys == {0};
    assert rs[..1] == [Replica(a, d)] && rs[..1][..0] == [] && rs[0] in rs && [a][..0] == [];
    assert Paths(rs[..1], a) == Paths(rs[..1][..0], a) + [d] == [d];
    assert Paths(rs, a) == Paths(rs[..1], a) + [e];
    assert NodesWith([a], rs) == NodesWith([a][..0], rs) + [a];
  }

  /** The first disk fails, the second takes the write, and that is a quorum of one. */
  ghost function HalfRun(a: NodeName, key: Key, data: BobData): seq<Action> {
    [Start(a, key, data), Step(0, LocalWrite(Failure)), Step(0, LocalWrite(Normal)), Step(0, Decide([]))]
  }

  /** The put while its local writes go on. */
  ghost function HalfPut(a: NodeName, key: Key, data: BobData, rest: seq<DiskName>, ok: seq<DiskName>,
                         tried: seq<PathOutcome>): Put {
    Put(a, key, data, {}, map[], {}, 0, [], rest, ok, Pending, Collecting, map[], tried)
  }

  lemma HalfStart(m: Mapper, st: Stores, a: NodeName, d: DiskName, e: DiskName, key: Key, early: BobData, data: BobData,
                  p: Put)
    requires TwoDisks(m, st, a, d, e, key, early) && p == HalfPut(a, key, data, [d, e], [], [])
    ensures Apply(m, 1, State(st, []), Start(a, key, data)) == State(st, [p])
  {
    HalfStarted(m, st, a, d, e, key, early, data);
    FirstStart(m, 1, st, a, key, data, p);
  }

  lemma FirstStart(m: Mapper, quorum: nat, st: Stores, a: NodeName, key: Key, data: BobData, p: Put)
    requires m.Valid(quorum) && st.Keys == Elems(m.nodes) && a in m.nodes && p == StartPut(m, a, key, data)
    ensures Apply(m, quorum, State(st, []), Start(a, key, data)) == State(st, [p])
  {
    assert [] + [p] == [p];
  }

  lemma HalfStarted(m: Mapper, st: Stores, a: NodeName, d: DiskName, e: DiskName, key: Key, early: BobData,
                    data: BobData)
    requires TwoDisks(m, st, a, d, e, key, early)
    ensures StartPut(m, a, key, data) == HalfPut(a, key, data, [d, e], [], [])
  {
    assert Elems([a]) - {a} == {};
  }

  lemma HalfFails(m: Mapper, st: Stores, a: NodeName, d: DiskName, e: DiskName, key: Key, data: BobData, p: Put, q: Put)
    requires m.Valid(1) && a in m.nodes && st.Keys == Elems(m.nodes)
    requires p == HalfPut(a, key, data, [d, e], [], []) && q == HalfPut(a, key, data, [e], [], [Failure])
    ensures Apply(m, 1, State(st, [p]), Step(0, LocalWrite(Failure))) == State(st, [q])
  {
    OnlyPutStep(m, 1, st, p, LocalWrite(Failure));
    assert p.localRest[1..] == [e] && p.localOk + [] == [] && p.tried + [Failure] == [Failure];
  }

  lemma HalfWrites(m: Mapper, st: Stores, a: NodeName, e: DiskName, key: Key, data: BobData, p: Put, q: Put)
    requires m.Valid(1) && a in m.nodes && st.Keys == Elems(m.nodes)
    requires p == HalfPut(a, key, data, [e], [], [Failure]) && q == HalfPut(a, key, data, [], [e], [Failure, Normal])
    ensures a in st && Apply(m, 1, State(st, [p]), Step(0, LocalWrite(Normal)))
              == State(WriteNormal(st, a, e, key, data), [q])
  {
    OnlyPutStep(m, 1, st, p, LocalWrite(Normal));
    assert p.localRest[1..] == [] && p.localOk + [e] == [e] && p.tried + [Normal] == [Failure, Normal];
  }

  lemma HalfDecides(m: Mapper, st: Stores, a: NodeName, e: DiskName, key: Key, data: BobData, p: Put) returns (q: Put)
    requires m.Valid(1) && a in m.nodes && st.Keys == Elems(m.nodes)
    requires p == HalfPut(a, key, data, [], [e], [Failure, Normal])
    ensures Apply(m, 1, State(st, [p]), Step(0, Decide([]))) == State(st, [q])
    ensures q.reply.OkByQuorum? && q.key == key && q.data == data
  {
    DecideStep(m, 1, st, p, []);
    q := DecidePut(m, 1, p, []);
  }

  lemma HalfRunState(m: Mapper, st: Stores, a: NodeName, d: DiskName, e: DiskName, key: Key, early: BobData,
                     data: BobData)
    returns (p: Put)
    requires TwoDisks(m, st, a, d, e, key, early)
    ensures a in st && Run(m, 1, st, HalfRun(a, key, data)) == State(WriteNormal(st, a, e, key, data), [p])
    ensures p.reply.OkByQuorum? && p.key == key && p.data == data
  {
    var p0, p1 := HalfPut(a, key, data, [d, e], [], []), HalfPut(a, key, data, [e], [], [Failure]);
    var p2 := HalfPut(a, key, data, [], [e], [Failure, Normal]);
    HalfStart(m, st, a, d, e, key, early, data, p0);
    HalfFails(m, st, a, d, e, key, data, p0, p1);
    HalfWrites(m, st, a, e, key, data, p1, p2);
    var st' := WriteNormal(st, a, e, key, data);
    p := HalfDecides(m, st', a, e, key, data, p2);
    var three := [Start(a, key, data), Step(0, LocalWrite(Failure)), Step(0, LocalWrite(Normal))];
    ThreeSteps(m, 1, st, three[0], three[1], three[2], State(st, [p0]), State(st, [p1]), State(st', [p2]), three);
    RunTo(m, 1, st, three, Step(0, Decide([])), State(st', [p2]), State(st', [p]));
    assert HalfRun(a, key, data) == three + [Step(0, Decide([]))];
  }

  lemma FirstDiskAnswers(st: Stores, rs: seq<Replica>, a: NodeName, d: DiskName, e: DiskName, key: Key, v: BobData)
    requires Paths(rs, a) == [d, e] && Shows(st, a, d, key)
    ensures NormalFinds(st, rs, a, key) && (NormalRecord(st, rs, a, key, v) <==> v == st[a].disks[(d, key)])
  {
    assert Paths(rs, a)[0] == d && d in Paths(rs, a);
  }

  lemma OnlyTargetAnswers(m: Mapper, st: Stores, a: NodeName, key: Key, up: set<NodeName>, v: BobData)
    requires VDiskId(key, |m.vdisks|) in m.vdisks && m.Targets(key) == [a]
          && NormalFinds(st, m.ReplicasFor(key), a, key)
    ensures MayReturn(m, st, a, key, up, v) <==> NormalRecord(st, m.ReplicasFor(key), a, key, v)
  {
    assert Elems([a]) == {a};
    assert NormalSources(m, a, key, up) == {a};
  }

  lemma OnlyEarlier(m: Mapper, st: Stores, a: NodeName, d: DiskName, e: DiskName, key: Key, early: BobData,
                    data: BobData, up: set<NodeName>, v: BobData)
    requires TwoDisks(m, st, a, d, e, key, early)
    ensures a in st && (MayReturn(m, WriteNormal(st, a, e, key, data), a, key, up, v) <==> v == early)
  {
    var st' := WriteNormal(st, a, e, key, data);
    assert Shows(st', a, d, key) && st'[a].disks[(d, key)] == early;
    FirstDiskAnswers(st', m.ReplicasFor(key), a, d, e, key, v);
    OnlyTargetAnswers(m, st', a, key, up, v);
  }

  /** A put is acknowledged, and the only record any read can return is the one from before it, however old. */
  lemma OlderRecordIsRead(a: NodeName, d: DiskName, e: DiskName, key: Key, early: BobData, data: BobData)
    returns (m: Mapper, st: Stores, p: Put)
    requires d != e
    ensures m.Valid(1) && st.Keys == Elems(m.nodes) && Run(m, 1, st, HalfRun(a, key, data)).puts == [p]
    ensures p.reply.OkByQuorum? && p.key == key && p.data == data
    ensures forall up, v :: MayReturn(m, Run(m, 1, st, HalfRun(a, key, data)).stores, a, key, up, v) <==> v == early
  {
    m, st := TwoDisksExist(a, d, e, key, early);
    p := HalfRunState(m, st, a, d, e, key, early, data);
    forall up, v ensures MayReturn(m, WriteNormal(st, a, e, key, data), a, key, up, v) <==> v == early {
      OnlyEarlier(m, st, a, d, e, key, early, data, up, v);
    }
  }

  // ---- when reads are at least as new ----

  /** No target keeps records of the key under a node's name, as a failing disk would make it. */
  ghost predicate NoFallback(m: Mapper, st: Stores, key: Key)
    requires VDiskId(key, |m.vdisks|) in m.vdisks
  {
    forall t, owner: NodeName | t in m.Targets(key) && t in st :: (owner, key) !in st[t].aliens
  }

  /** Every replica disk of every target has a record at least as new. */
  ghost predicate OnAllDisks(m: Mapper, st: Stores, key: Key, ts: nat)
    requires VDiskId(key, |m.vdisks|) in m.vdisks
  {
    forall t, d | t in m.Targets(key) && d in Paths(m.ReplicasFor(key), t) :: OnDisk(st, t, d, key, ts)
  }

  lemma FinishedOnAllDisks(m: Mapper, quorum: nat, st: Stores, p: Put)
    requires m.Valid(quorum) && PutInv(m, quorum, st, p) && p.stage.Finished? && p.failed == []
          && NoFallback(m, st, p.key)
    ensures OnAllDisks(m, st, p.key, p.data.ts)
  {
    forall t, d | t in m.Targets(p.key) && d in Paths(m.ReplicasFor(p.key), t)
      ensures OnDisk(st, t, d, p.key, p.data.ts)
    {
      OthersHaveReplicas(m, quorum, st, p, t);
      assert Held(st, t, d, p.key, p.data.ts);
    }
  }

  lemma TargetShows(m: Mapper, quorum: nat, st: Stores, key: Key, ts: nat, t: NodeName)
    requires m.Valid(quorum) && OnAllDisks(m, st, key, ts) && OlderTombstones(st, key, ts) && t in m.Targets(key)
    ensures NormalFinds(st, m.ReplicasFor(key), t, key)
  {
    var rs := m.ReplicasFor(key);
    TargetsConserveReplicas(m, quorum, key);
    PathsCount(rs, t);
    var d := Paths(rs, t)[0];
    assert d in Paths(rs, t);
    assert OnDisk(st, t, d, key, ts) && !Hidden(st[t].deadDisks, (d, key), ts);
    assert Shows(st, t, d, key);
  }

  lemma TargetIsNewer(m: Mapper, st: Stores, key: Key, ts: nat, t: NodeName, v: BobData)
    requires VDiskId(key, |m.vdisks|) in m.vdisks && OnAllDisks(m, st, key, ts) && t in m.Targets(key)
    requires NormalRecord(st, m.ReplicasFor(key), t, key, v)
    ensures v.ts >= ts
  {
    var paths := Paths(m.ReplicasFor(key), t);
    var i :| 0 <= i < |paths| && Shows(st, t, paths[i], key) && st[t].disks[(paths[i], key)] == v;
    assert OnDisk(st, t, paths[i], key, ts);
  }

  lemma AllDisksReadNewer(m: Mapper, quorum: nat, st: Stores, key: Key, ts: nat, local: NodeName, up: set<NodeName>,
                          v: BobData)
    requires m.Valid(quorum) && OnAllDisks(m, st, key, ts) && OlderTombstones(st, key, ts)
    requires NormalSources(m, local, key, up) != {} && MayReturn(m, st, local, key, up, v)
    ensures v.ts >= ts
  {
    var t :| t in NormalSources(m, local, key, up);
    TargetShows(m, quorum, st, key, ts, t);
    var n :| n in NormalSources(m, local, key, up) && NormalRecord(st, m.ReplicasFor(key), n, key, v);
    TargetIsNewer(m, st, key, ts, n, v);
  }

  /**
   A put that finished without a failed target, with no copy left under a node's name on a target, and
   newer than all deletes of its key: whatever else the run contains, every read that reaches a target
   returns a record at least as new.
   */
  lemma CompletePutIsReadNewest(m: Mapper, quorum: nat, st: Stores, actions: seq<Action>, i: nat, s: State, p: Put,
                                local: NodeName, up: set<NodeName>, v: BobData)
    requires m.Valid(quorum) && st.Keys == Elems(m.nodes) && s == Run(m, quorum, st, actions)
    requires i < |s.puts| && p == s.puts[i] && p.stage.Finished? && p.failed == [] && NoFallback(m, s.stores, p.key)
    requires OlderTombstones(st, p.key, p.data.ts) && OlderDeletes(actions, p.key, p.data.ts)
    requires NormalSources(m, local, p.key, up) != {} && MayReturn(m, s.stores, local, p.key, up, v)
    ensures v.ts >= p.data.ts
  {
    RunInv(m, quorum, st, actions);
    RunKeepsOlder(m, quorum, st, actions, p.key, p.data.ts);
    FinishedOnAllDisks(m, quorum, s.stores, p);
    AllDisksReadNewer(m, quorum, s.stores, p.key, p.data.ts, local, up, v);
  }
}
