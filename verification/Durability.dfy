/** What an acknowledged put is worth, over every run of the protocol. */
module Durability {
  import opened Types
  import opened Topology
  import opened Stores
  import opened PutProtocol
  import opened PutInvariant
  import opened ClusterGet

  /** Nodes with fewer replicas than the quorum cannot contain every confirmed copy. */
  lemma QuorumOutlives(m: Mapper, quorum: nat, st: Stores, p: Put, down: set<NodeName>)
    returns (n: NodeName, d: DiskName)
    requires m.Valid(quorum) && PutInv(m, quorum, st, p) && p.reply.OkByQuorum?
    requires CountIn(m.ReplicasFor(p.key), down) < quorum
    ensures n !in down && n in m.Targets(p.key)
    ensures d in Paths(m.ReplicasFor(p.key), n) && Held(st, n, d, p.key, p.data.ts)
  {
    var rs := m.ReplicasFor(p.key);
    TargetsConserveReplicas(m, quorum, p.key);
    if k :| k in p.oks && k !in down {
      n := k;
      PathsCount(rs, n);
      d := Paths(rs, n)[0];
    } else {
      PathsCount(rs, p.coord);
      CountInMonotone(rs, p.oks, down);
      if p.coord in down {
        CountInDisjoint(rs, p.oks, {p.coord});
        CountInMonotone(rs, p.oks + {p.coord}, down);
        assert false;
      } else {
        n, d := p.coord, p.localOk[0];
        assert CountIn(rs, {n}) > 0;
      }
    }
  }

  lemma HeldIsFound(m: Mapper, st: Stores, local: NodeName, key: Key, ts: nat, up: set<NodeName>, n: NodeName,
                    d: DiskName)
    requires VDiskId(key, |m.vdisks|) in m.vdisks
    requires n in m.Targets(key) && n in m.nodes && n in up + {local}
    requires d in Paths(m.ReplicasFor(key), n) && Held(st, n, d, key, ts) && ts > 0 && OlderTombstones(st, key, ts)
    ensures GetFinds(m, st, local, key, up)
  {
    assert n in NormalSources(m, local, key, up) && n in AlienSources(m, local, up);
    if owner :| AlienHeld(st, n, owner, key, ts) {
      assert !Hidden(st[n].deadAliens, (owner, key), ts);
      assert AlienVisible(st, n, owner, key);
    } else {
      assert !Hidden(st[n].deadDisks, (d, key), ts) && Shows(st, n, d, key);
      assert NormalFinds(st, m.ReplicasFor(key), n, key);
    }
  }

  ghost predicate SamePut(p: Put, q: Put) {
    q.coord == p.coord && q.key == p.key && q.data == p.data && (p.reply.OkByQuorum? ==> q.reply.OkByQuorum?)
  }

  lemma StepKeepsIdentity(m: Mapper, quorum: nat, st: Stores, p: Put, move: Move)
    requires VDiskId(p.key, |m.vdisks|) in m.vdisks && p.coord in st && st.Keys == Elems(m.nodes)
    requires p.stage.Aliens? ==> HandoffShape(m, p.stage.h)
    ensures SamePut(p, StepPut(m, quorum, st, p, move).1)
  {
  }

  lemma ApplyExtends(m: Mapper, quorum: nat, s: State, a: Action)
    requires m.Valid(quorum) && WellFormed(m, s)
    ensures |s.puts| <= |Apply(m, quorum, s, a).puts|
    ensures forall i | 0 <= i < |s.puts| :: SamePut(s.puts[i], Apply(m, quorum, s, a).puts[i])
  {
    if a.Step? && a.i < |s.puts| {
      StepKeepsIdentity(m, quorum, s.stores, s.puts[a.i], a.move);
    }
  }

  /** A longer run knows every put of a shorter one and never takes a quorum answer back. */
  lemma {:induction false} RunExtends(m: Mapper, quorum: nat, st: Stores, actions: seq<Action>, more: seq<Action>)
    requires m.Valid(quorum) && st.Keys == Elems(m.nodes)
    ensures |Run(m, quorum, st, actions).puts| <= |Run(m, quorum, st, actions + more).puts|
    ensures forall i | 0 <= i < |Run(m, quorum, st, actions).puts| ::
              SamePut(Run(m, quorum, st, actions).puts[i], Run(m, quorum, st, actions + more).puts[i])
  {
    if more == [] {
      assert actions + more == actions;
    } else {
      var less, a := more[..|more| - 1], more[|more| - 1];
      RunExtends(m, quorum, st, actions, less);
      RunSnoc(m, quorum, st, actions + less, a);
      assert actions + more == actions + less + [a];
      ApplyExtends(m, quorum, Run(m, quorum, st, actions + less), a);
    }
  }

  /**
   A put answered by quorum after `actions`, and newer than all tombstones of its key at the
   beginning and all deletes of the run, is found after any further actions, from any live node.
   */
  ghost predicate StaysReadable(m: Mapper, quorum: nat, st: Stores, actions: seq<Action>, more: seq<Action>,
                                i: nat, ts: nat, down: set<NodeName>, local: NodeName)
    requires m.Valid(quorum) && st.Keys == Elems(m.nodes)
  {
    var puts := Run(m, quorum, st, actions).puts;
    i < |puts| && puts[i].reply.OkByQuorum? && puts[i].data.ts == ts
    && OlderTombstones(st, puts[i].key, ts) && OlderDeletes(actions + more, puts[i].key, ts)
    && CountIn(m.ReplicasFor(puts[i].key), down) < quorum && local in m.nodes && local !in down
    ==> GetFinds(m, Run(m, quorum, st, actions + more).stores, local, puts[i].key, Elems(m.nodes) - down)
  }

  lemma AcknowledgedPutStaysReadable(m: Mapper, quorum: nat, st: Stores, actions: seq<Action>, more: seq<Action>,
                                     i: nat, ts: nat, down: set<NodeName>, local: NodeName)
    requires m.Valid(quorum) && st.Keys == Elems(m.nodes) && ts > 0
    ensures StaysReadable(m, quorum, st, actions, more, i, ts, down, local)
  {
    var puts := Run(m, quorum, st, actions).puts;
    if i < |puts| && puts[i].reply.OkByQuorum? && puts[i].data.ts == ts
       && OlderTombstones(st, puts[i].key, ts) && OlderDeletes(actions + more, puts[i].key, ts)
       && CountIn(m.ReplicasFor(puts[i].key), down) < quorum && local in m.nodes && local !in down {
      RunExtends(m, quorum, st, actions, more);
      var s := Run(m, quorum, st, actions + more);
      RunInv(m, quorum, st, actions + more);
      var p := s.puts[i];
      var n, d := QuorumOutlives(m, quorum, s.stores, p, down);
      RunKeepsOlder(m, quorum, st, actions + more, p.key, ts);
      TargetsConserveReplicas(m, quorum, p.key);
      assert n in Elems(m.Targets(p.key));
      HeldIsFound(m, s.stores, local, p.key, ts, Elems(m.nodes) - down, n, d);
    }
  }

  // ---- a record stamped 0 ----

  /** A cluster whose only node `a` keeps the single replica of `key` on disk `d`, with nothing stored. */
  ghost predicate OneNode(m: Mapper, st: Stores, a: NodeName, d: DiskName, key: Key) {
    && m.Valid(1) && m.nodes == [a] && st.Keys == Elems(m.nodes) && st[a] == NodeStore(map[], map[], map[], map[])
    && m.Targets(key) == [a] && Paths(m.ReplicasFor(key), a) == [d]
  }

  lemma OneNodeExists(a: NodeName, d: DiskName, key: Key) returns (m: Mapper, st: Stores)
    ensures OneNode(m, st, a, d, key)
  {
    var rs := [Replica(a, d)];
    m, st := Mapper([a], map[0 := VDisk(0, rs)]), map[a := NodeStore(map[], map[], map[], map[])];
    assert m.vdisks.Keys == {0};
    assert rs[..0] == [] && [a][..0] == [] && rs[0] in rs;
    assert Paths(rs, a) == Paths(rs[..0], a) + [d];
    assert NodesWith([a], rs) == NodesWith([a][..0], rs) + [a];
  }

  /** The disk fails, the write falls back to the alien store, and the put is acknowledged. */
  ghost function FallbackRun(a: NodeName, key: Key, data: BobData): seq<Action> {
    [Start(a, key, data), Step(0, LocalWrite(Fallback(a))), Step(0, Decide([]))]
  }

  ghost function FallbackPut(a: NodeName, d: DiskName, key: Key, data: BobData): Put {
    Put(a, key, data, {}, map[], {}, 0, [], [], [d], Pending, Collecting, map[], [Fallback(a)])
  }

  lemma FallbackStarted(m: Mapper, st: Stores, a: NodeName, d: DiskName, key: Key, data: BobData)
    requires OneNode(m, st, a, d, key)
    ensures StartPut(m, a, key, data) == FallbackPut(a, d, key, data).(localRest := [d], localOk := [], tried := [])
  {
    assert Elems([a]) - {a} == {};
  }

  lemma LastLocalWrite(m: Mapper, quorum: nat, st: Stores, p: Put, owner: NodeName, d: DiskName)
    requires m.Valid(quorum) && st.Keys == Elems(m.nodes) && p.coord in st
    requires p.stage.Collecting? && p.localRest == [d] && p.localOk == [] && p.tried == []
    ensures StepPut(m, quorum, st, p, LocalWrite(Fallback(owner)))
         == (WriteAlien(st, p.coord, owner, p.key, p.data),
             p.(localRest := [], localOk := [d], tried := [Fallback(owner)]))
  {
    assert p.localRest[1..] == [] && p.localOk + [d] == [d] && p.tried + [Fallback(owner)] == [Fallback(owner)];
  }

  lemma FallbackAcknowledged(m: Mapper, quorum: nat, p: Put, d: DiskName)
    requires m.Valid(quorum) && quorum == 1 && TasksDone(p) && p.failed == [] && p.localOk == [d]
    requires Paths(m.ReplicasFor(p.key), p.coord) == [d]
    ensures SamePut(p, DecidePut(m, quorum, p, [])) && DecidePut(m, quorum, p, []).reply.OkByQuorum?
  {
  }

  /** A step of the only put there is. */
  lemma OnlyPutStep(m: Mapper, quorum: nat, st: Stores, p: Put, move: Move)
    requires m.Valid(quorum) && WellFormed(m, State(st, [p]))
    ensures var (st', q) := StepPut(m, quorum, st, State(st, [p]).puts[0], move);
            Apply(m, quorum, State(st, [p]), Step(0, move)) == State(st', [q])
  {
    var (st', q) := StepPut(m, quorum, st, State(st, [p]).puts[0], move);
    assert [p][0 := q] == [q];
  }

  lemma RunTo(m: Mapper, quorum: nat, st: Stores, actions: seq<Action>, a: Action, s: State, s': State)
    requires m.Valid(quorum) && st.Keys == Elems(m.nodes)
    requires Run(m, quorum, st, actions) == s && Apply(m, quorum, s, a) == s'
    ensures Run(m, quorum, st, actions + [a]) == s'
  {
    RunSnoc(m, quorum, st, actions, a);
  }

  lemma FallbackSteps(m: Mapper, quorum: nat, st: Stores, a: NodeName, d: DiskName, key: Key, data: BobData, p: Put,
                      q: Put)
    requires OneNode(m, st, a, d, key) && quorum == 1
    requires q == FallbackPut(a, d, key, data) && p == q.(localRest := [d], localOk := [], tried := [])
    ensures Apply(m, quorum, State(st, []), Start(a, key, data)) == State(st, [p])
    ensures Apply(m, quorum, State(st, [p]), Step(0, LocalWrite(Fallback(a))))
              == State(WriteAlien(st, a, a, key, data), [q])
  {
    FallbackStarted(m, st, a, d, key, data);
    assert [] + [p] == [p];
    OnlyPutStep(m, quorum, st, p, LocalWrite(Fallback(a)));
    LastLocalWrite(m, quorum, st, p, a, d);
  }

  lemma DecideStep(m: Mapper, quorum: nat, st: Stores, p: Put, sup: seq<NodeName>)
    requires m.Valid(quorum) && WellFormed(m, State(st, [p]))
    requires p.stage.Collecting? && p.localRest == [] && TasksDone(p)
    ensures Apply(m, quorum, State(st, [p]), Step(0, Decide(sup))) == State(st, [DecidePut(m, quorum, p, sup)])
  {
    OnlyPutStep(m, quorum, st, p, Decide(sup));
  }

  lemma ThreeSteps(m: Mapper, quorum: nat, st: Stores, a: Action, b: Action, c: Action, s1: State, s2: State, s3: State,
                   run: seq<Action>)
    requires m.Valid(quorum) && st.Keys == Elems(m.nodes) && run == [a, b, c] && WellFormed(m, s1) && WellFormed(m, s2)
    requires Apply(m, quorum, State(st, []), a) == s1 && Apply(m, quorum, s1, b) == s2 && Apply(m, quorum, s2, c) == s3
    ensures Run(m, quorum, st, run) == s3
  {
    assert Run(m, quorum, st, []) == State(st, []);
    RunTo(m, quorum, st, [], a, State(st, []), s1);
    RunTo(m, quorum, st, [] + [a], b, s1, s2);
    RunTo(m, quorum, st, [] + [a] + [b], c, s2, s3);
    assert run == [] + [a] + [b] + [c];
  }

  lemma FallbackDecides(m: Mapper, quorum: nat, st: Stores, q: Put, d: DiskName) returns (p: Put)
    requires m.Valid(quorum) && quorum == 1 && WellFormed(m, State(st, [q]))
          && Paths(m.ReplicasFor(q.key), q.coord) == [d]
    requires q.stage.Collecting? && q.localRest == [] && q.localOk == [d] && TasksDone(q) && q.failed == []
    ensures Apply(m, quorum, State(st, [q]), Step(0, Decide([]))) == State(st, [p])
    ensures p.reply.OkByQuorum? && p.key == q.key && p.data == q.data
  {
    p := DecidePut(m, quorum, q, []);
    DecideStep(m, quorum, st, q, []);
    FallbackAcknowledged(m, quorum, q, d);
  }

  lemma FallbackRunState(m: Mapper, quorum: nat, st: Stores, a: NodeName, d: DiskName, key: Key, data: BobData,
                         run: seq<Action>)
    returns (p: Put)
    requires OneNode(m, st, a, d, key) && quorum == 1 && run == FallbackRun(a, key, data)
    ensures Run(m, quorum, st, run) == State(WriteAlien(st, a, a, key, data), [p])
    ensures p.reply.OkByQuorum? && p.key == key && p.data == data
  {
    var q, st' := FallbackPut(a, d, key, data), WriteAlien(st, a, a, key, data);
    var q0 := q.(localRest := [d], localOk := [], tried := []);
    FallbackSteps(m, quorum, st, a, d, key, data, q0, q);
    p := FallbackDecides(m, quorum, st', q, d);
    ThreeSteps(m, quorum, st, Start(a, key, data), Step(0, LocalWrite(Fallback(a))), Step(0, Decide([])),
               State(st, [q0]), State(st', [q]), State(st', [p]), run);
  }

  lemma NothingVisible(st: Stores, rs: seq<Replica>, a: NodeName, key: Key, data: BobData)
    requires st.Keys == Elems([a]) && st[a] == NodeStore(map[], map[], map[], map[]) && data.ts == 0
    ensures forall n :: !AlienFinds(WriteAlien(st, a, a, key, data), n, key)
    ensures forall n :: !NormalFinds(WriteAlien(st, a, a, key, data), rs, n, key)
  {
    var st' := WriteAlien(st, a, a, key, data);
    assert st'[a].disks == map[] && st'[a].aliens == map[(a, key) := data];
    assert forall n | n in st' :: n == a;
  }

  lemma StampZeroIsInvisible(m: Mapper, st: Stores, a: NodeName, d: DiskName, key: Key, data: BobData,
                             up: set<NodeName>)
    requires OneNode(m, st, a, d, key) && data.ts == 0
    ensures !GetFinds(m, WriteAlien(st, a, a, key, data), a, key, up)
  {
    NothingVisible(st, m.ReplicasFor(key), a, key, data);
  }

  lemma NoTombstones(st: Stores, a: NodeName, key: Key, ts: nat)
    requires st.Keys == Elems([a]) && st[a] == NodeStore(map[], map[], map[], map[])
    ensures OlderTombstones(st, key, ts)
  {
    assert forall n | n in st :: n == a;
  }

  lemma FallbackDeletesNothing(a: NodeName, key: Key, data: BobData, run: seq<Action>)
    requires run == FallbackRun(a, key, data)
    ensures OlderDeletes(run, key, data.ts)
  {
  }

  /** How a single unanswered read refutes durability. */
  lemma UnreadableNow(m: Mapper, quorum: nat, st: Stores, actions: seq<Action>, local: NodeName, s: State, p: Put)
    requires m.Valid(quorum) && st.Keys == Elems(m.nodes) && local in m.nodes
    requires s == Run(m, quorum, st, actions) && s.puts == [p] && p.reply.OkByQuorum?
    requires OlderTombstones(st, p.key, p.data.ts) && OlderDeletes(actions, p.key, p.data.ts)
    requires !GetFinds(m, s.stores, local, p.key, Elems(m.nodes) - {})
    ensures !StaysReadable(m, quorum, st, actions, [], 0, p.data.ts, {}, local)
  {
    assert actions + [] == actions;
    CountInNone(m.ReplicasFor(p.key));
  }

  lemma StampZeroIsLost(m: Mapper, quorum: nat, st: Stores, a: NodeName, d: DiskName, key: Key, data: BobData,
                        run: seq<Action>)
    requires OneNode(m, st, a, d, key) && quorum == 1 && data.ts == 0 && run == FallbackRun(a, key, data)
    ensures !StaysReadable(m, quorum, st, run, [], 0, data.ts, {}, a)
  {
    var p := FallbackRunState(m, quorum, st, a, d, key, data, run);
    StampZeroIsInvisible(m, st, a, d, key, data, Elems(m.nodes) - {});
    NoTombstones(st, a, key, data.ts);
    FallbackDeletesNothing(a, key, data, run);
    UnreadableNow(m, quorum, st, run, a, State(WriteAlien(st, a, a, key, data), [p]), p);
  }

  ghost predicate DurableAt(ts: nat) {
    forall m: Mapper, quorum: nat, st: Stores, actions: seq<Action>, more: seq<Action>, i: nat, down: set<NodeName>,
           local: NodeName
      | m.Valid(quorum) && st.Keys == Elems(m.nodes)
      :: StaysReadable(m, quorum, st, actions, more, i, ts, down, local)
  }

  lemma StampedIsDurable(ts: nat)
    requires ts > 0
    ensures DurableAt(ts)
  {
    forall m: Mapper, quorum: nat, st: Stores, actions: seq<Action>, more: seq<Action>, i: nat, down: set<NodeName>,
           local: NodeName
      | m.Valid(quorum) && st.Keys == Elems(m.nodes)
      ensures StaysReadable(m, quorum, st, actions, more, i, ts, down, local)
    {
      AcknowledgedPutStaysReadable(m, quorum, st, actions, more, i, ts, down, local);
    }
  }

  lemma StampZeroIsNotDurable(ts: nat)
    requires ts == 0
    ensures !DurableAt(ts)
  {
    var a, d, key, data := "a", "d", [], BobData([], ts);
    var m, st := OneNodeExists(a, d, key);
    StampZeroIsLost(m, 1, st, a, d, key, data, FallbackRun(a, key, data));
    NotDurable(m, 1, st, FallbackRun(a, key, data), [], 0, ts, {}, a);
  }

  lemma NotDurable(m: Mapper, quorum: nat, st: Stores, actions: seq<Action>, more: seq<Action>,
                   i: nat, ts: nat, down: set<NodeName>, local: NodeName)
    requires m.Valid(quorum) && st.Keys == Elems(m.nodes)
    requires !StaysReadable(m, quorum, st, actions, more, i, ts, down, local)
    ensures !DurableAt(ts)
  {
  }

  /** Quorum durability holds for every cluster and every run exactly for positive timestamps. */
  lemma DurableExactlyWhenStamped(ts: nat)
    ensures DurableAt(ts) == (ts > 0)
  {
    if ts > 0 {
      StampedIsDurable(ts);
    } else {
      StampZeroIsNotDurable(ts);
    }
  }

  // ---- nothing that failed is forgotten ----

  /** An alien copy under the name of `f`, on the coordinator or on a helper that is not a target. */
  ghost predicate Covered(m: Mapper, st: Stores, p: Put, h: Handoff, f: NodeName)
    requires VDiskId(p.key, |m.vdisks|) in m.vdisks && |h.sup| == |h.owners|
  {
    || AlienHeld(st, p.coord, f, p.key, p.data.ts)
    || exists j | 0 <= j < |h.owners| ::
         h.owners[j] == f && h.sup[j] !in m.Targets(p.key) && AlienHeld(st, h.sup[j], f, p.key, p.data.ts)
  }

  lemma FailedCovered(m: Mapper, quorum: nat, st: Stores, p: Put, f: NodeName)
    requires m.Valid(quorum) && PutInv(m, quorum, st, p) && p.stage.Finished? && p.stage.h.lost == [] && f in p.failed
    ensures |p.stage.h.sup| == |p.stage.h.owners| && Covered(m, st, p, p.stage.h, f)
  {
    var h := p.stage.h;
    if f in h.rest {
      var j :| 0 <= j < |h.rest| && h.rest[j] == f;
      assert AlienHeld(st, p.coord, h.rest[j], p.key, p.data.ts);
    } else {
      var j :| 0 <= j < |h.owners| && h.owners[j] == f;
      assert h.sup[j] in h.sup && AlienHeld(st, h.sup[j], f, p.key, p.data.ts);
    }
  }

  /** All replicas of the target are held by the target itself. */
  ghost predicate HasReplicas(m: Mapper, st: Stores, p: Put, t: NodeName)
    requires VDiskId(p.key, |m.vdisks|) in m.vdisks
  {
    forall d | d in Paths(m.ReplicasFor(p.key), t) :: Held(st, t, d, p.key, p.data.ts)
  }

  lemma OthersHaveReplicas(m: Mapper, quorum: nat, st: Stores, p: Put, t: NodeName)
    requires m.Valid(quorum) && PutInv(m, quorum, st, p) && p.stage.Finished? && t in m.Targets(p.key) && t !in p.failed
    ensures HasReplicas(m, st, p, t)
  {
    if t != p.coord {
      assert t in RemoteTargets(m, p);
    }
  }

  /** When a put has finished without a lost name, every target has its replicas or an alien copy. */
  lemma FinishedPutCoversTargets(m: Mapper, quorum: nat, st: Stores, actions: seq<Action>, i: nat, s: State, p: Put)
    requires m.Valid(quorum) && st.Keys == Elems(m.nodes) && s == Run(m, quorum, st, actions)
    requires i < |s.puts| && p == s.puts[i] && p.stage.Finished? && p.stage.h.lost == []
    ensures |p.stage.h.sup| == |p.stage.h.owners| && NoDup(p.stage.h.sup)
    ensures forall f | f in p.failed :: Covered(m, s.stores, p, p.stage.h, f)
    ensures forall t | t in m.Targets(p.key) :: HasReplicas(m, s.stores, p, t) || Covered(m, s.stores, p, p.stage.h, t)
  {
    RunInv(m, quorum, st, actions);
    assert PutInv(m, quorum, s.stores, p);
    forall f | f in p.failed ensures Covered(m, s.stores, p, p.stage.h, f) {
      FailedCovered(m, quorum, s.stores, p, f);
    }
    forall t | t in m.Targets(p.key) && t !in p.failed ensures HasReplicas(m, s.stores, p, t) {
      OthersHaveReplicas(m, quorum, s.stores, p, t);
    }
  }

  lemma FailedAreTargets(m: Mapper, quorum: nat, st: Stores, p: Put)
    requires m.Valid(quorum) && PutInv(m, quorum, st, p)
    ensures NoDup(p.failed) && forall f | f in p.failed :: f in m.Targets(p.key)
  {
    forall f | f in p.failed ensures f in m.Targets(p.key) {
      if f == p.coord {
        PathsCount(m.ReplicasFor(p.key), f);
        TargetsConserveReplicas(m, quorum, p.key);
      } else {
        assert f in Elems(p.failed) - {p.coord};
        assert f in RemoteTargets(m, p);
      }
    }
  }

  lemma MissedQuorum(m: Mapper, quorum: nat, st: Stores, p: Put)
    requires m.Valid(quorum) && PutInv(m, quorum, st, p)
    requires !p.stage.Collecting? && !p.reply.OkByQuorum?
    ensures TasksDone(p) && p.failed != []
    ensures p.oks + Elems(p.failed) >= RemoteTargets(m, p)
  {
  }

  /**
   A put that does not reach the quorum has waited for every target, and its failed names are a
   nonempty list of distinct targets: the assertion holds and the "unreachable" error is not reached.
   */
  lemma QuorumMissIsFullyKnown(m: Mapper, quorum: nat, st: Stores, actions: seq<Action>, i: nat)
    requires m.Valid(quorum) && st.Keys == Elems(m.nodes)
    requires i < |Run(m, quorum, st, actions).puts|
    ensures var p := Run(m, quorum, st, actions).puts[i];
            && !p.stage.Stuck?
            && NoDup(p.failed) && (forall f | f in p.failed :: f in m.Targets(p.key))
            && (!p.stage.Collecting? && !p.reply.OkByQuorum? ==>
                  TasksDone(p) && p.failed != [] && p.oks + Elems(p.failed) >= RemoteTargets(m, p))
  {
    var s := Run(m, quorum, st, actions);
    var p := s.puts[i];
    RunInv(m, quorum, st, actions);
    FailedAreTargets(m, quorum, s.stores, p);
    if !p.stage.Collecting? && !p.reply.OkByQuorum? {
      MissedQuorum(m, quorum, s.stores, p);
    }
  }
}
