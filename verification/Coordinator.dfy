/**
 The coordinator's code for a put, with its loops and variables, running while the rest of the
 cluster goes on. Whatever the others do in between, the code takes the cluster along a run of the
 put protocol, so everything proved about runs holds for what it returns.
 */
module Coordinator {
  import opened Types
  import opened Topology
  import opened Stores
  import opened PutProtocol
  import opened PutInvariant
  import opened PutBooks
  import opened Durability
  import SupportNames
  import SupportNodes

  /** What is not decided by the coordinator of put `i`: other puts, deletes, and when requests arrive. */
  predicate Foreign(i: nat, a: Action) {
    !a.Step? || a.i != i || a.move.RemoteApply? || a.move.RemoteError?
  }

  /** While the coordinator waits, only requests on their way change, and only by being answered. */
  ghost predicate OwnKept(p: Put, q: Put) {
    && (p.sent !! p.answered.Keys ==> q.sent !! q.answered.Keys)
    && q == p.(sent := q.sent, answered := q.answered, answers := q.answers)
    && q.sent <= p.sent && q.sent + q.answered.Keys == p.sent + p.answered.Keys
    && (q.sent == p.sent ==> q.answers == p.answers)
  }

  lemma OwnKeptTransitive(p: Put, q: Put, r: Put)
    requires OwnKept(p, q) && OwnKept(q, r)
    ensures OwnKept(p, r)
  {
  }

  lemma AnswerKeepsOwn(p: Put, n: NodeName, ok: bool)
    requires n in p.sent
    ensures OwnKept(p, Answer(p, n, ok))
  {
    var q := Answer(p, n, ok);
    assert q.sent + q.answered.Keys == p.sent + p.answered.Keys;
  }

  lemma IdleKept(p: Put, q: Put)
    requires OwnKept(p, q) && TasksDone(p)
    ensures q == p
  {
    assert q.answered.Keys == {};
  }

  /** Taking an answer changes the accounts of the remote side only. */
  ghost predicate OnlyBooked(p: Put, q: Put) {
    q == p.(sent := q.sent, answered := q.answered, answers := q.answers,
            oks := q.oks, okCount := q.okCount, failed := q.failed)
  }

  lemma TakenTasks(rs: seq<Replica>, p: Put, n: NodeName)
    requires n in p.answered && p.sent !! p.answered.Keys
    ensures var q := TakeAnswer(rs, p, n);
            OnlyBooked(p, q) && q.sent !! q.answered.Keys && q.sent + q.answered.Keys == p.sent + p.answered.Keys - {n}
  {
    assert (p.answered - {n}).Keys == p.answered.Keys - {n};
  }

  ghost predicate SameAnswers(p: Put, q: Put) {
    q.key == p.key && q.coord == p.coord && q.answers == p.answers && q.tried == p.tried
  }

  /** Still collecting answers for the same request. */
  ghost predicate SameRequest(p: Put, q: Put) {
    q.coord == p.coord && q.key == p.key && q.data == p.data && q.reply == p.reply && q.stage.Collecting?
  }

  /** All tasks and local writes are done without a quorum, and these are the failed names. */
  ghost predicate CollectedBelowQuorum(m: Mapper, quorum: nat, p: Put, failed: seq<NodeName>)
    requires VDiskId(p.key, |m.vdisks|) in m.vdisks
  {
    && p.stage.Collecting? && p.localRest == [] && p.okCount + |p.localOk| < quorum
    && failed == (if |p.localOk| != |Paths(m.ReplicasFor(p.key), p.coord)| then [p.coord] else []) + p.failed
  }

  lemma ForeignKeepsOwn(m: Mapper, quorum: nat, s: State, a: Action, i: nat)
    requires m.Valid(quorum) && WellFormed(m, s) && i < |s.puts| && Foreign(i, a)
    ensures i < |Apply(m, quorum, s, a).puts| && OwnKept(s.puts[i], Apply(m, quorum, s, a).puts[i])
  {
    if a.Step? && a.i == i {
      var p := s.puts[i];
      if a.move.n in p.sent {
        AnswerKeepsOwn(p, a.move.n, true);
        AnswerKeepsOwn(p, a.move.n, false);
      }
    }
  }

  /** Where in its code the coordinator waits. */
  datatype Phase = Joining | Deciding | Asking | Writing | Finishing | Concluding

  /** All that a put's coordinator does not control, numbered by waits of a phase, paths, and support nodes. */
  datatype World = World(
    elsewhere: (Phase, nat) -> seq<Action>, localTurn: nat -> bool,
    outcome: nat -> PathOutcome, outs: NodeName -> seq<PathOutcome>, answerLost: NodeName -> bool,
    applied: nat -> bool, confirmed: nat -> bool, localAlien: nat -> bool,
    offset: nat, flags: SupportNodes.Flags)

  /** No action of others ends a request of put `i`, so its requests end as the world says. */
  ghost predicate Quiet(w: World, i: nat) {
    forall phase, t, a | a in w.elsewhere(phase, t) :: !(a.Step? && a.i == i)
  }

  /** Whether the request to the node is carried out on all its paths and its answer comes back. */
  predicate WorldConfirms(m: Mapper, key: Key, w: World, n: NodeName)
    requires VDiskId(key, |m.vdisks|) in m.vdisks
  {
    |w.outs(n)| == |Paths(m.ReplicasFor(key), n)| && AllStored(w.outs(n)) && !w.answerLost(n)
  }

  /** The answers known of the put are the world's. */
  ghost predicate AsWorld(m: Mapper, w: World, p: Put)
    requires VDiskId(p.key, |m.vdisks|) in m.vdisks
  {
    forall n | n in p.answers :: p.answers[n] == WorldConfirms(m, p.key, w, n)
  }

  /** Answers and local outcomes are the world's. */
  ghost predicate Followed(m: Mapper, w: World, p: Put)
    requires VDiskId(p.key, |m.vdisks|) in m.vdisks
  {
    AsWorld(m, w, p) && p.tried == Outcomes(w, |Paths(m.ReplicasFor(p.key), p.coord)|)
  }

  /** Remote targets that confirm. */
  ghost function WorldConfirming(m: Mapper, w: World, coord: NodeName, key: Key): set<NodeName>
    requires VDiskId(key, |m.vdisks|) in m.vdisks
  {
    set n | n in m.Targets(key) && n != coord && WorldConfirms(m, key, w, n)
  }

  function Outcomes(w: World, k: nat): seq<PathOutcome> {
    seq(k, j requires 0 <= j < k => w.outcome(j))
  }

  /** Confirmations of the support nodes, and of the local alien store. */
  function Told(w: World, k: nat): seq<bool> {
    seq(k, j requires 0 <= j < k => w.applied(j) && w.confirmed(j))
  }

  function Kept(w: World, k: nat): seq<bool> {
    seq(k, j requires 0 <= j < k => w.localAlien(j))
  }

  /** The hand-off after `j` support requests. */
  function AskedUpTo(sup: seq<NodeName>, failed: seq<NodeName>, w: World, j: nat): Handoff
    requires j <= |sup| <= |failed|
  {
    Handoff(sup, failed[..|sup|], Told(w, j), failed[|sup|..] + Refused(failed[..|sup|], Told(w, j)), [], [])
  }

  lemma AskedNext(sup: seq<NodeName>, failed: seq<NodeName>, w: World, j: nat)
    requires j < |sup| <= |failed|
    ensures AskOne(AskedUpTo(sup, failed, w, j), w.applied(j) && w.confirmed(j)) == AskedUpTo(sup, failed, w, j + 1)
    ensures AskedUpTo(sup, failed, w, j + 1).rest
         == AskedUpTo(sup, failed, w, j).rest + if w.applied(j) && w.confirmed(j) then [] else [failed[j]]
  {
    var ok := w.applied(j) && w.confirmed(j);
    assert Told(w, j + 1) == Told(w, j) + [ok];
    RefusedNext(failed[..|sup|], Told(w, j), ok);
  }

  /** The hand-off after all support requests and `j` local writes. */
  function WrittenUpTo(h: Handoff, w: World, j: nat): Handoff
    requires j <= |h.rest|
  {
    h.(kept := Kept(w, j), lost := Refused(h.rest, Kept(w, j)))
  }

  lemma WrittenNext(h: Handoff, w: World, j: nat)
    requires j < |h.rest|
    ensures WriteOne(WrittenUpTo(h, w, j), w.localAlien(j)) == WrittenUpTo(h, w, j + 1)
    ensures WrittenUpTo(h, w, j + 1).lost == WrittenUpTo(h, w, j).lost + if w.localAlien(j) then [] else [h.rest[j]]
  {
    assert Kept(w, j + 1) == Kept(w, j) + [w.localAlien(j)];
    RefusedNext(h.rest, Kept(w, j), w.localAlien(j));
  }

  /** A request that arrives with an outcome for every path is answered as the world says. */
  lemma Delivered(m: Mapper, quorum: nat, st: Stores, p: Put, w: World, n: NodeName)
    requires m.Valid(quorum) && p.coord in st && st.Keys == Elems(m.nodes) && n in p.sent
    requires p.stage.Aliens? ==> HandoffShape(m, p.stage.h)
    requires n in m.Targets(p.key) && n in st
    ensures var q := StepPut(m, quorum, st, p, RemoteApply(n, w.outs(n), w.answerLost(n))).1;
            q == if |w.outs(n)| == |Paths(m.ReplicasFor(p.key), n)| then Answer(p, n, WorldConfirms(m, p.key, w, n))
                 else p
  {
  }

  ghost function WorldReplicas(m: Mapper, w: World, coord: NodeName, key: Key): nat
    requires VDiskId(key, |m.vdisks|) in m.vdisks
  {
    var paths := Paths(m.ReplicasFor(key), coord);
    CountIn(m.ReplicasFor(key), WorldConfirming(m, w, coord, key)) + |StoredPaths(paths, Outcomes(w, |paths|))|
  }

  /** A decided put whose requests ended as the world says is answered by quorum exactly if the world gives it. */
  lemma WorldDecides(m: Mapper, quorum: nat, st: Stores, p: Put, w: World)
    requires m.Valid(quorum) && PutInv(m, quorum, st, p) && Books(m, quorum, p) && !p.stage.Collecting?
    requires Followed(m, w, p)
    ensures p.reply.OkByQuorum? <==> WorldReplicas(m, w, p.coord, p.key) >= quorum
  {
    var rs, all := m.ReplicasFor(p.key), WorldConfirming(m, w, p.coord, p.key);
    BooksDecide(m, quorum, st, p);
    assert forall n | n in p.answers.Keys :: n in RemoteTargets(m, p);
    if p.reply.OkByQuorum? {
      assert Confirming(p) <= all;
      CountInMonotone(rs, Confirming(p), all);
    } else {
      assert p.sent == {} && p.answers.Keys == RemoteTargets(m, p);
      assert Confirming(p) == all;
    }
  }

  class Cluster {
    const m: Mapper
    const quorum: nat
    ghost const start: Stores
    var s: State
    ghost var history: seq<Action>

    ghost predicate Valid()
      reads this
    {
      && m.Valid(quorum) && start.Keys == Elems(m.nodes)
      && s == Run(m, quorum, start, history)
    }

    constructor (m: Mapper, quorum: nat, st: Stores)
      requires m.Valid(quorum) && st.Keys == Elems(m.nodes)
      ensures Valid() && s == State(st, []) && history == []
      ensures this.m == m && this.quorum == quorum && start == st
    {
      this.m, this.quorum, start := m, quorum, st;
      s, history := State(st, []), [];
    }

    method Do(a: Action)
      requires Valid()
      modifies this`s, this`history
      ensures Valid() && history == old(history) + [a] && s == Apply(m, quorum, old(s), a)
    {
      ApplyWellFormed(m, quorum, s, a);
      assert (history + [a])[..|history|] == history;
      s := Apply(m, quorum, s, a);
      history := history + [a];
    }

    /** A move of put `i` by its coordinator. */
    method Move(i: nat, move: Move)
      requires Valid() && i < |s.puts|
      modifies this`s, this`history
      ensures Valid() && old(history) <= history && |s.puts| == |old(s).puts|
      ensures s.puts[i] == StepPut(m, quorum, old(s).stores, old(s).puts[i], move).1
    {
      Do(Step(i, move));
    }

    /** A wait of the coordinator of put `i`. */
    method Await(i: nat, actions: seq<Action>)
      requires Valid() && i < |s.puts|
      modifies this`s, this`history
      ensures Valid() && old(history) <= history && i < |s.puts|
      ensures OwnKept(old(s).puts[i], s.puts[i])
      ensures (forall a | a in actions :: !(a.Step? && a.i == i)) ==> s.puts[i] == old(s).puts[i]
    {
      for k := 0 to |actions|
        invariant Valid() && old(history) <= history && i < |s.puts|
        invariant OwnKept(old(s).puts[i], s.puts[i])
        invariant (forall a | a in actions :: !(a.Step? && a.i == i)) ==> s.puts[i] == old(s).puts[i]
      {
        assert actions[k] in actions;
        if Foreign(i, actions[k]) {
          ghost var p := s.puts[i];
          if !(actions[k].Step? && actions[k].i == i) {
            OtherPuts(m, quorum, s, actions[k], i);
          }
          ForeignKeepsOwn(m, quorum, s, actions[k], i);
          Do(actions[k]);
          OwnKeptTransitive(old(s).puts[i], p, s.puts[i]);
        }
      }
    }

    /** The request to `n` ends now, unless it has before. */
    method Deliver(i: nat, n: NodeName, w: World)
      requires Valid() && i < |s.puts| && n in s.puts[i].sent + s.puts[i].answered.Keys
      modifies this`s, this`history
      ensures Valid() && old(history) <= history && i < |s.puts|
      ensures OwnKept(old(s).puts[i], s.puts[i]) && n in s.puts[i].answered
      ensures s.puts[i].answers == if n !in old(s).puts[i].sent then old(s).puts[i].answers
                                   else old(s).puts[i].answers[n := WorldConfirms(m, old(s).puts[i].key, w, n)]
    {
      var p := s.puts[i];
      Reachable(i);
      if n in p.sent {
        Delivered(m, quorum, s.stores, p, w, n);
        AnswerKeepsOwn(p, n, WorldConfirms(m, p.key, w, n));
        Move(i, RemoteApply(n, w.outs(n), w.answerLost(n)));
        if n in s.puts[i].sent {
          Move(i, RemoteError(n));
        }
        assert s.puts[i] == Answer(p, n, WorldConfirms(m, p.key, w, n));
      }
    }

    /** What the code knows in its variables about the put it coordinates. */
    ghost predicate Tracks(i: nat, tasks: set<NodeName>, okCount: nat, failed: seq<NodeName>)
      reads this
    {
      && Valid() && i < |s.puts|
      && tasks == s.puts[i].sent + s.puts[i].answered.Keys && s.puts[i].sent !! s.puts[i].answered.Keys
      && okCount == s.puts[i].okCount && failed == s.puts[i].failed
    }

    /** What is known of put `i` because the cluster is in a reachable state. */
    lemma Reachable(i: nat)
      requires Valid() && i < |s.puts|
      ensures s.puts[i].sent !! s.puts[i].answered.Keys
      ensures forall n | n in s.puts[i].sent :: n in m.Targets(s.puts[i].key) && n in s.stores
      ensures s.puts[i].stage.Background? ==> s.puts[i].reply.OkByQuorum?
    {
      RunInv(m, quorum, start, history);
      assert PutInv(m, quorum, s.stores, s.puts[i]);
      TargetsConserveReplicas(m, quorum, s.puts[i].key);
      forall n | n in s.puts[i].sent ensures n in m.Targets(s.puts[i].key) && n in s.stores {
        assert n in RemoteTargets(m, s.puts[i]);
        assert n in Elems(m.Targets(s.puts[i].key));
      }
    }

    lemma Decided(i: nat, w: World)
      requires Valid() && i < |s.puts| && !s.puts[i].stage.Collecting?
      ensures |s.puts[i].tried| <= |Paths(m.ReplicasFor(s.puts[i].key), s.puts[i].coord)|
      ensures s.puts[i].reply.OkByQuorum? <==> ConfirmedReplicas(m, s.puts[i]) >= quorum
      ensures Followed(m, w, s.puts[i]) ==>
                (s.puts[i].reply.OkByQuorum? <==> WorldReplicas(m, w, s.puts[i].coord, s.puts[i].key) >= quorum)
    {
      QuorumIsDecidedRightly(m, quorum, start, history, i);
      RunInv(m, quorum, start, history);
      RunBooks(m, quorum, start, history);
      var p := s.puts[i];
      assert PutInv(m, quorum, s.stores, p) && Books(m, quorum, p);
      if Followed(m, w, p) {
        WorldDecides(m, quorum, s.stores, p, w);
      }
    }

    lemma AnswerIsKnown(i: nat, n: NodeName)
      requires Valid() && i < |s.puts| && n in s.puts[i].answered
      ensures n in s.puts[i].answers && s.puts[i].answers[n] == s.puts[i].answered[n]
    {
      RunBooks(m, quorum, start, history);
      assert Books(m, quorum, s.puts[i]);
    }

    lemma AnswersOfRun(i: nat)
      requires Valid() && i < |s.puts|
      ensures forall n | n in RemoteTargets(m, s.puts[i]) ::
                Lookup(s.puts[i].answers, n) == FirstAnswer(m, quorum, start, history, i, n)
    {
      forall n | n in RemoteTargets(m, s.puts[i])
        ensures Lookup(s.puts[i].answers, n) == FirstAnswer(m, quorum, start, history, i, n)
      {
        RunAnswers(m, quorum, start, history, i, n);
      }
    }

    lemma MissingQuorumFailed(i: nat, failed: seq<NodeName>)
      requires Valid() && i < |s.puts| && TasksDone(s.puts[i]) && CollectedBelowQuorum(m, quorum, s.puts[i], failed)
      ensures failed != []
    {
      RunInv(m, quorum, start, history);
      FailureBelowQuorum(m, quorum, s.stores, s.puts[i]);
    }

    lemma AnsweredStaysReadable(i: nat, ts: nat)
      requires Valid() && i < |s.puts| && ts > 0
      ensures forall more, down, local :: StaysReadable(m, quorum, start, history, more, i, ts, down, local)
    {
      StampedIsDurable(ts);
    }

    method Take(i: nat, n: NodeName)
      requires Valid() && i < |s.puts| && n in s.puts[i].answered
      requires (s.puts[i].stage.Collecting? && s.puts[i].okCount < quorum) || s.puts[i].stage.Background?
      modifies this`s, this`history
      ensures Valid() && old(history) <= history && i < |s.puts|
      ensures s.puts[i] == TakeAnswer(m.ReplicasFor(old(s).puts[i].key), old(s).puts[i], n)
    {
      Move(i, Collect(n));
    }

    /** How much the confirmation of a node counts. */
    ghost function Replicas(i: nat, n: NodeName): nat
      requires Valid() && i < |s.puts|
      reads this
    {
      AffectedReplicas(m.ReplicasFor(s.puts[i].key), n)
    }

    /** The next finished task is taken; its replicas are counted if it confirmed, otherwise its node has failed. */
    method TakeTask(i: nat, tasks: set<NodeName>, okCount: nat, failed: seq<NodeName>, n: NodeName, w: World)
      returns (okCount': nat, failed': seq<NodeName>)
      requires Tracks(i, tasks, okCount, failed) && n in tasks
      requires (s.puts[i].stage.Collecting? && okCount < quorum) || s.puts[i].stage.Background?
      modifies this`s, this`history
      ensures Tracks(i, tasks - {n}, okCount', failed') && old(history) <= history
      ensures OnlyBooked(old(s).puts[i], s.puts[i])
      ensures n in s.puts[i].answers
      ensures okCount' == okCount + if s.puts[i].answers[n] then Replicas(i, n) else 0
      ensures failed' == failed + if s.puts[i].answers[n] then [] else [n]
      ensures AsWorld(m, w, old(s).puts[i]) ==> AsWorld(m, w, s.puts[i])
    {
      Deliver(i, n, w);
      AnswerIsKnown(i, n);
      var p := s.puts[i];
      okCount', failed' := okCount, failed;
      if p.answered[n] {
        okCount' := okCount + AffectedReplicas(m.ReplicasFor(p.key), n);
      } else {
        failed' := failed + [n];
      }
      Take(i, n);
      TakenTasks(m.ReplicasFor(p.key), p, n);
    }

    /**
     The two sides of the join: remote answers are taken until enough replicas are confirmed, and
     the local paths are written one after the other.
     */
    method JoinPuts(i: nat, w: World) returns (okCount: nat, localOk: nat, failed: seq<NodeName>)
      requires i < |s.puts| && Tracks(i, s.puts[i].sent, 0, []) && s.puts[i].stage.Collecting?
            && s.puts[i].localOk == [] && s.puts[i].tried == []
      modifies this`s, this`history
      ensures i < |s.puts| && Tracks(i, s.puts[i].sent + s.puts[i].answered.Keys, okCount, failed)
           && old(history) <= history
      ensures SameRequest(old(s).puts[i], s.puts[i])
      ensures s.puts[i].localRest == [] && localOk == |s.puts[i].localOk|
      ensures s.puts[i].tried == Outcomes(w, |old(s).puts[i].localRest|)
      ensures okCount >= quorum || TasksDone(s.puts[i])
      ensures Quiet(w, i) && AsWorld(m, w, old(s).puts[i]) ==> AsWorld(m, w, s.puts[i])
    {
      var tasks, paths := s.puts[i].sent, s.puts[i].localRest;
      ghost var quiet := Quiet(w, i) && AsWorld(m, w, s.puts[i]);
      okCount, localOk, failed := 0, 0, [];
      var k, t := 0, 0;
      while k < |paths| || (okCount < quorum && tasks != {})
        invariant k <= |paths| && Tracks(i, tasks, okCount, failed) && old(history) <= history
        invariant SameRequest(old(s).puts[i], s.puts[i])
        invariant s.puts[i].localRest == paths[k..] && localOk == |s.puts[i].localOk|
        invariant s.puts[i].tried == Outcomes(w, k)
        invariant quiet ==> AsWorld(m, w, s.puts[i])
        decreases |paths| - k, tasks
      {
        Await(i, w.elsewhere(Joining, t));
        t := t + 1;
        if k < |paths| && (w.localTurn(t) || okCount >= quorum || tasks == {}) {
          localOk := localOk + if w.outcome(k) == Failure then 0 else 1;
          WriteLocal(i, w, k, paths);
          k := k + 1;
        } else {
          var n :| n in tasks;
          okCount, failed := TakeTask(i, tasks, okCount, failed, n, w);
          tasks := tasks - {n};
        }
      }
      Await(i, w.elsewhere(Deciding, 0));
    }

    /** The local write to path `k`. */
    method WriteLocal(i: nat, w: World, k: nat, paths: seq<DiskName>)
      requires Valid() && i < |s.puts| && s.puts[i].stage.Collecting? && k < |paths|
      requires s.puts[i].localRest == paths[k..] && s.puts[i].tried == Outcomes(w, k)
      modifies this`s, this`history
      ensures Valid() && old(history) <= history && i < |s.puts|
      ensures s.puts[i] == old(s).puts[i].(localRest := paths[k + 1..], tried := Outcomes(w, k + 1),
                                           localOk := s.puts[i].localOk)
      ensures |s.puts[i].localOk| == |old(s).puts[i].localOk| + if w.outcome(k) == Failure then 0 else 1
    {
      assert paths[k..][1..] == paths[k + 1..] && Outcomes(w, k) + [w.outcome(k)] == Outcomes(w, k + 1);
      Move(i, LocalWrite(w.outcome(k)));
    }

    /** A wait with no task running changes nothing of the put. */
    method AwaitIdle(i: nat, actions: seq<Action>)
      requires Valid() && i < |s.puts| && TasksDone(s.puts[i])
      modifies this`s, this`history
      ensures Valid() && old(history) <= history && i < |s.puts| && s.puts[i] == old(s).puts[i]
    {
      Await(i, actions);
      IdleKept(old(s).puts[i], s.puts[i]);
    }

    method Ask(i: nat, applied: bool, confirmed: bool)
      requires Valid() && i < |s.puts| && s.puts[i].stage.Aliens?
            && |s.puts[i].stage.h.told| < |s.puts[i].stage.h.owners|
      modifies this`s, this`history
      ensures Valid() && old(history) <= history && i < |s.puts|
      ensures s.puts[i] == old(s).puts[i].(stage := Aliens(AskOne(old(s).puts[i].stage.h, applied && confirmed)))
    {
      Move(i, AskSupport(applied, confirmed));
    }

    method WriteAlienHere(i: nat, ok: bool)
      requires Valid() && i < |s.puts| && s.puts[i].stage.Aliens?
      requires var h := s.puts[i].stage.h; |h.told| == |h.owners| && |h.kept| < |h.rest|
      modifies this`s, this`history
      ensures Valid() && old(history) <= history && i < |s.puts|
      ensures s.puts[i] == old(s).puts[i].(stage := Aliens(WriteOne(old(s).puts[i].stage.h, ok)))
    {
      Move(i, LocalAlien(ok));
    }

    /** `put_sup_nodes`: one request after the other; names that are not confirmed stay for the local store. */
    method AskSupports(i: nat, sup: seq<NodeName>, failed: seq<NodeName>, w: World) returns (rest: seq<NodeName>)
      requires Valid() && i < |s.puts| && TasksDone(s.puts[i]) && |sup| <= |failed|
      requires s.puts[i].stage == Aliens(Handoff(sup, failed[..|sup|], [], failed[|sup|..], [], []))
      modifies this`s, this`history
      ensures Valid() && i < |s.puts| && old(history) <= history
      ensures s.puts[i] == old(s).puts[i].(stage := Aliens(AskedUpTo(sup, failed, w, |sup|)))
      ensures rest == failed[|sup|..] + Refused(failed[..|sup|], Told(w, |sup|))
    {
      rest := failed[|sup|..];
      for j := 0 to |sup|
        invariant Valid() && i < |s.puts| && old(history) <= history
        invariant s.puts[i] == old(s).puts[i].(stage := Aliens(AskedUpTo(sup, failed, w, j)))
        invariant rest == AskedUpTo(sup, failed, w, j).rest
      {
        AwaitIdle(i, w.elsewhere(Asking, j));
        Ask(i, w.applied(j), w.confirmed(j));
        AskedNext(sup, failed, w, j);
        rest := rest + if w.applied(j) && w.confirmed(j) then [] else [failed[j]];
      }
    }

    /** `put_local_all`: every remaining name is tried; the ones that fail are reported. */
    method WriteAliens(i: nat, h: Handoff, w: World) returns (lost: seq<NodeName>)
      requires Valid() && i < |s.puts| && TasksDone(s.puts[i]) && |h.told| == |h.owners| && h.kept == [] && h.lost == []
      requires s.puts[i].stage == Aliens(h)
      modifies this`s, this`history
      ensures Valid() && i < |s.puts| && old(history) <= history
      ensures s.puts[i] == old(s).puts[i].(stage := Aliens(WrittenUpTo(h, w, |h.rest|)))
      ensures lost == Refused(h.rest, Kept(w, |h.rest|))
    {
      lost := [];
      for j := 0 to |h.rest|
        invariant Valid() && i < |s.puts| && old(history) <= history
        invariant s.puts[i] == old(s).puts[i].(stage := Aliens(WrittenUpTo(h, w, j)))
        invariant lost == WrittenUpTo(h, w, j).lost
      {
        AwaitIdle(i, w.elsewhere(Writing, j));
        WriteAlienHere(i, w.localAlien(j));
        WrittenNext(h, w, j);
        lost := lost + if w.localAlien(j) then [] else [h.rest[j]];
      }
    }

    /** `put_aliens` once the support nodes are chosen. */
    method PutAliens(i: nat, sup: seq<NodeName>, failed: seq<NodeName>, w: World) returns (ok: bool)
      requires Valid() && i < |s.puts| && TasksDone(s.puts[i]) && |sup| <= |failed|
      requires s.puts[i].stage == Aliens(Handoff(sup, failed[..|sup|], [], failed[|sup|..], [], []))
      modifies this`s, this`history
      ensures Valid() && i < |s.puts| && old(history) <= history
      ensures s.puts[i].stage.Finished? && (ok <==> s.puts[i].stage.h.lost == [])
      ensures var rest := failed[|sup|..] + Refused(failed[..|sup|], Told(w, |sup|));
              s.puts[i].stage.h.rest == rest && s.puts[i].stage.h.lost == Refused(rest, Kept(w, |rest|))
      ensures s.puts[i] == old(s).puts[i].(stage := s.puts[i].stage, reply := s.puts[i].reply)
      ensures s.puts[i].reply == if !old(s).puts[i].reply.Pending? then old(s).puts[i].reply
                                 else if ok then OkByAliens else Error
    {
      var rest := AskSupports(i, sup, failed, w);
      var lost := WriteAliens(i, Handoff(sup, failed[..|sup|], Told(w, |sup|), rest, [], []), w);
      AwaitIdle(i, w.elsewhere(Concluding, 0));
      Move(i, Conclude);
      ok := lost == [];
    }

    /** Support nodes are chosen and the hand-off of the failed names begins. */
    method BeginHandoff(i: nat, failed: seq<NodeName>, w: World) returns (sup: seq<NodeName>)
      requires Valid() && i < |s.puts| && TasksDone(s.puts[i]) && failed != []
      requires if s.puts[i].stage.Background? then failed == s.puts[i].failed
               else CollectedBelowQuorum(m, quorum, s.puts[i], failed)
      modifies this`s, this`history
      ensures Valid() && i < |s.puts| && old(history) <= history && |sup| <= |failed|
      ensures s.puts[i] == old(s).puts[i].(failed := failed,
                                           stage := Aliens(Handoff(sup, failed[..|sup|], [], failed[|sup|..], [], [])))
    {
      AwaitIdle(i, w.elsewhere(Deciding, 1));
      sup := SupportNames.GetSupportNodes(m, quorum, s.puts[i].key, |failed|, w.offset, w.flags);
      if s.puts[i].stage.Background? {
        Move(i, BackgroundDone(sup));
      } else {
        Move(i, Decide(sup));
      }
    }

    /** The request and both sides of the join. */
    method BeginPut(coord: NodeName, key: Key, data: BobData, w: World)
      returns (i: nat, okCount: nat, localOk: nat, failed: seq<NodeName>)
      requires Valid() && coord in m.nodes
      modifies this`s, this`history
      ensures i < |s.puts| && Tracks(i, s.puts[i].sent + s.puts[i].answered.Keys, okCount, failed)
           && old(history) <= history
      ensures SameRequest(StartPut(m, coord, key, data), s.puts[i]) && i == |old(s).puts|
      ensures s.puts[i].localRest == [] && localOk == |s.puts[i].localOk|
      ensures s.puts[i].tried == Outcomes(w, |Paths(m.ReplicasFor(key), coord)|)
      ensures okCount >= quorum || TasksDone(s.puts[i])
      ensures Quiet(w, i) ==> AsWorld(m, w, s.puts[i])
    {
      i := |s.puts|;
      Do(Start(coord, key, data));
      okCount, localOk, failed := JoinPuts(i, w);
    }

    method AnswerByQuorum(i: nat)
      requires Valid() && i < |s.puts| && s.puts[i].stage.Collecting? && s.puts[i].localRest == []
      requires s.puts[i].okCount + |s.puts[i].localOk| >= quorum
            && (s.puts[i].okCount >= quorum || TasksDone(s.puts[i]))
      modifies this`s, this`history
      ensures Valid() && old(history) <= history && i < |s.puts| && SamePut(old(s).puts[i], s.puts[i])
      ensures s.puts[i].reply.OkByQuorum? && (s.puts[i].stage.Background? || s.puts[i].stage.Finished?)
      ensures SameAnswers(old(s).puts[i], s.puts[i])
    {
      Move(i, Decide([]));
    }

    /** The decision after the join. */
    method DecideAndAnswer(i: nat, okCount: nat, localOk: nat, errors: seq<NodeName>, w: World) returns (r: Reply)
      requires i < |s.puts| && Tracks(i, s.puts[i].sent + s.puts[i].answered.Keys, okCount, errors)
      requires s.puts[i].stage.Collecting? && s.puts[i].reply.Pending?
      requires s.puts[i].localRest == [] && localOk == |s.puts[i].localOk|
      requires okCount >= quorum || TasksDone(s.puts[i])
      modifies this`s, this`history
      ensures Valid() && old(history) <= history && i < |s.puts| && SamePut(old(s).puts[i], s.puts[i])
      ensures r == s.puts[i].reply && !r.Pending? && (r.OkByQuorum? <==> okCount + localOk >= quorum)
      ensures if r.OkByQuorum? then s.puts[i].stage.Background? || s.puts[i].stage.Finished?
              else s.puts[i].stage.Finished? && (r.OkByAliens? <==> s.puts[i].stage.h.lost == [])
      ensures SameAnswers(old(s).puts[i], s.puts[i])
    {
      var p := s.puts[i];
      var failed := errors;
      if localOk != |Paths(m.ReplicasFor(p.key), p.coord)| {
        failed := [p.coord] + failed;
      }
      if okCount + localOk >= quorum {
        AnswerByQuorum(i);
        return OkByQuorum;
      }
      assert CollectedBelowQuorum(m, quorum, p, failed);
      MissingQuorumFailed(i, failed);
      var sup := BeginHandoff(i, failed, w);
      var ok := PutAliens(i, sup, failed, w);
      r := if ok then OkByAliens else Error;
    }

    /**
     `put_at_least`. Its answer is that of a run of the protocol, and it always gives one: by quorum if
     and only if the remote targets that confirm and the local paths that do not fail have enough
     replicas. An answer by quorum for a stamped record is durable in whatever happens after it.
     */
    method PutAtLeast(coord: NodeName, key: Key, data: BobData, w: World) returns (i: nat, r: Reply)
      requires Valid() && coord in m.nodes
      modifies this`s, this`history
      ensures Valid() && old(history) <= history && i < |s.puts|
      ensures s.puts[i].coord == coord && s.puts[i].key == key && s.puts[i].data == data
      ensures r == s.puts[i].reply && !r.Pending?
      ensures if r.OkByQuorum? then s.puts[i].stage.Background? || s.puts[i].stage.Finished?
              else s.puts[i].stage.Finished? && (r.OkByAliens? <==> s.puts[i].stage.h.lost == [])
      ensures i == |old(s).puts| && s.puts[i].tried == Outcomes(w, |Paths(m.ReplicasFor(key), coord)|)
      ensures forall n | n in RemoteTargets(m, s.puts[i]) ::
                Lookup(s.puts[i].answers, n) == FirstAnswer(m, quorum, start, history, i, n)
      ensures r.OkByQuorum? <==> ConfirmedReplicas(m, s.puts[i]) >= quorum
      ensures Quiet(w, i) ==> (r.OkByQuorum? <==> WorldReplicas(m, w, coord, key) >= quorum)
      ensures r.OkByQuorum? && data.ts > 0 ==>
                forall more, down, local :: StaysReadable(m, quorum, start, history, more, i, data.ts, down, local)
    {
      var okCount, localOk, failed;
      i, okCount, localOk, failed := BeginPut(coord, key, data, w);
      r := DecideAndAnswer(i, okCount, localOk, failed, w);
      Decided(i, w);
      AnswersOfRun(i);
      if data.ts > 0 {
        AnsweredStaysReadable(i, data.ts);
      }
    }

    /** All remaining tasks are taken. */
    method FinishTasks(i: nat, w: World) returns (failed: seq<NodeName>)
      requires Valid() && i < |s.puts| && s.puts[i].stage.Background? && s.puts[i].sent !! s.puts[i].answered.Keys
      modifies this`s, this`history
      ensures Valid() && old(history) <= history && i < |s.puts|
      ensures TasksDone(s.puts[i]) && failed == s.puts[i].failed && OnlyBooked(old(s).puts[i], s.puts[i])
    {
      var tasks, okCount := s.puts[i].sent + s.puts[i].answered.Keys, s.puts[i].okCount;
      failed := s.puts[i].failed;
      var t := 0;
      while tasks != {}
        invariant Tracks(i, tasks, okCount, failed) && old(history) <= history
        invariant OnlyBooked(old(s).puts[i], s.puts[i])
        decreases tasks
      {
        Await(i, w.elsewhere(Finishing, t));
        t := t + 1;
        var n :| n in tasks;
        okCount, failed := TakeTask(i, tasks, okCount, failed, n, w);
        tasks := tasks - {n};
      }
      assert s.puts[i].answered.Keys == {};
    }

    /** `background_put`, for an answered put with tasks or failed names left. */
    method BackgroundPut(i: nat, w: World)
      requires Valid() && i < |s.puts| && s.puts[i].stage.Background?
      modifies this`s, this`history
      ensures Valid() && old(history) <= history && i < |s.puts|
      ensures s.puts[i].stage.Finished? && SamePut(old(s).puts[i], s.puts[i])
      ensures s.puts[i].reply == OkByQuorum
    {
      Reachable(i);
      var failed := FinishTasks(i, w);
      if failed == [] {
        Move(i, BackgroundDone([]));
      } else {
        var sup := BeginHandoff(i, failed, w);
        var ok := PutAliens(i, sup, failed, w);
      }
    }
  }
}
