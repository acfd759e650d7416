/**
 The quorum put as a state machine. One state holds every node's stores and every put that was
 ever started, each at its own stage, so puts of different coordinators interleave freely. An
 action carries all that the network, the disks and the scheduler decide; an action that is not
 enabled changes nothing, so any sequence of actions is a run.
 */
module PutProtocol {
  import opened Types
  import opened Topology
  import opened Stores

  datatype Reply = Pending | OkByQuorum | OkByAliens | Error

  /**
   Work of `put_aliens`: `owners[j]` was given to support node `sup[j]`, `rest` stays local. `told`
   and `kept` remember which requests and local writes so far were confirmed.
   */
  datatype Handoff = Handoff(
    sup: seq<NodeName>, owners: seq<NodeName>, told: seq<bool>,
    rest: seq<NodeName>, kept: seq<bool>, lost: seq<NodeName>)

  /** `Stuck` stands for the failed assertion and for the branch the source calls unreachable. */
  datatype Stage = Collecting | Background | Aliens(h: Handoff) | Finished(h: Handoff) | Stuck

  /** `answers` and `tried` remember every answer of a remote target and the outcome of every local write. */
  datatype Put = Put(
    coord: NodeName, key: Key, data: BobData,
    sent: set<NodeName>,            // requests without an answer
    answered: map<NodeName, bool>,  // finished tasks the coordinator has not taken yet
    oks: set<NodeName>, okCount: nat,
    failed: seq<NodeName>,
    localRest: seq<DiskName>, localOk: seq<DiskName>,
    reply: Reply, stage: Stage,
    answers: map<NodeName, bool>, tried: seq<PathOutcome>)

  datatype State = State(stores: Stores, puts: seq<Put>)

  datatype Move =
    | RemoteApply(n: NodeName, outs: seq<PathOutcome>, answerLost: bool)
    | RemoteError(n: NodeName)
    | Collect(n: NodeName)
    | LocalWrite(out: PathOutcome)
    | Decide(sup: seq<NodeName>)
    | BackgroundDone(sup: seq<NodeName>)
    | AskSupport(applied: bool, confirmed: bool)
    | LocalAlien(ok: bool)
    | Conclude

  /** The last two are the tombstones of deletes, which go on beside the puts. */
  datatype Action =
    | Start(coord: NodeName, key: Key, data: BobData)
    | Step(i: nat, move: Move)
    | DiskTombstone(n: NodeName, disk: DiskName, key: Key, ts: nat)
    | AlienTombstone(n: NodeName, owner: NodeName, key: Key, ts: nat)

  const NOTHING := Handoff([], [], [], [], [], [])

  /** What `get_support_nodes` may return: as many distinct non-target nodes as asked for and available. */
  predicate IsSupportChoice(m: Mapper, targets: seq<NodeName>, count: nat, sup: seq<NodeName>) {
    && NoDup(sup)
    && (forall n | n in sup :: n in m.nodes && n !in targets)
    && |targets| <= |m.nodes|
    && |sup| == if count <= |m.nodes| - |targets| then count else |m.nodes| - |targets|
  }

  function StartPut(m: Mapper, coord: NodeName, key: Key, data: BobData): Put
    requires VDiskId(key, |m.vdisks|) in m.vdisks
  {
    Put(coord, key, data, Elems(m.Targets(key)) - {coord}, map[], {}, 0, [],
        Paths(m.ReplicasFor(key), coord), [], Pending, Collecting, map[], [])
  }

  function AffectedReplicas(rs: seq<Replica>, n: NodeName): nat {
    var c := CountIn(rs, {n});
    if c == 0 then 1 else c
  }

  predicate TasksDone(p: Put) {
    p.sent == {} && p.answered == map[]
  }

  /** Start of `put_aliens`. */
  function BeginAliens(m: Mapper, p: Put, sup: seq<NodeName>): Put
    requires VDiskId(p.key, |m.vdisks|) in m.vdisks
  {
    if p.failed == [] then p.(stage := Stuck)
    else if !IsSupportChoice(m, m.Targets(p.key), |p.failed|, sup) then p
    else p.(stage := Aliens(Handoff(sup, p.failed[..|sup|], [], p.failed[|sup|..], [], [])))
  }

  /** The coordinator is a failed node too if one of its own paths failed. */
  function WithOwnFailure(m: Mapper, p: Put): Put
    requires VDiskId(p.key, |m.vdisks|) in m.vdisks
  {
    var localFailed := |p.localOk| != |Paths(m.ReplicasFor(p.key), p.coord)|;
    p.(failed := (if localFailed then [p.coord] else []) + p.failed)
  }

  /** The end of `tokio::join!` in `put_at_least` and the quorum decision after it. */
  function DecidePut(m: Mapper, quorum: nat, p: Put, sup: seq<NodeName>): Put
    requires VDiskId(p.key, |m.vdisks|) in m.vdisks
  {
    var q := WithOwnFailure(m, p);
    if p.okCount + |p.localOk| >= quorum then
      if TasksDone(p) && q.failed == [] then
        q.(reply := OkByQuorum, stage := Finished(NOTHING))
      else
        q.(reply := OkByQuorum, stage := Background)
    else if !TasksDone(p) then
      p.(stage := Stuck)
    else
      var r := BeginAliens(m, q, sup);
      if r == q then p else r
  }

  function Answer(p: Put, n: NodeName, ok: bool): Put {
    p.(sent := p.sent - {n}, answered := p.answered[n := ok], answers := p.answers[n := ok])
  }

  /** The coordinator takes one finished task and books the node as confirmed or failed. */
  function TakeAnswer(rs: seq<Replica>, p: Put, n: NodeName): Put
    requires n in p.answered
  {
    var q := p.(answered := p.answered - {n});
    if p.answered[n] then q.(oks := q.oks + {n}, okCount := q.okCount + AffectedReplicas(rs, n))
    else q.(failed := q.failed + [n])
  }

  function AfterLocalWrite(p: Put, out: PathOutcome): Put
    requires p.localRest != []
  {
    p.(localRest := p.localRest[1..], localOk := p.localOk + (if out == Failure then [] else [p.localRest[0]]),
       tried := p.tried + [out])
  }

  function AskOne(h: Handoff, confirmed: bool): Handoff
    requires |h.told| < |h.owners|
  {
    h.(told := h.told + [confirmed], rest := h.rest + (if confirmed then [] else [h.owners[|h.told|]]))
  }

  function WriteOne(h: Handoff, ok: bool): Handoff
    requires |h.kept| < |h.rest|
  {
    h.(kept := h.kept + [ok], lost := h.lost + (if ok then [] else [h.rest[|h.kept|]]))
  }

  /** The end of `put_aliens`: the answer is decided here unless the quorum already decided it. */
  function ConcludePut(p: Put): Put
    requires p.stage.Aliens?
  {
    p.(stage := Finished(p.stage.h),
       reply := if !p.reply.Pending? then p.reply else if p.stage.h.lost == [] then OkByAliens else Error)
  }

  ghost predicate HandoffShape(m: Mapper, h: Handoff) {
    |h.sup| == |h.owners| && forall n | n in h.sup :: n in m.nodes
  }

  /** Effect of one move on the stores and on the put it belongs to. */
  function StepPut(m: Mapper, quorum: nat, st: Stores, p: Put, move: Move): (Stores, Put)
    requires VDiskId(p.key, |m.vdisks|) in m.vdisks
    requires p.coord in st && st.Keys == Elems(m.nodes)
    requires p.stage.Aliens? ==> HandoffShape(m, p.stage.h)
  {
    var rs := m.ReplicasFor(p.key);
    match move
    case RemoteApply(n, outs, answerLost) =>
      // A request may be applied after its sender gave up; then only the stores change.
      if n in m.Targets(p.key) && n in st && |outs| == |Paths(rs, n)| then
        (BackendPut(st, n, Paths(rs, n), outs, p.key, p.data),
         if n in p.sent then Answer(p, n, AllStored(outs) && !answerLost) else p)
      else (st, p)
    case RemoteError(n) =>
      (st, if n in p.sent then Answer(p, n, false) else p)
    case Collect(n) =>
      (st, if n in p.answered && ((p.stage.Collecting? && p.okCount < quorum) || p.stage.Background?)
           then TakeAnswer(rs, p, n) else p)
    case LocalWrite(out) =>
      if p.stage.Collecting? && p.localRest != [] then
        (WritePath(st, p.coord, p.localRest[0], p.key, p.data, out), AfterLocalWrite(p, out))
      else (st, p)
    case Decide(sup) =>
      (st, if p.stage.Collecting? && p.localRest == [] && (p.okCount >= quorum || TasksDone(p))
           then DecidePut(m, quorum, p, sup) else p)
    case BackgroundDone(sup) =>
      (st, if p.stage.Background? && TasksDone(p)
           then if p.failed == [] then p.(stage := Finished(NOTHING)) else BeginAliens(m, p, sup)
           else p)
    case AskSupport(applied, confirmed) =>
      if p.stage.Aliens? && |p.stage.h.told| < |p.stage.h.owners| then
        var h := p.stage.h;
        (if applied then WriteAlien(st, h.sup[|h.told|], h.owners[|h.told|], p.key, p.data) else st,
         p.(stage := Aliens(AskOne(h, applied && confirmed))))
      else (st, p)
    case LocalAlien(ok) =>
      if p.stage.Aliens? && |p.stage.h.told| == |p.stage.h.owners| && |p.stage.h.kept| < |p.stage.h.rest| then
        var h := p.stage.h;
        (if ok then WriteAlien(st, p.coord, h.rest[|h.kept|], p.key, p.data) else st,
         p.(stage := Aliens(WriteOne(h, ok))))
      else (st, p)
    case Conclude =>
      (st, if p.stage.Aliens? && |p.stage.h.told| == |p.stage.h.owners| && |p.stage.h.kept| == |p.stage.h.rest|
           then ConcludePut(p) else p)
  }

  /** States in which every put can be stepped. */
  ghost predicate WellFormed(m: Mapper, s: State) {
    && s.stores.Keys == Elems(m.nodes)
    && forall i | 0 <= i < |s.puts| ::
         && s.puts[i].coord in m.nodes
         && (s.puts[i].stage.Aliens? ==> HandoffShape(m, s.puts[i].stage.h))
  }

  function Apply(m: Mapper, quorum: nat, s: State, a: Action): State
    requires m.Valid(quorum) && WellFormed(m, s)
  {
    match a
    case Start(coord, key, data) =>
      if coord in m.nodes then s.(puts := s.puts + [StartPut(m, coord, key, data)]) else s
    case Step(i, move) =>
      if i < |s.puts| then
        var (st, p) := StepPut(m, quorum, s.stores, s.puts[i], move);
        State(st, s.puts[i := p])
      else s
    case DiskTombstone(n, disk, key, ts) =>
      if n in s.stores then s.(stores := KillDisk(s.stores, n, disk, key, ts)) else s
    case AlienTombstone(n, owner, key, ts) =>
      if n in s.stores then s.(stores := KillAlien(s.stores, n, owner, key, ts)) else s
  }

  /** A tombstone of the key written by the action is older than `ts`. */
  predicate OlderDelete(a: Action, key: Key, ts: nat) {
    (a.DiskTombstone? || a.AlienTombstone?) && a.key == key ==> a.ts < ts
  }

  /** All deletes of the key among the actions are older than `ts`. */
  predicate OlderDeletes(actions: seq<Action>, key: Key, ts: nat) {
    forall a | a in actions :: OlderDelete(a, key, ts)
  }
}
