/** What every action of the put protocol keeps, and hence what holds in every reachable state. */
module PutInvariant {
  import opened Types
  import opened Topology
  import opened Stores
  import opened PutProtocol

  ghost function RemoteTargets(m: Mapper, p: Put): set<NodeName>
    requires VDiskId(p.key, |m.vdisks|) in m.vdisks
  {
    Elems(m.Targets(p.key)) - {p.coord}
  }

  /** Every remote target is in exactly one of: waiting, answered, confirmed, failed. */
  ghost predicate Conservation(m: Mapper, p: Put)
    requires VDiskId(p.key, |m.vdisks|) in m.vdisks
  {
    var bad := Elems(p.failed) - {p.coord};
    && p.sent + p.answered.Keys + p.oks + bad == RemoteTargets(m, p)
    && p.sent !! p.answered.Keys
    && (p.sent + p.answered.Keys) !! p.oks
    && (p.sent + p.answered.Keys + p.oks) !! bad
    && NoDup(p.failed)
    && p.okCount == CountIn(m.ReplicasFor(p.key), p.oks)
  }

  /** The local writes go through the local replica paths in order and remember the confirmed ones. */
  ghost predicate LocalProgress(m: Mapper, p: Put)
    requires VDiskId(p.key, |m.vdisks|) in m.vdisks
  {
    var paths := Paths(m.ReplicasFor(p.key), p.coord);
    && |p.localRest| <= |paths|
    && p.localRest == paths[|paths| - |p.localRest|..]
    && |p.localOk| + |p.localRest| <= |paths|
    && (forall d | d in p.localOk :: d in paths)
    && (|p.localOk| + |p.localRest| == |paths| ==> p.localOk == paths[..|p.localOk|])
    && (p.stage.Collecting? ==> p.coord !in p.failed)
    && (!p.stage.Collecting? ==> p.localRest == [] && (p.coord in p.failed <==> |p.localOk| != |paths|))
  }

  ghost predicate Evidence(m: Mapper, st: Stores, p: Put)
    requires VDiskId(p.key, |m.vdisks|) in m.vdisks
  {
    && (forall n, d | n in p.oks && d in Paths(m.ReplicasFor(p.key), n) :: Held(st, n, d, p.key, p.data.ts))
    && (forall n | n in p.answered && p.answered[n] ::
          forall d | d in Paths(m.ReplicasFor(p.key), n) :: Held(st, n, d, p.key, p.data.ts))
    && (forall d | d in p.localOk :: Held(st, p.coord, d, p.key, p.data.ts))
  }

  /** No failed name leaves the hand-off: it waits, is held by its helper, or is recorded as lost. */
  ghost predicate HandoffInv(m: Mapper, st: Stores, p: Put, h: Handoff)
    requires VDiskId(p.key, |m.vdisks|) in m.vdisks
  {
    && HandoffShape(m, h)
    && NoDup(h.sup)
    && (forall n | n in h.sup :: n !in m.Targets(p.key))
    && |h.told| <= |h.owners| && |h.kept| <= |h.rest|
    && (forall f | f in p.failed :: f in h.owners || f in h.rest)
    && (forall f | f in h.owners || f in h.rest :: f in p.failed)
    && (forall j | 0 <= j < |h.told| :: AlienHeld(st, h.sup[j], h.owners[j], p.key, p.data.ts) || h.owners[j] in h.rest)
    && (forall j | 0 <= j < |h.kept| :: AlienHeld(st, p.coord, h.rest[j], p.key, p.data.ts) || h.rest[j] in h.lost)
  }

  ghost predicate StageInv(m: Mapper, quorum: nat, st: Stores, p: Put)
    requires VDiskId(p.key, |m.vdisks|) in m.vdisks
  {
    && (p.reply.OkByQuorum? ==> p.okCount + |p.localOk| >= quorum)
    && match p.stage
       case Collecting => p.reply.Pending?
       case Background => p.reply.OkByQuorum?
       case Aliens(h) => TasksDone(p) && p.failed != [] && HandoffInv(m, st, p, h)
                      && (p.reply.Pending? || p.reply.OkByQuorum?)
       case Finished(h) =>
         && TasksDone(p) && HandoffInv(m, st, p, h) && !p.reply.Pending?
         && |h.told| == |h.owners| && |h.kept| == |h.rest|
         && (!p.reply.OkByQuorum? ==> p.failed != []) && (p.reply.OkByAliens? ==> h.lost == [])
       case Stuck => false
  }

  ghost predicate PutInv(m: Mapper, quorum: nat, st: Stores, p: Put)
    requires m.Valid(quorum)
  {
    && p.coord in m.nodes
    && Conservation(m, p)
    && LocalProgress(m, p)
    && Evidence(m, st, p)
    && StageInv(m, quorum, st, p)
  }

  ghost predicate Inv(m: Mapper, quorum: nat, s: State)
    requires m.Valid(quorum)
  {
    && s.stores.Keys == Elems(m.nodes)
    && forall i | 0 <= i < |s.puts| :: PutInv(m, quorum, s.stores, s.puts[i])
  }

  // ---- other puts only see the stores grow ----

  lemma HandoffInvKept(m: Mapper, a: Stores, b: Stores, p: Put, h: Handoff)
    requires VDiskId(p.key, |m.vdisks|) in m.vdisks
    requires HandoffInv(m, a, p, h) && Keeps(a, b)
    ensures HandoffInv(m, b, p, h)
  {
  }

  lemma PutInvKept(m: Mapper, quorum: nat, a: Stores, b: Stores, p: Put)
    requires m.Valid(quorum) && PutInv(m, quorum, a, p) && Keeps(a, b)
    ensures PutInv(m, quorum, b, p)
  {
    forall n, d | Held(a, n, d, p.key, p.data.ts) ensures Held(b, n, d, p.key, p.data.ts) {
      KeepsHeld(a, b, n, d, p.key, p.data.ts);
    }
    if p.stage.Aliens? || p.stage.Finished? {
      HandoffInvKept(m, a, b, p, p.stage.h);
    }
  }

  // ---- one lemma per move ----

  lemma StartInv(m: Mapper, quorum: nat, st: Stores, coord: NodeName, key: Key, data: BobData)
    requires m.Valid(quorum) && coord in m.nodes
    ensures PutInv(m, quorum, st, StartPut(m, coord, key, data))
  {
    CountInNone(m.ReplicasFor(key));
  }

  lemma AnswerInv(m: Mapper, quorum: nat, st: Stores, p: Put, n: NodeName, ok: bool)
    requires m.Valid(quorum) && PutInv(m, quorum, st, p) && n in p.sent
    requires ok ==> forall d | d in Paths(m.ReplicasFor(p.key), n) :: Held(st, n, d, p.key, p.data.ts)
    ensures PutInv(m, quorum, st, Answer(p, n, ok))
  {
    var q := Answer(p, n, ok);
    assert q.sent + q.answered.Keys == p.sent + p.answered.Keys;
    assert Conservation(m, q) && LocalProgress(m, q) && Evidence(m, st, q);
    assert StageInv(m, quorum, st, q);
  }

  lemma TakeAnswerConserves(m: Mapper, quorum: nat, p: Put, n: NodeName)
    requires m.Valid(quorum) && Conservation(m, p) && n in p.answered
    ensures Conservation(m, TakeAnswer(m.ReplicasFor(p.key), p, n))
  {
    var rs := m.ReplicasFor(p.key);
    var q := TakeAnswer(rs, p, n);
    assert p.answered.Keys == q.answered.Keys + {n};
    if p.answered[n] {
      CountInDisjoint(rs, p.oks, {n});
      TargetsConserveReplicas(m, quorum, p.key);
      assert n in m.Targets(p.key);
    } else {
      NoDupAppend(p.failed, n);
      assert Elems(q.failed) == Elems(p.failed) + {n};
    }
  }

  lemma TakeAnswerEvidence(m: Mapper, st: Stores, p: Put, n: NodeName)
    requires VDiskId(p.key, |m.vdisks|) in m.vdisks && Evidence(m, st, p) && n in p.answered
    ensures Evidence(m, st, TakeAnswer(m.ReplicasFor(p.key), p, n))
  {
  }

  lemma TakeAnswerLocal(m: Mapper, p: Put, n: NodeName)
    requires VDiskId(p.key, |m.vdisks|) in m.vdisks && Conservation(m, p) && LocalProgress(m, p) && n in p.answered
    ensures LocalProgress(m, TakeAnswer(m.ReplicasFor(p.key), p, n))
  {
    assert n in RemoteTargets(m, p);
    assert p.coord in p.failed + [n] <==> p.coord in p.failed;
  }

  lemma TakeAnswerInv(m: Mapper, quorum: nat, st: Stores, p: Put, n: NodeName)
    requires m.Valid(quorum) && PutInv(m, quorum, st, p)
    requires n in p.answered && (p.stage.Collecting? || p.stage.Background?)
    ensures PutInv(m, quorum, st, TakeAnswer(m.ReplicasFor(p.key), p, n))
  {
    var q := TakeAnswer(m.ReplicasFor(p.key), p, n);
    TakeAnswerConserves(m, quorum, p, n);
    TakeAnswerEvidence(m, st, p, n);
    TakeAnswerLocal(m, p, n);
    assert StageInv(m, quorum, st, q);
  }

  lemma LocalWriteProgress(m: Mapper, p: Put, out: PathOutcome)
    requires VDiskId(p.key, |m.vdisks|) in m.vdisks
    requires LocalProgress(m, p) && p.stage.Collecting? && p.localRest != []
    ensures LocalProgress(m, AfterLocalWrite(p, out))
  {
    var q := AfterLocalWrite(p, out);
    var paths := Paths(m.ReplicasFor(p.key), p.coord);
    var k := |paths| - |p.localRest|;
    assert p.localRest[0] == paths[k];
    assert q.localRest == paths[k + 1..];
    assert out != Failure ==> paths[..k + 1] == paths[..k] + [paths[k]];
  }

  lemma LocalWriteInv(m: Mapper, quorum: nat, st: Stores, p: Put, out: PathOutcome)
    requires m.Valid(quorum) && PutInv(m, quorum, st, p)
    requires p.stage.Collecting? && p.localRest != []
    requires out != Failure ==> Held(st, p.coord, p.localRest[0], p.key, p.data.ts)
    ensures PutInv(m, quorum, st, AfterLocalWrite(p, out))
  {
    var q := AfterLocalWrite(p, out);
    LocalWriteProgress(m, p, out);
    assert forall x | x in q.localOk :: x in p.localOk || (out != Failure && x == p.localRest[0]);
    assert Conservation(m, q) && Evidence(m, st, q) && StageInv(m, quorum, st, q);
  }

  lemma AllConfirmed(m: Mapper, quorum: nat, key: Key, oks: set<NodeName>, coord: NodeName)
    requires m.Valid(quorum) && Elems(m.Targets(key)) <= oks + {coord} && coord !in oks
    ensures CountIn(m.ReplicasFor(key), oks) + |Paths(m.ReplicasFor(key), coord)| >= quorum
  {
    var rs := m.ReplicasFor(key);
    TargetsConserveReplicas(m, quorum, key);
    PathsCount(rs, coord);
    CountInDisjoint(rs, oks, {coord});
    CountInMonotone(rs, Elems(m.Targets(key)), oks + {coord});
  }

  /** If nothing failed, the confirmed replicas are all replicas, which is at least the quorum. */
  lemma FailureBelowQuorum(m: Mapper, quorum: nat, st: Stores, p: Put)
    requires m.Valid(quorum) && PutInv(m, quorum, st, p)
    requires p.stage.Collecting? && p.localRest == [] && TasksDone(p)
    requires p.okCount + |p.localOk| < quorum
    ensures p.failed != [] || |p.localOk| != |Paths(m.ReplicasFor(p.key), p.coord)|
  {
    var rs := m.ReplicasFor(p.key);
    if p.failed == [] && |p.localOk| == |Paths(rs, p.coord)| {
      assert Elems(m.Targets(p.key)) <= p.oks + {p.coord} && p.coord !in p.oks;
      AllConfirmed(m, quorum, p.key, p.oks, p.coord);
      assert false;
    }
  }

  lemma BegunHandoff(m: Mapper, st: Stores, p: Put, sup: seq<NodeName>)
    requires VDiskId(p.key, |m.vdisks|) in m.vdisks && IsSupportChoice(m, m.Targets(p.key), |p.failed|, sup)
    ensures HandoffInv(m, st, p, Handoff(sup, p.failed[..|sup|], [], p.failed[|sup|..], [], []))
  {
    assert p.failed == p.failed[..|sup|] + p.failed[|sup|..];
  }

  /** Stage and reply are no part of the accounts. */
  lemma SameAccounts(m: Mapper, st: Stores, p: Put, q: Put)
    requires VDiskId(p.key, |m.vdisks|) in m.vdisks && q == p.(stage := q.stage, reply := q.reply)
    ensures Conservation(m, q) == Conservation(m, p) && Evidence(m, st, q) == Evidence(m, st, p)
  {
  }

  /** Local progress of a put that has stopped collecting. */
  ghost predicate LocallyDone(m: Mapper, p: Put)
    requires VDiskId(p.key, |m.vdisks|) in m.vdisks
  {
    LocalProgress(m, p.(stage := Aliens(NOTHING)))
  }

  lemma StaysDone(m: Mapper, p: Put, q: Put)
    requires VDiskId(p.key, |m.vdisks|) in m.vdisks && q == p.(stage := q.stage, reply := q.reply)
    requires LocallyDone(m, p) && !q.stage.Collecting?
    ensures LocalProgress(m, q)
  {
  }

  lemma BeginAliensInv(m: Mapper, quorum: nat, st: Stores, p: Put, sup: seq<NodeName>)
    requires m.Valid(quorum) && p.failed != [] && TasksDone(p)
    requires p.coord in m.nodes && Conservation(m, p) && Evidence(m, st, p) && LocallyDone(m, p)
    requires p.reply.Pending? || (p.reply.OkByQuorum? && p.okCount + |p.localOk| >= quorum)
    ensures BeginAliens(m, p, sup) == p || PutInv(m, quorum, st, BeginAliens(m, p, sup))
  {
    if IsSupportChoice(m, m.Targets(p.key), |p.failed|, sup) {
      var q := BeginAliens(m, p, sup);
      BegunHandoff(m, st, q, sup);
      SameAccounts(m, st, p, q);
      StaysDone(m, p, q);
    }
  }

  /** After the join the coordinator joins the failed nodes if one of its own paths failed. */
  lemma WithLocalFailure(m: Mapper, st: Stores, p: Put, q: Put)
    requires VDiskId(p.key, |m.vdisks|) in m.vdisks && Conservation(m, p) && Evidence(m, st, p) && p.coord !in p.failed
    requires LocalProgress(m, p) && p.localRest == [] && q == WithOwnFailure(m, p)
    ensures Conservation(m, q) && Evidence(m, st, q) && LocallyDone(m, q)
  {
    assert Elems(q.failed) - {p.coord} == Elems(p.failed) - {p.coord};
  }

  lemma QuorumReachedInv(m: Mapper, quorum: nat, st: Stores, q: Put, r: Put)
    requires m.Valid(quorum) && q.coord in m.nodes && Conservation(m, q) && Evidence(m, st, q) && LocallyDone(m, q)
    requires q.okCount + |q.localOk| >= quorum && r == q.(reply := OkByQuorum, stage := r.stage)
    requires r.stage == Background || (r.stage == Finished(NOTHING) && TasksDone(q) && q.failed == [])
    ensures PutInv(m, quorum, st, r)
  {
    SameAccounts(m, st, q, r);
    StaysDone(m, q, r);
  }

  lemma DecideInv(m: Mapper, quorum: nat, st: Stores, p: Put, sup: seq<NodeName>)
    requires m.Valid(quorum) && PutInv(m, quorum, st, p)
    requires p.stage.Collecting? && p.localRest == [] && (p.okCount >= quorum || TasksDone(p))
    ensures PutInv(m, quorum, st, DecidePut(m, quorum, p, sup))
  {
    var q := WithOwnFailure(m, p);
    WithLocalFailure(m, st, p, q);
    if p.okCount + |p.localOk| >= quorum {
      QuorumReachedInv(m, quorum, st, q, DecidePut(m, quorum, p, sup));
    } else {
      FailureBelowQuorum(m, quorum, st, p);
      BeginAliensInv(m, quorum, st, q, sup);
    }
  }

  lemma BackgroundDoneInv(m: Mapper, quorum: nat, st: Stores, p: Put, sup: seq<NodeName>)
    requires m.Valid(quorum) && PutInv(m, quorum, st, p) && p.stage.Background? && TasksDone(p)
    ensures PutInv(m, quorum, st, if p.failed == [] then p.(stage := Finished(NOTHING)) else BeginAliens(m, p, sup))
  {
    if p.failed != [] {
      BeginAliensInv(m, quorum, st, p, sup);
    }
  }

  lemma AskedHandoff(m: Mapper, st: Stores, p: Put, h: Handoff, h': Handoff)
    requires VDiskId(p.key, |m.vdisks|) in m.vdisks
    requires HandoffInv(m, st, p, h) && |h.told| < |h.owners|
    requires h' == h.(told := h'.told, rest := h'.rest) && |h'.told| == |h.told| + 1
    requires h'.rest == h.rest + [h.owners[|h.told|]]
          || (h'.rest == h.rest && AlienHeld(st, h.sup[|h.told|], h.owners[|h.told|], p.key, p.data.ts))
    ensures HandoffInv(m, st, p, h')
  {
    assert forall f :: f in h'.rest <==> f in h.rest || (f == h.owners[|h.told|] && h'.rest != h.rest);
  }

  lemma WrittenHandoff(m: Mapper, st: Stores, p: Put, h: Handoff, h': Handoff)
    requires VDiskId(p.key, |m.vdisks|) in m.vdisks
    requires HandoffInv(m, st, p, h) && |h.kept| < |h.rest|
    requires h' == h.(kept := h'.kept, lost := h'.lost) && |h'.kept| == |h.kept| + 1
    requires h'.lost == h.lost + [h.rest[|h.kept|]]
          || (h'.lost == h.lost && AlienHeld(st, p.coord, h.rest[|h.kept|], p.key, p.data.ts))
    ensures HandoffInv(m, st, p, h')
  {
  }

  /** A change of the hand-off alone is all a put in the alien stage goes through. */
  lemma HandoffStep(m: Mapper, quorum: nat, st: Stores, p: Put, h: Handoff)
    requires m.Valid(quorum) && PutInv(m, quorum, st, p) && p.stage.Aliens?
    requires HandoffInv(m, st, p, h)
    ensures PutInv(m, quorum, st, p.(stage := Aliens(h)))
  {
    var q := p.(stage := Aliens(h));
    assert HandoffInv(m, st, q, h);
  }

  lemma AskSupportInv(m: Mapper, quorum: nat, st: Stores, p: Put, confirmed: bool)
    requires m.Valid(quorum) && PutInv(m, quorum, st, p)
    requires p.stage.Aliens? && |p.stage.h.told| < |p.stage.h.owners|
    requires var h := p.stage.h; confirmed ==> AlienHeld(st, h.sup[|h.told|], h.owners[|h.told|], p.key, p.data.ts)
    ensures PutInv(m, quorum, st, p.(stage := Aliens(AskOne(p.stage.h, confirmed))))
  {
    AskedHandoff(m, st, p, p.stage.h, AskOne(p.stage.h, confirmed));
    HandoffStep(m, quorum, st, p, AskOne(p.stage.h, confirmed));
  }

  lemma LocalAlienInv(m: Mapper, quorum: nat, st: Stores, p: Put, ok: bool)
    requires m.Valid(quorum) && PutInv(m, quorum, st, p)
    requires p.stage.Aliens? && |p.stage.h.kept| < |p.stage.h.rest|
    requires var h := p.stage.h; ok ==> AlienHeld(st, p.coord, h.rest[|h.kept|], p.key, p.data.ts)
    ensures PutInv(m, quorum, st, p.(stage := Aliens(WriteOne(p.stage.h, ok))))
  {
    WrittenHandoff(m, st, p, p.stage.h, WriteOne(p.stage.h, ok));
    HandoffStep(m, quorum, st, p, WriteOne(p.stage.h, ok));
  }

  lemma ConcludeInv(m: Mapper, quorum: nat, st: Stores, p: Put)
    requires m.Valid(quorum) && PutInv(m, quorum, st, p)
    requires p.stage.Aliens? && |p.stage.h.told| == |p.stage.h.owners| && |p.stage.h.kept| == |p.stage.h.rest|
    ensures PutInv(m, quorum, st, ConcludePut(p))
  {
    var q := ConcludePut(p);
    assert HandoffInv(m, st, q, q.stage.h);
    assert Conservation(m, q) && LocalProgress(m, q) && Evidence(m, st, q);
  }

  lemma StepPutGrows(m: Mapper, quorum: nat, st: Stores, p: Put, move: Move)
    requires VDiskId(p.key, |m.vdisks|) in m.vdisks
    requires p.coord in st && st.Keys == Elems(m.nodes)
    requires p.stage.Aliens? ==> HandoffShape(m, p.stage.h)
    ensures Grows(st, StepPut(m, quorum, st, p, move).0)
  {
    match move
    case RemoteApply(n, outs, answerLost) =>
      var paths := Paths(m.ReplicasFor(p.key), n);
      if n in st && |outs| == |paths| {
        BackendPutEffect(st, n, paths, outs, p.key, p.data);
      }
    case LocalWrite(out) =>
      if p.localRest != [] {
        WritePathEffect(st, p.coord, p.localRest[0], p.key, p.data, out);
      }
    case AskSupport(applied, confirmed) =>
      if p.stage.Aliens? && |p.stage.h.told| < |p.stage.h.owners| {
        WriteAlienEffect(st, p.stage.h.sup[|p.stage.h.told|], p.stage.h.owners[|p.stage.h.told|], p.key, p.data);
      }
    case LocalAlien(ok) =>
      if p.stage.Aliens? && |p.stage.h.kept| < |p.stage.h.rest| {
        WriteAlienEffect(st, p.coord, p.stage.h.rest[|p.stage.h.kept|], p.key, p.data);
      }
    case _ =>
  }

  lemma RemoteApplyInv(m: Mapper, quorum: nat, st: Stores, p: Put, n: NodeName, outs: seq<PathOutcome>,
                       answerLost: bool)
    requires m.Valid(quorum) && PutInv(m, quorum, st, p) && n in st && |outs| == |Paths(m.ReplicasFor(p.key), n)|
    ensures PutInv(m, quorum, BackendPut(st, n, Paths(m.ReplicasFor(p.key), n), outs, p.key, p.data),
                   if n in p.sent then Answer(p, n, AllStored(outs) && !answerLost) else p)
  {
    var paths := Paths(m.ReplicasFor(p.key), n);
    BackendPutEffect(st, n, paths, outs, p.key, p.data);
    PutInvKept(m, quorum, st, BackendPut(st, n, paths, outs, p.key, p.data), p);
    if n in p.sent {
      if AllStored(outs) {
        ConfirmedIsHeld(BackendPut(st, n, paths, outs, p.key, p.data), n, paths, outs, p.key, p.data.ts);
      }
      AnswerInv(m, quorum, BackendPut(st, n, paths, outs, p.key, p.data), p, n, AllStored(outs) && !answerLost);
    }
  }

  lemma LocalMoveInv(m: Mapper, quorum: nat, st: Stores, p: Put, out: PathOutcome)
    requires m.Valid(quorum) && PutInv(m, quorum, st, p) && p.coord in st
    requires p.stage.Collecting? && p.localRest != []
    ensures PutInv(m, quorum, WritePath(st, p.coord, p.localRest[0], p.key, p.data, out), AfterLocalWrite(p, out))
  {
    var d := p.localRest[0];
    WritePathEffect(st, p.coord, d, p.key, p.data, out);
    PutInvKept(m, quorum, st, WritePath(st, p.coord, d, p.key, p.data, out), p);
    LocalWriteInv(m, quorum, WritePath(st, p.coord, d, p.key, p.data, out), p, out);
  }

  lemma AlienWrittenInv(m: Mapper, quorum: nat, st: Stores, p: Put, n: NodeName, owner: NodeName)
    requires m.Valid(quorum) && PutInv(m, quorum, st, p) && n in st
    ensures PutInv(m, quorum, WriteAlien(st, n, owner, p.key, p.data), p)
    ensures AlienHeld(WriteAlien(st, n, owner, p.key, p.data), n, owner, p.key, p.data.ts)
  {
    WriteAlienEffect(st, n, owner, p.key, p.data);
    PutInvKept(m, quorum, st, WriteAlien(st, n, owner, p.key, p.data), p);
  }

  lemma AskMoveInv(m: Mapper, quorum: nat, st: Stores, p: Put, applied: bool, confirmed: bool)
    requires m.Valid(quorum) && PutInv(m, quorum, st, p) && st.Keys == Elems(m.nodes)
    requires p.stage.Aliens? && |p.stage.h.told| < |p.stage.h.owners|
    ensures var h := p.stage.h;
            h.sup[|h.told|] in st
            && PutInv(m, quorum,
                      if applied then WriteAlien(st, h.sup[|h.told|], h.owners[|h.told|], p.key, p.data) else st,
                      p.(stage := Aliens(AskOne(h, applied && confirmed))))
  {
    var h := p.stage.h;
    assert h.sup[|h.told|] in h.sup;
    if applied {
      AlienWrittenInv(m, quorum, st, p, h.sup[|h.told|], h.owners[|h.told|]);
      AskSupportInv(m, quorum, WriteAlien(st, h.sup[|h.told|], h.owners[|h.told|], p.key, p.data), p, confirmed);
    } else {
      AskSupportInv(m, quorum, st, p, false);
    }
  }

  lemma AlienMoveInv(m: Mapper, quorum: nat, st: Stores, p: Put, ok: bool)
    requires m.Valid(quorum) && PutInv(m, quorum, st, p) && p.coord in st
    requires p.stage.Aliens? && |p.stage.h.kept| < |p.stage.h.rest|
    ensures var h := p.stage.h;
            PutInv(m, quorum, if ok then WriteAlien(st, p.coord, h.rest[|h.kept|], p.key, p.data) else st,
                   p.(stage := Aliens(WriteOne(h, ok))))
  {
    var h := p.stage.h;
    if ok {
      AlienWrittenInv(m, quorum, st, p, p.coord, h.rest[|h.kept|]);
      LocalAlienInv(m, quorum, WriteAlien(st, p.coord, h.rest[|h.kept|], p.key, p.data), p, ok);
    } else {
      LocalAlienInv(m, quorum, st, p, ok);
    }
  }

  lemma StepPutInv(m: Mapper, quorum: nat, st: Stores, p: Put, move: Move)
    requires m.Valid(quorum) && PutInv(m, quorum, st, p) && st.Keys == Elems(m.nodes)
    ensures PutInv(m, quorum, StepPut(m, quorum, st, p, move).0, StepPut(m, quorum, st, p, move).1)
  {
    if StepPut(m, quorum, st, p, move) == (st, p) {
      return;
    }
    match move
    case RemoteApply(n, outs, answerLost) => RemoteApplyInv(m, quorum, st, p, n, outs, answerLost);
    case RemoteError(n) => AnswerInv(m, quorum, st, p, n, false);
    case Collect(n) => TakeAnswerInv(m, quorum, st, p, n);
    case LocalWrite(out) => LocalMoveInv(m, quorum, st, p, out);
    case Decide(sup) => DecideInv(m, quorum, st, p, sup);
    case BackgroundDone(sup) => BackgroundDoneInv(m, quorum, st, p, sup);
    case Conclude => ConcludeInv(m, quorum, st, p);
    case AskSupport(applied, confirmed) => AskMoveInv(m, quorum, st, p, applied, confirmed);
    case LocalAlien(ok) => AlienMoveInv(m, quorum, st, p, ok);
  }

  /** Whatever an action does, the puts it does not move only see the stores grow. */
  lemma AllKeep(m: Mapper, quorum: nat, st: Stores, st': Stores, puts: seq<Put>)
    requires m.Valid(quorum) && Keeps(st, st') && forall j | 0 <= j < |puts| :: PutInv(m, quorum, st, puts[j])
    ensures forall j | 0 <= j < |puts| :: PutInv(m, quorum, st', puts[j])
  {
    forall j | 0 <= j < |puts| ensures PutInv(m, quorum, st', puts[j]) {
      PutInvKept(m, quorum, st, st', puts[j]);
    }
  }

  lemma OthersKeep(m: Mapper, quorum: nat, st: Stores, st': Stores, puts: seq<Put>, i: nat, q: Put, puts': seq<Put>)
    requires m.Valid(quorum) && i < |puts| && Keeps(st, st') && PutInv(m, quorum, st', q) && puts' == puts[i := q]
    requires forall j | 0 <= j < |puts| :: PutInv(m, quorum, st, puts[j])
    ensures forall j | 0 <= j < |puts'| :: PutInv(m, quorum, st', puts'[j])
  {
    AllKeep(m, quorum, st, st', puts);
  }

  lemma StepInv(m: Mapper, quorum: nat, s: State, i: nat, move: Move)
    requires m.Valid(quorum) && Inv(m, quorum, s) && WellFormed(m, s)
    ensures Inv(m, quorum, Apply(m, quorum, s, Step(i, move)))
    ensures Grows(s.stores, Apply(m, quorum, s, Step(i, move)).stores)
  {
    if i < |s.puts| {
      var (st', q) := StepPut(m, quorum, s.stores, s.puts[i], move);
      StepPutInv(m, quorum, s.stores, s.puts[i], move);
      StepPutGrows(m, quorum, s.stores, s.puts[i], move);
      OthersKeep(m, quorum, s.stores, st', s.puts, i, q, s.puts[i := q]);
    }
  }

  lemma InvWellFormed(m: Mapper, quorum: nat, s: State)
    requires m.Valid(quorum) && Inv(m, quorum, s)
    ensures WellFormed(m, s)
  {
  }

  lemma KillDiskKeeps(st: Stores, n: NodeName, disk: DiskName, key: Key, ts: nat)
    requires n in st
    ensures Keeps(st, KillDisk(st, n, disk, key, ts))
  {
  }

  lemma KillAlienKeeps(st: Stores, n: NodeName, owner: NodeName, key: Key, ts: nat)
    requires n in st
    ensures Keeps(st, KillAlien(st, n, owner, key, ts))
  {
  }

  lemma ApplyInv(m: Mapper, quorum: nat, s: State, a: Action)
    requires m.Valid(quorum) && Inv(m, quorum, s)
    ensures WellFormed(m, s) && Inv(m, quorum, Apply(m, quorum, s, a))
    ensures Keeps(s.stores, Apply(m, quorum, s, a).stores)
  {
    InvWellFormed(m, quorum, s);
    match a
    case Start(coord, key, data) =>
      if coord in m.nodes {
        StartInv(m, quorum, s.stores, coord, key, data);
      }
    case Step(i, move) => StepInv(m, quorum, s, i, move);
    case DiskTombstone(n, disk, key, ts) =>
      if n in s.stores {
        KillDiskKeeps(s.stores, n, disk, key, ts);
        AllKeep(m, quorum, s.stores, KillDisk(s.stores, n, disk, key, ts), s.puts);
      }
    case AlienTombstone(n, owner, key, ts) =>
      if n in s.stores {
        KillAlienKeeps(s.stores, n, owner, key, ts);
        AllKeep(m, quorum, s.stores, KillAlien(s.stores, n, owner, key, ts), s.puts);
      }
  }

  lemma StepWellFormed(m: Mapper, quorum: nat, st: Stores, p: Put, move: Move)
    requires VDiskId(p.key, |m.vdisks|) in m.vdisks && p.coord in m.nodes && st.Keys == Elems(m.nodes)
    requires p.stage.Aliens? ==> HandoffShape(m, p.stage.h)
    ensures var (st', q) := StepPut(m, quorum, st, p, move);
            st'.Keys == st.Keys && q.coord == p.coord && (q.stage.Aliens? ==> HandoffShape(m, q.stage.h))
  {
    StepPutGrows(m, quorum, st, p, move);
    StepShape(m, quorum, st, p, move);
  }

  lemma StepShape(m: Mapper, quorum: nat, st: Stores, p: Put, move: Move)
    requires VDiskId(p.key, |m.vdisks|) in m.vdisks && p.coord in st && st.Keys == Elems(m.nodes)
    requires p.stage.Aliens? ==> HandoffShape(m, p.stage.h)
    ensures var q := StepPut(m, quorum, st, p, move).1;
            q.coord == p.coord && (q.stage.Aliens? ==> HandoffShape(m, q.stage.h))
  {
    match move
    case Decide(sup) => BeginShape(m, p, sup);
    case BackgroundDone(sup) => BeginShape(m, p, sup);
    case _ =>
  }

  lemma BeginShape(m: Mapper, p: Put, sup: seq<NodeName>)
    requires VDiskId(p.key, |m.vdisks|) in m.vdisks && (p.stage.Aliens? ==> HandoffShape(m, p.stage.h))
    ensures var q := BeginAliens(m, p, sup); q.coord == p.coord && (q.stage.Aliens? ==> HandoffShape(m, q.stage.h))
  {
  }

  lemma ApplyWellFormed(m: Mapper, quorum: nat, s: State, a: Action)
    requires m.Valid(quorum) && WellFormed(m, s)
    ensures WellFormed(m, Apply(m, quorum, s, a))
  {
    if a.Step? && a.i < |s.puts| {
      StepWellFormed(m, quorum, s.stores, s.puts[a.i], a.move);
    }
  }

  /** The state after a run of arbitrary actions from stores with arbitrary contents. */
  ghost function Run(m: Mapper, quorum: nat, st: Stores, actions: seq<Action>): (s: State)
    requires m.Valid(quorum) && st.Keys == Elems(m.nodes)
    ensures WellFormed(m, s)
  {
    if actions == [] then State(st, [])
    else
      var s := Run(m, quorum, st, actions[..|actions| - 1]);
      ApplyWellFormed(m, quorum, s, actions[|actions| - 1]);
      Apply(m, quorum, s, actions[|actions| - 1])
  }

  /** Every reachable state satisfies the invariant, and nothing stored at the beginning is lost or older. */
  lemma {:induction false} RunInv(m: Mapper, quorum: nat, st: Stores, actions: seq<Action>)
    requires m.Valid(quorum) && st.Keys == Elems(m.nodes)
    ensures Inv(m, quorum, Run(m, quorum, st, actions)) && Keeps(st, Run(m, quorum, st, actions).stores)
  {
    if actions != [] {
      var s := Run(m, quorum, st, actions[..|actions| - 1]);
      RunInv(m, quorum, st, actions[..|actions| - 1]);
      ApplyInv(m, quorum, s, actions[|actions| - 1]);
      KeepsTransitive(st, s.stores, Run(m, quorum, st, actions).stores);
    }
  }

  lemma RunSnoc(m: Mapper, quorum: nat, st: Stores, actions: seq<Action>, a: Action)
    requires m.Valid(quorum) && st.Keys == Elems(m.nodes)
    ensures Run(m, quorum, st, actions + [a]) == Apply(m, quorum, Run(m, quorum, st, actions), a)
  {
    assert (actions + [a])[..|actions + [a]| - 1] == actions;
  }

  // ---- tombstones come from deletes only ----

  lemma KilledDisk(st: Stores, n: NodeName, disk: DiskName, key: Key, ts: nat, key': Key, ts': nat)
    requires n in st && OlderTombstones(st, key', ts') && (key == key' ==> ts < ts')
    ensures OlderTombstones(KillDisk(st, n, disk, key, ts), key', ts')
  {
  }

  lemma KilledAlien(st: Stores, n: NodeName, owner: NodeName, key: Key, ts: nat, key': Key, ts': nat)
    requires n in st && OlderTombstones(st, key', ts') && (key == key' ==> ts < ts')
    ensures OlderTombstones(KillAlien(st, n, owner, key, ts), key', ts')
  {
  }

  lemma ApplyKeepsOlder(m: Mapper, quorum: nat, s: State, a: Action, key: Key, ts: nat)
    requires m.Valid(quorum) && WellFormed(m, s) && OlderTombstones(s.stores, key, ts) && OlderDelete(a, key, ts)
    ensures OlderTombstones(Apply(m, quorum, s, a).stores, key, ts)
  {
    match a
    case Start(coord, k, data) =>
    case Step(i, move) =>
      if i < |s.puts| {
        StepPutGrows(m, quorum, s.stores, s.puts[i], move);
        GrowsKeepsOlder(s.stores, StepPut(m, quorum, s.stores, s.puts[i], move).0, key, ts);
      }
    case DiskTombstone(n, disk, k, t) =>
      if n in s.stores {
        KilledDisk(s.stores, n, disk, k, t, key, ts);
      }
    case AlienTombstone(n, owner, k, t) =>
      if n in s.stores {
        KilledAlien(s.stores, n, owner, k, t, key, ts);
      }
  }

  /** If the tombstones at the beginning and all deletes of the run are older, so are the tombstones at its end. */
  lemma {:induction false} RunKeepsOlder(m: Mapper, quorum: nat, st: Stores, actions: seq<Action>, key: Key, ts: nat)
    requires m.Valid(quorum) && st.Keys == Elems(m.nodes)
    requires OlderTombstones(st, key, ts) && OlderDeletes(actions, key, ts)
    ensures OlderTombstones(Run(m, quorum, st, actions).stores, key, ts)
  {
    if actions != [] {
      var init, a := actions[..|actions| - 1], actions[|actions| - 1];
      RunKeepsOlder(m, quorum, st, init, key, ts);
      ApplyKeepsOlder(m, quorum, Run(m, quorum, st, init), a, key, ts);
    }
  }
}
