/**
 The books of a put: what its coordinator concludes is exactly what it was told. Confirmed and
 failed nodes follow from the answers given, confirmed paths from the local outcomes, the names
 of the hand-off from the support nodes' answers, and the quorum decision from all of these.
 */
module PutBooks {
  import opened Types
  import opened Topology
  import opened Stores
  import opened PutProtocol
  import opened PutInvariant

  /** Names whose flag is false, in order. */
  function Refused(names: seq<NodeName>, flags: seq<bool>): seq<NodeName>
    requires |flags| <= |names|
  {
    if flags == [] then []
    else
      var k := |flags| - 1;
      Refused(names, flags[..k]) + (if flags[k] then [] else [names[k]])
  }

  lemma RefusedNext(names: seq<NodeName>, flags: seq<bool>, flag: bool)
    requires |flags| < |names|
    ensures Refused(names, flags + [flag]) == Refused(names, flags) + (if flag then [] else [names[|flags|]])
  {
    assert (flags + [flag])[..|flags|] == flags;
  }

  /** Paths that took their write, in order. */
  function StoredPaths(paths: seq<DiskName>, outs: seq<PathOutcome>): seq<DiskName>
    requires |outs| <= |paths|
  {
    if outs == [] then []
    else
      var k := |outs| - 1;
      StoredPaths(paths, outs[..k]) + (if outs[k] == Failure then [] else [paths[k]])
  }

  lemma StoredNext(paths: seq<DiskName>, outs: seq<PathOutcome>, out: PathOutcome)
    requires |outs| < |paths|
    ensures StoredPaths(paths, outs + [out])
         == StoredPaths(paths, outs) + (if out == Failure then [] else [paths[|outs|]])
  {
    assert (outs + [out])[..|outs|] == outs;
  }

  // ---- the books ----

  /** Taken answers: confirmations are in `oks`, all others in `failed`, each once. */
  ghost predicate RemoteBooked(m: Mapper, p: Put)
    requires VDiskId(p.key, |m.vdisks|) in m.vdisks
  {
    && p.answers.Keys == RemoteTargets(m, p) - p.sent
    && (forall n | n in p.answered :: n in p.answers && p.answered[n] == p.answers[n])
    && (forall n :: n in p.oks <==> n in p.answers && n !in p.answered && p.answers[n])
    && (forall n | n != p.coord :: n in p.failed <==> n in p.answers && n !in p.answered && !p.answers[n])
  }

  ghost predicate LocalBooked(m: Mapper, p: Put)
    requires VDiskId(p.key, |m.vdisks|) in m.vdisks
  {
    var paths := Paths(m.ReplicasFor(p.key), p.coord);
    && |p.tried| + |p.localRest| == |paths| && p.localRest == paths[|p.tried|..]
    && p.localOk == StoredPaths(paths, p.tried)
  }

  /** Left for the local store: names without a support node and those not confirmed; lost: those it failed to keep. */
  ghost predicate HandoffBooked(failed: seq<NodeName>, h: Handoff) {
    && |h.sup| <= |failed| && h.owners == failed[..|h.sup|]
    && |h.told| <= |h.owners| && h.rest == failed[|h.sup|..] + Refused(h.owners, h.told)
    && |h.kept| <= |h.rest| && h.lost == Refused(h.rest, h.kept)
    && (|h.told| < |h.owners| ==> h.kept == [])
  }

  /** The answer is by quorum exactly if the replicas booked as confirmed reach it. */
  ghost predicate Decided(quorum: nat, p: Put) {
    !p.stage.Collecting? ==> (p.reply.OkByQuorum? <==> p.okCount + |p.localOk| >= quorum)
  }

  ghost predicate Books(m: Mapper, quorum: nat, p: Put)
    requires VDiskId(p.key, |m.vdisks|) in m.vdisks
  {
    && RemoteBooked(m, p) && LocalBooked(m, p) && Decided(quorum, p)
    && (p.stage.Aliens? || p.stage.Finished? ==> HandoffBooked(p.failed, p.stage.h))
  }

  // ---- one lemma per move ----

  lemma StartBooks(m: Mapper, quorum: nat, coord: NodeName, key: Key, data: BobData)
    requires m.Valid(quorum)
    ensures Books(m, quorum, StartPut(m, coord, key, data))
  {
  }

  lemma AnswerBooks(m: Mapper, quorum: nat, st: Stores, p: Put, n: NodeName, ok: bool)
    requires m.Valid(quorum) && PutInv(m, quorum, st, p) && Books(m, quorum, p) && n in p.sent
    ensures Books(m, quorum, Answer(p, n, ok))
  {
    var q := Answer(p, n, ok);
    assert n in RemoteTargets(m, p) && n !in p.oks && n !in p.failed;
    assert q.answers.Keys == p.answers.Keys + {n};
    assert RemoteBooked(m, q);
  }

  lemma TakeAnswerBooksRemote(m: Mapper, quorum: nat, st: Stores, p: Put, n: NodeName)
    requires m.Valid(quorum) && PutInv(m, quorum, st, p) && RemoteBooked(m, p) && n in p.answered
    ensures RemoteBooked(m, TakeAnswer(m.ReplicasFor(p.key), p, n))
  {
    var q := TakeAnswer(m.ReplicasFor(p.key), p, n);
    assert n in RemoteTargets(m, p);
    assert forall x :: x in q.answered <==> x in p.answered && x != n;
  }

  lemma TakeAnswerBooks(m: Mapper, quorum: nat, st: Stores, p: Put, n: NodeName)
    requires m.Valid(quorum) && PutInv(m, quorum, st, p) && Books(m, quorum, p) && n in p.answered
    requires p.stage.Collecting? || p.stage.Background?
    ensures Books(m, quorum, TakeAnswer(m.ReplicasFor(p.key), p, n))
  {
    TakeAnswerBooksRemote(m, quorum, st, p, n);
  }

  lemma LocalWriteBooks(m: Mapper, quorum: nat, p: Put, out: PathOutcome)
    requires m.Valid(quorum) && Books(m, quorum, p) && p.stage.Collecting? && p.localRest != []
    ensures Books(m, quorum, AfterLocalWrite(p, out))
  {
    var paths := Paths(m.ReplicasFor(p.key), p.coord);
    StoredNext(paths, p.tried, out);
    assert paths[|p.tried|..][1..] == paths[|p.tried| + 1..];
  }

  lemma BegunBooks(failed: seq<NodeName>, sup: seq<NodeName>)
    requires |sup| <= |failed|
    ensures HandoffBooked(failed, Handoff(sup, failed[..|sup|], [], failed[|sup|..], [], []))
  {
  }

  /** The coordinator's own name joins the failed ones; the books of the remote side do not speak of it. */
  lemma LocalFailureBooks(m: Mapper, p: Put, q: Put)
    requires VDiskId(p.key, |m.vdisks|) in m.vdisks && RemoteBooked(m, p)
    requires q == p.(failed := q.failed, reply := q.reply, stage := q.stage)
    requires q.failed == p.failed || q.failed == [p.coord] + p.failed
    ensures RemoteBooked(m, q)
  {
  }

  lemma QuorumBooks(m: Mapper, quorum: nat, p: Put, q: Put)
    requires m.Valid(quorum) && Books(m, quorum, p) && p.stage.Collecting? && p.okCount + |p.localOk| >= quorum
    requires q == WithOwnFailure(m, p).(reply := OkByQuorum, stage := q.stage)
    requires q.stage == Background || (q.stage == Finished(NOTHING) && q.failed == [])
    ensures Books(m, quorum, q)
  {
    LocalFailureBooks(m, p, q);
    LocalSame(m, p, q);
  }

  lemma HandedOffBooks(m: Mapper, quorum: nat, p: Put, q: Put, sup: seq<NodeName>)
    requires m.Valid(quorum) && Books(m, quorum, p) && p.stage.Collecting? && p.okCount + |p.localOk| < quorum
    requires p.reply.Pending? && IsSupportChoice(m, m.Targets(p.key), |WithOwnFailure(m, p).failed|, sup)
    requires q == BeginAliens(m, WithOwnFailure(m, p), sup) && q.failed != []
    ensures Books(m, quorum, q)
  {
    LocalFailureBooks(m, p, q);
    LocalSame(m, p, q);
    BegunBooks(q.failed, sup);
  }

  lemma DecideBooks(m: Mapper, quorum: nat, st: Stores, p: Put, sup: seq<NodeName>)
    requires m.Valid(quorum) && PutInv(m, quorum, st, p) && Books(m, quorum, p)
    requires p.stage.Collecting? && p.localRest == [] && (p.okCount >= quorum || TasksDone(p))
    ensures Books(m, quorum, DecidePut(m, quorum, p, sup))
  {
    var q := DecidePut(m, quorum, p, sup);
    if p.okCount + |p.localOk| >= quorum {
      QuorumBooks(m, quorum, p, q);
    } else {
      FailureBelowQuorum(m, quorum, st, p);
      if IsSupportChoice(m, m.Targets(p.key), |WithOwnFailure(m, p).failed|, sup) {
        HandedOffBooks(m, quorum, p, BeginAliens(m, WithOwnFailure(m, p), sup), sup);
      }
    }
  }

  lemma LocalSame(m: Mapper, p: Put, q: Put)
    requires VDiskId(p.key, |m.vdisks|) in m.vdisks && q == p.(failed := q.failed, reply := q.reply, stage := q.stage)
    ensures LocalBooked(m, q) == LocalBooked(m, p)
  {
  }

  lemma BackgroundDoneBooks(m: Mapper, quorum: nat, p: Put, sup: seq<NodeName>)
    requires m.Valid(quorum) && Books(m, quorum, p) && p.stage.Background?
    ensures Books(m, quorum, if p.failed == [] then p.(stage := Finished(NOTHING)) else BeginAliens(m, p, sup))
  {
    var q := if p.failed == [] then p.(stage := Finished(NOTHING)) else BeginAliens(m, p, sup);
    LocalFailureBooks(m, p, q);
    LocalSame(m, p, q);
    if p.failed != [] && IsSupportChoice(m, m.Targets(p.key), |p.failed|, sup) {
      BegunBooks(p.failed, sup);
    }
  }

  lemma AskBooks(failed: seq<NodeName>, h: Handoff, confirmed: bool)
    requires HandoffBooked(failed, h) && |h.told| < |h.owners|
    ensures HandoffBooked(failed, AskOne(h, confirmed))
  {
    RefusedNext(h.owners, h.told, confirmed);
    assert Refused(AskOne(h, confirmed).rest, []) == [];
  }

  lemma WriteBooks(failed: seq<NodeName>, h: Handoff, ok: bool)
    requires HandoffBooked(failed, h) && |h.told| == |h.owners| && |h.kept| < |h.rest|
    ensures HandoffBooked(failed, WriteOne(h, ok))
  {
    RefusedNext(h.rest, h.kept, ok);
  }

  /** A change of the hand-off alone. */
  lemma HandoffBooks(m: Mapper, quorum: nat, p: Put, q: Put)
    requires m.Valid(quorum) && Books(m, quorum, p) && p.stage.Aliens? && q == p.(stage := q.stage, reply := q.reply)
    requires (q.stage.Aliens? || q.stage.Finished?) && HandoffBooked(p.failed, q.stage.h)
    requires q.reply.OkByQuorum? == p.reply.OkByQuorum?
    ensures Books(m, quorum, q)
  {
    LocalFailureBooks(m, p, q);
    LocalSame(m, p, q);
  }

  lemma AskedBooks(m: Mapper, quorum: nat, p: Put, confirmed: bool)
    requires m.Valid(quorum) && Books(m, quorum, p) && p.stage.Aliens? && |p.stage.h.told| < |p.stage.h.owners|
    ensures Books(m, quorum, p.(stage := Aliens(AskOne(p.stage.h, confirmed))))
  {
    AskBooks(p.failed, p.stage.h, confirmed);
    HandoffBooks(m, quorum, p, p.(stage := Aliens(AskOne(p.stage.h, confirmed))));
  }

  lemma WrittenBooks(m: Mapper, quorum: nat, p: Put, ok: bool)
    requires m.Valid(quorum) && Books(m, quorum, p) && p.stage.Aliens?
    requires |p.stage.h.told| == |p.stage.h.owners| && |p.stage.h.kept| < |p.stage.h.rest|
    ensures Books(m, quorum, p.(stage := Aliens(WriteOne(p.stage.h, ok))))
  {
    WriteBooks(p.failed, p.stage.h, ok);
    HandoffBooks(m, quorum, p, p.(stage := Aliens(WriteOne(p.stage.h, ok))));
  }

  lemma ConcludedBooks(m: Mapper, quorum: nat, p: Put)
    requires m.Valid(quorum) && Books(m, quorum, p) && p.stage.Aliens?
    ensures Books(m, quorum, ConcludePut(p))
  {
    HandoffBooks(m, quorum, p, ConcludePut(p));
  }

  lemma StepBooks(m: Mapper, quorum: nat, st: Stores, p: Put, move: Move)
    requires m.Valid(quorum) && PutInv(m, quorum, st, p) && Books(m, quorum, p) && st.Keys == Elems(m.nodes)
    ensures Books(m, quorum, StepPut(m, quorum, st, p, move).1)
  {
    if StepPut(m, quorum, st, p, move).1 == p {
      return;
    }
    match move
    case RemoteApply(n, outs, answerLost) => AnswerBooks(m, quorum, st, p, n, AllStored(outs) && !answerLost);
    case RemoteError(n) => AnswerBooks(m, quorum, st, p, n, false);
    case Collect(n) => TakeAnswerBooks(m, quorum, st, p, n);
    case LocalWrite(out) => LocalWriteBooks(m, quorum, p, out);
    case Decide(sup) => DecideBooks(m, quorum, st, p, sup);
    case BackgroundDone(sup) => BackgroundDoneBooks(m, quorum, p, sup);
    case AskSupport(applied, confirmed) => AskedBooks(m, quorum, p, applied && confirmed);
    case LocalAlien(ok) => WrittenBooks(m, quorum, p, ok);
    case Conclude => ConcludedBooks(m, quorum, p);
  }

  ghost predicate AllBooks(m: Mapper, quorum: nat, puts: seq<Put>)
    requires m.Valid(quorum)
  {
    forall i | 0 <= i < |puts| :: Books(m, quorum, puts[i])
  }

  lemma ApplyBooks(m: Mapper, quorum: nat, s: State, a: Action)
    requires m.Valid(quorum) && Inv(m, quorum, s) && WellFormed(m, s) && AllBooks(m, quorum, s.puts)
    ensures AllBooks(m, quorum, Apply(m, quorum, s, a).puts)
  {
    match a
    case Start(coord, key, data) =>
      StartBooks(m, quorum, coord, key, data);
      MoreBooks(m, quorum, s.puts, StartPut(m, coord, key, data));
    case Step(i, move) =>
      if i < |s.puts| {
        StepBooks(m, quorum, s.stores, s.puts[i], move);
        OneBooks(m, quorum, s.puts, i, StepPut(m, quorum, s.stores, s.puts[i], move).1);
        AppliedStep(m, quorum, s, i, move);
      }
    case _ =>
  }

  lemma AppliedStep(m: Mapper, quorum: nat, s: State, i: nat, move: Move)
    requires m.Valid(quorum) && WellFormed(m, s) && i < |s.puts|
    ensures Apply(m, quorum, s, Step(i, move)).puts
         == s.puts[i := StepPut(m, quorum, s.stores, s.puts[i], move).1]
  {
  }

  lemma MoreBooks(m: Mapper, quorum: nat, puts: seq<Put>, q: Put)
    requires m.Valid(quorum) && Books(m, quorum, q) && AllBooks(m, quorum, puts)
    ensures AllBooks(m, quorum, puts + [q])
  {
  }

  lemma OneBooks(m: Mapper, quorum: nat, puts: seq<Put>, i: nat, q: Put)
    requires m.Valid(quorum) && i < |puts| && Books(m, quorum, q) && AllBooks(m, quorum, puts)
    ensures AllBooks(m, quorum, puts[i := q])
  {
  }

  /** In every reachable state the books of every put are right. */
  lemma {:induction false} RunBooks(m: Mapper, quorum: nat, st: Stores, actions: seq<Action>)
    requires m.Valid(quorum) && st.Keys == Elems(m.nodes)
    ensures AllBooks(m, quorum, Run(m, quorum, st, actions).puts)
  {
    if actions != [] {
      var init := actions[..|actions| - 1];
      RunBooks(m, quorum, st, init);
      RunInv(m, quorum, st, init);
      ApplyBooks(m, quorum, Run(m, quorum, st, init), actions[|actions| - 1]);
    }
  }

  // ---- the decision ----

  /** Remote targets that have confirmed, whether or not the coordinator has looked at their answers. */
  ghost function Confirming(p: Put): set<NodeName> {
    set n | n in p.answers && p.answers[n]
  }

  ghost function ConfirmedReplicas(m: Mapper, p: Put): nat
    requires VDiskId(p.key, |m.vdisks|) in m.vdisks && |p.tried| <= |Paths(m.ReplicasFor(p.key), p.coord)|
  {
    CountIn(m.ReplicasFor(p.key), Confirming(p)) + |StoredPaths(Paths(m.ReplicasFor(p.key), p.coord), p.tried)|
  }

  lemma BooksDecide(m: Mapper, quorum: nat, st: Stores, p: Put)
    requires m.Valid(quorum) && PutInv(m, quorum, st, p) && Books(m, quorum, p) && !p.stage.Collecting?
    ensures p.reply.OkByQuorum? <==> ConfirmedReplicas(m, p) >= quorum
  {
    var rs := m.ReplicasFor(p.key);
    if p.reply.OkByQuorum? {
      assert p.oks <= Confirming(p);
      CountInMonotone(rs, p.oks, Confirming(p));
    } else {
      assert TasksDone(p);
      assert p.oks == Confirming(p);
    }
  }

  /**
   In every run, a put that was decided is answered by quorum if and only if the replicas on the
   remote targets that confirmed and the local paths that took the write are at least the quorum.
   */
  lemma QuorumIsDecidedRightly(m: Mapper, quorum: nat, st: Stores, actions: seq<Action>, i: nat)
    requires m.Valid(quorum) && st.Keys == Elems(m.nodes) && i < |Run(m, quorum, st, actions).puts|
    ensures var p := Run(m, quorum, st, actions).puts[i];
            && |p.tried| <= |Paths(m.ReplicasFor(p.key), p.coord)|
            && (!p.stage.Collecting? ==> (p.reply.OkByQuorum? <==> ConfirmedReplicas(m, p) >= quorum))
  {
    var s := Run(m, quorum, st, actions);
    RunInv(m, quorum, st, actions);
    RunBooks(m, quorum, st, actions);
    assert Books(m, quorum, s.puts[i]);
    if !s.puts[i].stage.Collecting? {
      BooksDecide(m, quorum, s.stores, s.puts[i]);
    }
  }

  // ---- the answers, read off the run ----

  /** The action ends put `i`'s request to the node. */
  predicate Ends(m: Mapper, key: Key, a: Action, i: nat, n: NodeName)
    requires VDiskId(key, |m.vdisks|) in m.vdisks
  {
    a.Step? && a.i == i &&
    match a.move
    case RemoteApply(t, outs, answerLost) => t == n && |outs| == |Paths(m.ReplicasFor(key), n)|
    case RemoteError(t) => t == n
    case _ => false
  }

  /** A request is confirmed if it was carried out on every path and the answer came back. */
  predicate Confirms(a: Action) {
    a.Step? && a.move.RemoteApply? && AllStored(a.move.outs) && !a.move.answerLost
  }

  /** An answer stays; without one, an action that ends the request gives it. */
  function AnswerAfter(before: Option<bool>, m: Mapper, key: Key, a: Action, i: nat, n: NodeName): Option<bool>
    requires VDiskId(key, |m.vdisks|) in m.vdisks
  {
    if before.Some? then before else if Ends(m, key, a, i, n) then Some(Confirms(a)) else None
  }

  /** The answer given by the first action of the run that ends put `i`'s request to the node. */
  ghost function FirstAnswer(m: Mapper, quorum: nat, st: Stores, actions: seq<Action>, i: nat, n: NodeName)
      : Option<bool>
    requires m.Valid(quorum) && st.Keys == Elems(m.nodes)
  {
    if actions == [] then None
    else
      var init := actions[..|actions| - 1];
      var puts := Run(m, quorum, st, init).puts;
      if i >= |puts| then None
      else AnswerAfter(FirstAnswer(m, quorum, st, init, i, n), m, puts[i].key, actions[|actions| - 1], i, n)
  }

  function Lookup(answers: map<NodeName, bool>, n: NodeName): Option<bool> {
    if n in answers then Some(answers[n]) else None
  }

  lemma QuietSteps(m: Mapper, quorum: nat, st: Stores, p: Put, move: Move)
    requires m.Valid(quorum) && p.coord in st && st.Keys == Elems(m.nodes)
    requires p.stage.Aliens? ==> HandoffShape(m, p.stage.h)
    ensures var q := StepPut(m, quorum, st, p, move).1;
            && q.key == p.key && q.coord == p.coord
            && (!move.RemoteApply? && !move.RemoteError? ==> q.answers == p.answers)
  {
  }

  lemma RequestEnds(m: Mapper, quorum: nat, st: Stores, p: Put, i: nat, move: Move, n: NodeName)
    requires m.Valid(quorum) && p.coord in st && st.Keys == Elems(m.nodes) && (move.RemoteApply? || move.RemoteError?)
    requires p.stage.Aliens? ==> HandoffShape(m, p.stage.h)
    requires n in m.Targets(p.key) && n in st && (n in p.answers <==> n !in p.sent)
    ensures Lookup(StepPut(m, quorum, st, p, move).1.answers, n)
         == AnswerAfter(Lookup(p.answers, n), m, p.key, Step(i, move), i, n)
  {
  }

  lemma StepAnswers(m: Mapper, quorum: nat, st: Stores, p: Put, i: nat, move: Move, n: NodeName)
    requires m.Valid(quorum) && PutInv(m, quorum, st, p) && Books(m, quorum, p) && st.Keys == Elems(m.nodes)
    requires n in RemoteTargets(m, p)
    ensures Lookup(StepPut(m, quorum, st, p, move).1.answers, n)
         == AnswerAfter(Lookup(p.answers, n), m, p.key, Step(i, move), i, n)
  {
    if move.RemoteApply? || move.RemoteError? {
      TargetsConserveReplicas(m, quorum, p.key);
      assert n in Elems(m.Targets(p.key)) && n in st;
      assert n in p.answers.Keys <==> n !in p.sent;
      RequestEnds(m, quorum, st, p, i, move, n);
    } else {
      QuietSteps(m, quorum, st, p, move);
    }
  }

  lemma OtherPuts(m: Mapper, quorum: nat, s: State, a: Action, i: nat)
    requires m.Valid(quorum) && WellFormed(m, s) && i < |s.puts| && !(a.Step? && a.i == i)
    ensures i < |Apply(m, quorum, s, a).puts| && Apply(m, quorum, s, a).puts[i] == s.puts[i]
  {
  }

  lemma ApplyAnswers(m: Mapper, quorum: nat, s: State, a: Action, i: nat, n: NodeName, s': State)
    requires m.Valid(quorum) && Inv(m, quorum, s) && WellFormed(m, s) && AllBooks(m, quorum, s.puts) && i < |s.puts|
    requires n in RemoteTargets(m, s.puts[i]) && s' == Apply(m, quorum, s, a)
    ensures i < |s'.puts|
    ensures Lookup(s'.puts[i].answers, n) == AnswerAfter(Lookup(s.puts[i].answers, n), m, s.puts[i].key, a, i, n)
  {
    if a.Step? && a.i == i {
      StepAnswers(m, quorum, s.stores, s.puts[i], i, a.move, n);
    } else {
      OtherPuts(m, quorum, s, a, i);
    }
  }

  lemma SameTargets(m: Mapper, quorum: nat, s: State, a: Action, i: nat, s': State)
    requires m.Valid(quorum) && WellFormed(m, s) && i < |s.puts| && s' == Apply(m, quorum, s, a)
    ensures i < |s'.puts| && RemoteTargets(m, s'.puts[i]) == RemoteTargets(m, s.puts[i])
  {
    if a.Step? && a.i == i {
      QuietSteps(m, quorum, s.stores, s.puts[i], a.move);
    } else {
      OtherPuts(m, quorum, s, a, i);
    }
  }

  lemma NewPut(m: Mapper, quorum: nat, s: State, a: Action, i: nat, s': State)
    requires m.Valid(quorum) && WellFormed(m, s) && i >= |s.puts| && s' == Apply(m, quorum, s, a) && i < |s'.puts|
    ensures s'.puts[i].answers == map[]
  {
  }

  /** In every run, the answers a put knows are those of the actions that ended its requests. */
  lemma {:induction false} RunAnswers(m: Mapper, quorum: nat, st: Stores, actions: seq<Action>, i: nat, n: NodeName)
    requires m.Valid(quorum) && st.Keys == Elems(m.nodes) && i < |Run(m, quorum, st, actions).puts|
    requires n in RemoteTargets(m, Run(m, quorum, st, actions).puts[i])
    ensures Lookup(Run(m, quorum, st, actions).puts[i].answers, n) == FirstAnswer(m, quorum, st, actions, i, n)
  {
    var init, a := actions[..|actions| - 1], actions[|actions| - 1];
    var s, s' := Run(m, quorum, st, init), Run(m, quorum, st, actions);
    if i < |s.puts| {
      RunInv(m, quorum, st, init);
      RunBooks(m, quorum, st, init);
      SameTargets(m, quorum, s, a, i, s');
      ApplyAnswers(m, quorum, s, a, i, n, s');
      RunAnswers(m, quorum, st, init, i, n);
    } else {
      NewPut(m, quorum, s, a, i, s');
    }
  }
}
