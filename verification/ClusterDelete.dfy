/**
 The cluster delete: tombstones on the targets' own disks first, then, for every target that did
 not confirm, a forced tombstone under its name in an alien store. Requests finish in any order.
 */
module ClusterDelete {
  import opened Types
  import opened Topology
  import opened Stores
  import opened Tombstones
  import opened DeleteSteps
  import opened Operations
  import opened PutProtocol
  import opened SupportNames
  import SupportNodes

  /** A delete sent to the alien stores of `node`; `forced` names must get a tombstone even if absent. */
  datatype AlienDelete = AlienDelete(node: NodeName, forced: seq<NodeName>)

  /** How a request ends: whether it arrives, what the stores there do, and whether the answer comes back. */
  datatype Remote = Remote(arrives: bool, outs: nat -> DeleteOutcome, answered: bool)

  /** What the disks and the network decide. A node gets at most one request of each kind. */
  datatype World = World(
    path: nat -> DeleteOutcome, remote: NodeName -> Remote,
    alien: NodeName -> Remote, localAlien: NodeName -> DeleteOutcome)

  /** The request was carried out on all `k` stores it concerns, and its sender knows. */
  predicate Confirms(r: Remote, k: nat) {
    r.arrives && r.answered && AllConfirm(r.outs, k)
  }

  // ---- what counts as confirmed ----

  ghost predicate ConfirmedByTarget(m: Mapper, local: NodeName, key: Key, w: World, t: NodeName)
    requires VDiskId(key, |m.vdisks|) in m.vdisks
  {
    var k := |Paths(m.ReplicasFor(key), t)|;
    if t == local then AllConfirm(w.path, k) else Confirms(w.remote(t), k)
  }

  ghost predicate ConfirmedBySupport(m: Mapper, key: Key, w: World, sent: seq<AlienDelete>, t: NodeName)
    requires VDiskId(key, |m.vdisks|) in m.vdisks
  {
    exists r | r in sent :: r.node !in m.Targets(key) && r.forced == [t] && Confirms(w.alien(r.node), |m.Targets(key)|)
  }

  ghost predicate Confirmed(m: Mapper, local: NodeName, key: Key, w: World, sent: seq<AlienDelete>, t: NodeName)
    requires VDiskId(key, |m.vdisks|) in m.vdisks
  {
    || ConfirmedByTarget(m, local, key, w, t)
    || ConfirmedBySupport(m, key, w, sent, t)
    || w.localAlien(t).confirmed
  }

  // ---- what it means in the stores ----

  /** The target has a tombstone at least as new on every one of its replica disks. */
  ghost predicate Erased(m: Mapper, st: Stores, key: Key, ts: nat, t: NodeName)
    requires VDiskId(key, |m.vdisks|) in m.vdisks
  {
    AllDead(st, t, Paths(m.ReplicasFor(key), t), key, ts)
  }

  /** A tombstone under the target's name is in the alien store of the coordinator or of a node that is no target. */
  ghost predicate Buried(m: Mapper, st: Stores, local: NodeName, key: Key, ts: nat, t: NodeName)
    requires VDiskId(key, |m.vdisks|) in m.vdisks
  {
    exists n :: (n == local || n !in m.Targets(key)) && AlienDead(st, n, t, key, ts)
  }

  lemma ErasedStays(m: Mapper, a: Stores, b: Stores, key: Key, ts: nat, t: NodeName)
    requires VDiskId(key, |m.vdisks|) in m.vdisks && OnlyMarks(a, b, key) && Erased(m, a, key, ts, t)
    ensures Erased(m, b, key, ts, t)
  {
    AllStayDead(a, b, t, Paths(m.ReplicasFor(key), t), key, ts);
  }

  // ---- requests to the targets ----

  function RemoteDelete(m: Mapper, st: Stores, key: Key, ts: nat, w: World, n: NodeName): (st': Stores)
    requires VDiskId(key, |m.vdisks|) in m.vdisks && n in st
    ensures st'.Keys == st.Keys
  {
    if w.remote(n).arrives then DeletePaths(st, n, Paths(m.ReplicasFor(key), n), w.remote(n).outs, key, ts) else st
  }

  /** The stores after the requests to these nodes, in this order. */
  function RemoteDeletes(m: Mapper, st: Stores, key: Key, ts: nat, w: World, order: seq<NodeName>): (st': Stores)
    requires VDiskId(key, |m.vdisks|) in m.vdisks && forall n | n in order :: n in st
    ensures st'.Keys == st.Keys
  {
    if order == [] then st
    else
      var k := |order| - 1;
      assert order[k] in order;
      RemoteDelete(m, RemoteDeletes(m, st, key, ts, w, order[..k]), key, ts, w, order[k])
  }

  lemma RemoteDeleteEffect(m: Mapper, st: Stores, key: Key, ts: nat, w: World, n: NodeName)
    requires VDiskId(key, |m.vdisks|) in m.vdisks && n in st
    ensures OnlyMarks(st, RemoteDelete(m, st, key, ts, w, n), key)
    ensures Confirms(w.remote(n), |Paths(m.ReplicasFor(key), n)|) ==>
              Erased(m, RemoteDelete(m, st, key, ts, w, n), key, ts, n)
  {
    var paths := Paths(m.ReplicasFor(key), n);
    OnlyMarksSame(st, key);
    DeletePathsMarks(st, n, paths, w.remote(n).outs, key, ts);
    DeletePathsDead(st, n, paths, w.remote(n).outs, key, ts);
    if Confirms(w.remote(n), |paths|) {
      AllPathsDead(DeletePaths(st, n, paths, w.remote(n).outs, key, ts), n, paths, w.remote(n).outs, key, ts);
    }
  }

  lemma {:induction false} RemoteDeletesMark(m: Mapper, st: Stores, key: Key, ts: nat, w: World, order: seq<NodeName>)
    requires VDiskId(key, |m.vdisks|) in m.vdisks && forall n | n in order :: n in st
    ensures OnlyMarks(st, RemoteDeletes(m, st, key, ts, w, order), key)
  {
    if order == [] {
      OnlyMarksSame(st, key);
    } else {
      var k := |order| - 1;
      var mid := RemoteDeletes(m, st, key, ts, w, order[..k]);
      assert order[k] in order;
      RemoteDeletesMark(m, st, key, ts, w, order[..k]);
      RemoteDeleteEffect(m, mid, key, ts, w, order[k]);
      OnlyMarksTransitive(st, mid, RemoteDelete(m, mid, key, ts, w, order[k]), key);
    }
  }

  /** A target that confirmed has its tombstones, whatever the order of the requests. */
  lemma {:induction false} RemoteDeletesErase(m: Mapper, st: Stores, key: Key, ts: nat, w: World, order: seq<NodeName>,
                                              t: NodeName)
    requires VDiskId(key, |m.vdisks|) in m.vdisks && (forall n | n in order :: n in st) && t in order
    requires Confirms(w.remote(t), |Paths(m.ReplicasFor(key), t)|)
    ensures Erased(m, RemoteDeletes(m, st, key, ts, w, order), key, ts, t)
  {
    var k := |order| - 1;
    var mid := RemoteDeletes(m, st, key, ts, w, order[..k]);
    assert order[k] in order;
    if order[k] != t {
      RemoteDeletesErase(m, st, key, ts, w, order[..k], t);
    }
    LastErases(m, mid, key, ts, w, order[k], t);
  }

  lemma LastErases(m: Mapper, st: Stores, key: Key, ts: nat, w: World, n: NodeName, t: NodeName)
    requires VDiskId(key, |m.vdisks|) in m.vdisks && n in st && Confirms(w.remote(t), |Paths(m.ReplicasFor(key), t)|)
    requires n == t || Erased(m, st, key, ts, t)
    ensures Erased(m, RemoteDelete(m, st, key, ts, w, n), key, ts, t)
  {
    RemoteDeleteEffect(m, st, key, ts, w, n);
    if n != t {
      ErasedStays(m, st, RemoteDelete(m, st, key, ts, w, n), key, ts, t);
    }
  }

  // ---- requests to the alien stores ----

  function AlienRequest(m: Mapper, st: Stores, key: Key, ts: nat, w: World, r: AlienDelete): (st': Stores)
    requires VDiskId(key, |m.vdisks|) in m.vdisks && r.node in st
    ensures st'.Keys == st.Keys
  {
    if w.alien(r.node).arrives
    then DeleteOwners(st, r.node, m.Targets(key), r.forced, w.alien(r.node).outs, key, ts)
    else st
  }

  function AlienRequests(m: Mapper, st: Stores, key: Key, ts: nat, w: World, order: seq<AlienDelete>): (st': Stores)
    requires VDiskId(key, |m.vdisks|) in m.vdisks && forall r | r in order :: r.node in st
    ensures st'.Keys == st.Keys
  {
    if order == [] then st
    else
      var k := |order| - 1;
      assert order[k] in order;
      AlienRequest(m, AlienRequests(m, st, key, ts, w, order[..k]), key, ts, w, order[k])
  }

  lemma AlienRequestEffect(m: Mapper, st: Stores, key: Key, ts: nat, w: World, r: AlienDelete)
    requires VDiskId(key, |m.vdisks|) in m.vdisks && r.node in st
    ensures OnlyMarks(st, AlienRequest(m, st, key, ts, w, r), key)
    ensures Confirms(w.alien(r.node), |m.Targets(key)|) ==>
              ForcedDead(AlienRequest(m, st, key, ts, w, r), r.node, m.Targets(key), r.forced, key, ts)
  {
    var outs := w.alien(r.node).outs;
    OnlyMarksSame(st, key);
    DeleteOwnersMarks(st, r.node, m.Targets(key), r.forced, outs, key, ts);
    DeleteOwnersDead(st, r.node, m.Targets(key), r.forced, outs, key, ts);
    if Confirms(w.alien(r.node), |m.Targets(key)|) {
      AllOwnersDead(DeleteOwners(st, r.node, m.Targets(key), r.forced, outs, key, ts), r.node, m.Targets(key), r.forced,
                    outs, key, ts);
    }
  }

  lemma {:induction false} AlienRequestsMark(m: Mapper, st: Stores, key: Key, ts: nat, w: World,
                                             order: seq<AlienDelete>)
    requires VDiskId(key, |m.vdisks|) in m.vdisks && forall r | r in order :: r.node in st
    ensures OnlyMarks(st, AlienRequests(m, st, key, ts, w, order), key)
  {
    if order == [] {
      OnlyMarksSame(st, key);
    } else {
      var k := |order| - 1;
      var mid := AlienRequests(m, st, key, ts, w, order[..k]);
      assert order[k] in order;
      AlienRequestsMark(m, st, key, ts, w, order[..k]);
      AlienRequestEffect(m, mid, key, ts, w, order[k]);
      OnlyMarksTransitive(st, mid, AlienRequest(m, mid, key, ts, w, order[k]), key);
    }
  }

  lemma BuriedAfter(m: Mapper, st: Stores, key: Key, ts: nat, w: World, last: AlienDelete, r: AlienDelete, t: NodeName)
    requires VDiskId(key, |m.vdisks|) in m.vdisks && last.node in st
    requires Confirms(w.alien(r.node), |m.Targets(key)|) && t in m.Targets(key) && t in r.forced
    requires last == r || AlienDead(st, r.node, t, key, ts)
    ensures AlienDead(AlienRequest(m, st, key, ts, w, last), r.node, t, key, ts)
  {
    AlienRequestEffect(m, st, key, ts, w, last);
    if last != r {
      AlienDeadStays(st, AlienRequest(m, st, key, ts, w, last), key, r.node, t, ts);
    }
  }

  /** A forced name of a confirmed request has its tombstone, whatever the order of the requests. */
  lemma {:induction false} AlienRequestsBury(m: Mapper, st: Stores, key: Key, ts: nat, w: World,
                                             order: seq<AlienDelete>, r: AlienDelete, t: NodeName)
    requires VDiskId(key, |m.vdisks|) in m.vdisks && (forall r | r in order :: r.node in st) && r in order
    requires Confirms(w.alien(r.node), |m.Targets(key)|) && t in m.Targets(key) && t in r.forced
    ensures AlienDead(AlienRequests(m, st, key, ts, w, order), r.node, t, key, ts)
  {
    var k := |order| - 1;
    var mid := AlienRequests(m, st, key, ts, w, order[..k]);
    assert order[k] in order;
    if order[k] != r {
      AlienRequestsBury(m, st, key, ts, w, order[..k], r, t);
    }
    BuriedAfter(m, mid, key, ts, w, order[k], r, t);
  }

  // ---- the coordinator's own alien store ----

  function LocalDeletes(st: Stores, local: NodeName, targets: seq<NodeName>, forced: set<NodeName>, w: World, key: Key,
                        ts: nat): (st': Stores)
    requires local in st
    ensures st'.Keys == st.Keys
  {
    if targets == [] then st
    else
      var k := |targets| - 1;
      DeleteOwner(LocalDeletes(st, local, targets[..k], forced, w, key, ts), local, targets[k], key, ts,
                  targets[k] in forced, w.localAlien(targets[k]))
  }

  lemma {:induction false} LocalDeletesMark(st: Stores, local: NodeName, targets: seq<NodeName>, forced: set<NodeName>,
                                            w: World, key: Key, ts: nat)
    requires local in st
    ensures OnlyMarks(st, LocalDeletes(st, local, targets, forced, w, key, ts), key)
  {
    if targets == [] {
      OnlyMarksSame(st, key);
    } else {
      var k := |targets| - 1;
      var mid := LocalDeletes(st, local, targets[..k], forced, w, key, ts);
      LocalDeletesMark(st, local, targets[..k], forced, w, key, ts);
      DeleteOwnerEffect(mid, local, targets[k], key, ts, targets[k] in forced, w.localAlien(targets[k]));
      OnlyMarksTransitive(st, mid, LocalDeletes(st, local, targets, forced, w, key, ts), key);
    }
  }

  lemma {:induction false} LocalDeletesBury(st: Stores, local: NodeName, targets: seq<NodeName>, forced: set<NodeName>,
                                            w: World, key: Key, ts: nat, t: NodeName)
    requires local in st && t in targets && t in forced && w.localAlien(t).confirmed
    ensures AlienDead(LocalDeletes(st, local, targets, forced, w, key, ts), local, t, key, ts)
  {
    var k := |targets| - 1;
    var mid := LocalDeletes(st, local, targets[..k], forced, w, key, ts);
    DeleteOwnerEffect(mid, local, targets[k], key, ts, targets[k] in forced, w.localAlien(targets[k]));
    if targets[k] != t {
      LocalDeletesBury(st, local, targets[..k], forced, w, key, ts, t);
      AlienDeadStays(mid, LocalDeletes(st, local, targets, forced, w, key, ts), key, local, t, ts);
    }
  }

  function NodesOf(sent: seq<AlienDelete>): seq<NodeName> {
    seq(|sent|, i requires 0 <= i < |sent| => sent[i].node)
  }

  // ---- the code ----

  /** The nodes that were called, and what is known of them while those in `handles` still run. */
  ghost predicate Called(m: Mapper, st: Stores, nodes: set<NodeName>, handles: set<NodeName>, key: Key, ts: nat,
                         w: World, st': Stores, errors: set<NodeName>, order: seq<NodeName>)
    requires VDiskId(key, |m.vdisks|) in m.vdisks && nodes <= st.Keys
  {
    && handles <= nodes && Elems(order) == nodes - handles
    && (forall n | n in order :: n in st)
    && st' == RemoteDeletes(m, st, key, ts, w, order)
    && (forall t :: t in errors <==> t in nodes - handles && !Confirms(w.remote(t), |Paths(m.ReplicasFor(key), t)|))
  }

  lemma CalledNext(m: Mapper, st: Stores, nodes: set<NodeName>, handles: set<NodeName>, key: Key, ts: nat, w: World,
                   st': Stores, errors: set<NodeName>, order: seq<NodeName>, n: NodeName)
    requires VDiskId(key, |m.vdisks|) in m.vdisks && nodes <= st.Keys && n in handles
    requires Called(m, st, nodes, handles, key, ts, w, st', errors, order)
    ensures n in st' && Called(m, st, nodes, handles - {n}, key, ts, w, RemoteDelete(m, st', key, ts, w, n),
                               if Confirms(w.remote(n), |Paths(m.ReplicasFor(key), n)|) then errors else errors + {n},
                               order + [n])
  {
    assert forall x :: x in order + [n] <==> x in order || x == n;
    assert (order + [n])[..|order|] == order;
    assert Elems(order + [n]) == Elems(order) + {n};
  }

  method CallTarget(m: Mapper, st: Stores, key: Key, ts: nat, w: World, n: NodeName) returns (st': Stores, ok: bool)
    requires VDiskId(key, |m.vdisks|) in m.vdisks && n in st
    ensures st' == RemoteDelete(m, st, key, ts, w, n) && ok == Confirms(w.remote(n), |Paths(m.ReplicasFor(key), n)|)
  {
    st', ok := st, false;
    if w.remote(n).arrives {
      st', ok := DeleteLocal(st, n, Paths(m.ReplicasFor(key), n), w.remote(n).outs, key, ts);
      ok := ok && w.remote(n).answered;
    }
  }

  method DeleteAtRemoteNodes(m: Mapper, st: Stores, nodes: set<NodeName>, key: Key, ts: nat, w: World)
    returns (st': Stores, errors: set<NodeName>, ghost order: seq<NodeName>)
    requires VDiskId(key, |m.vdisks|) in m.vdisks && nodes <= st.Keys
    ensures Called(m, st, nodes, {}, key, ts, w, st', errors, order)
  {
    st', errors, order := st, {}, [];
    var handles := nodes;
    while handles != {}
      invariant Called(m, st, nodes, handles, key, ts, w, st', errors, order)
      decreases handles
    {
      var n :| n in handles;
      CalledNext(m, st, nodes, handles, key, ts, w, st', errors, order, n);
      var ok;
      st', ok := CallTarget(m, st', key, ts, w, n);
      if !ok {
        errors := errors + {n};
      }
      order := order + [n];
      handles := handles - {n};
    }
  }

  /** The stores after the local paths and then the requests to the remote targets. */
  ghost function AfterTargets(m: Mapper, st: Stores, local: NodeName, key: Key, ts: nat, w: World,
                              order: seq<NodeName>): (st': Stores)
    requires VDiskId(key, |m.vdisks|) in m.vdisks && local in st && forall n | n in order :: n in st
    ensures st'.Keys == st.Keys
  {
    RemoteDeletes(m, DeletePaths(st, local, Paths(m.ReplicasFor(key), local), w.path, key, ts), key, ts, w, order)
  }

  lemma AfterTargetsMark(m: Mapper, st: Stores, local: NodeName, key: Key, ts: nat, w: World, order: seq<NodeName>)
    requires VDiskId(key, |m.vdisks|) in m.vdisks && local in st && forall n | n in order :: n in st
    ensures OnlyMarks(st, AfterTargets(m, st, local, key, ts, w, order), key)
  {
    var first := DeletePaths(st, local, Paths(m.ReplicasFor(key), local), w.path, key, ts);
    DeletePathsMarks(st, local, Paths(m.ReplicasFor(key), local), w.path, key, ts);
    RemoteDeletesMark(m, first, key, ts, w, order);
    OnlyMarksTransitive(st, first, RemoteDeletes(m, first, key, ts, w, order), key);
  }

  lemma ConfirmedIsErased(m: Mapper, st: Stores, local: NodeName, key: Key, ts: nat, w: World, order: seq<NodeName>,
                          t: NodeName)
    requires VDiskId(key, |m.vdisks|) in m.vdisks && local in st && forall n | n in order :: n in st
    requires (t == local || t in order) && ConfirmedByTarget(m, local, key, w, t)
    ensures Erased(m, AfterTargets(m, st, local, key, ts, w, order), key, ts, t)
  {
    var paths := Paths(m.ReplicasFor(key), local);
    var first := DeletePaths(st, local, paths, w.path, key, ts);
    if t == local {
      DeletePathsDead(st, local, paths, w.path, key, ts);
      AllPathsDead(first, local, paths, w.path, key, ts);
      RemoteDeletesMark(m, first, key, ts, w, order);
      ErasedStays(m, first, RemoteDeletes(m, first, key, ts, w, order), key, ts, t);
    } else {
      RemoteDeletesErase(m, first, key, ts, w, order, t);
    }
  }

  /** The local paths, if there are any. */
  method DeleteOnLocalNode(m: Mapper, quorum: nat, st: Stores, local: NodeName, key: Key, ts: nat, w: World)
    returns (st': Stores, failed: set<NodeName>)
    requires m.Valid(quorum) && local in st
    ensures st' == DeletePaths(st, local, Paths(m.ReplicasFor(key), local), w.path, key, ts)
    ensures failed == if local in m.Targets(key) && !ConfirmedByTarget(m, local, key, w, local) then {local} else {}
  {
    TargetsConserveReplicas(m, quorum, key);
    PathsCount(m.ReplicasFor(key), local);
    var disks := GetOperation(m, local, key);
    st', failed := st, {};
    if disks.Some? {
      var ok;
      st', ok := DeleteLocal(st, local, disks.value, w.path, key, ts);
      if !ok {
        failed := {local};
      }
    }
  }

  /** The local paths, then the remote targets. */
  method DeleteOnTargets(m: Mapper, quorum: nat, st: Stores, local: NodeName, key: Key, ts: nat, w: World)
    returns (st': Stores, failed: set<NodeName>, ghost order: seq<NodeName>)
    requires m.Valid(quorum) && st.Keys == Elems(m.nodes) && local in st
    ensures Elems(order) == Elems(m.Targets(key)) - {local} && (forall n | n in order :: n in st)
    ensures st' == AfterTargets(m, st, local, key, ts, w, order)
    ensures forall t :: t in failed <==> t in m.Targets(key) && !ConfirmedByTarget(m, local, key, w, t)
  {
    TargetsConserveReplicas(m, quorum, key);
    var first;
    first, failed := DeleteOnLocalNode(m, quorum, st, local, key, ts, w);
    var errors;
    st', errors, order := DeleteAtRemoteNodes(m, first, Elems(m.Targets(key)) - {local}, key, ts, w);
    failed := failed + errors;
  }

  ghost predicate AlienCalled(m: Mapper, st: Stores, requests: seq<AlienDelete>, handles: set<AlienDelete>, key: Key,
                              ts: nat, w: World, st': Stores, unconfirmed: set<NodeName>, order: seq<AlienDelete>)
    requires VDiskId(key, |m.vdisks|) in m.vdisks
  {
    && handles <= Elems(requests) && Elems(order) == Elems(requests) - handles
    && (forall r | r in order :: r.node in st)
    && st' == AlienRequests(m, st, key, ts, w, order)
    && Unconfirmed(m, requests, handles, key, w, unconfirmed)
  }

  lemma AlienRequestsNext(m: Mapper, st: Stores, key: Key, ts: nat, w: World,
                          order: seq<AlienDelete>, r: AlienDelete, order': seq<AlienDelete>)
    requires VDiskId(key, |m.vdisks|) in m.vdisks && (forall x | x in order :: x.node in st) && r.node in st
    requires order' == order + [r]
    ensures forall x | x in order' :: x.node in st
    ensures AlienRequests(m, st, key, ts, w, order')
         == AlienRequest(m, AlienRequests(m, st, key, ts, w, order), key, ts, w, r)
  {
    assert order'[..|order|] == order;
  }

  lemma AlienCalledNext(m: Mapper, st: Stores, requests: seq<AlienDelete>, handles: set<AlienDelete>, key: Key, ts: nat,
                        w: World, st': Stores, unconfirmed: set<NodeName>, order: seq<AlienDelete>, r: AlienDelete)
    requires VDiskId(key, |m.vdisks|) in m.vdisks && (forall x | x in requests :: x.node in st) && r in handles
    requires AlienCalled(m, st, requests, handles, key, ts, w, st', unconfirmed, order)
    ensures r.node in st' && AlienCalled(m, st, requests, handles - {r}, key, ts, w,
                                         AlienRequest(m, st', key, ts, w, r),
                                         if Confirms(w.alien(r.node), |m.Targets(key)|) then unconfirmed
                                         else unconfirmed + Elems(r.forced),
                                         order + [r])
  {
    AlienRequestsNext(m, st, key, ts, w, order, r, order + [r]);
    assert Elems(order + [r]) == Elems(order) + {r};
    UnconfirmedNext(m, requests, handles, key, w, unconfirmed, r);
  }

  lemma UnconfirmedNext(m: Mapper, requests: seq<AlienDelete>, handles: set<AlienDelete>, key: Key, w: World,
                        unconfirmed: set<NodeName>, r: AlienDelete)
    requires VDiskId(key, |m.vdisks|) in m.vdisks && r in handles && r in requests
          && Unconfirmed(m, requests, handles, key, w, unconfirmed)
    ensures Unconfirmed(m, requests, handles - {r}, key, w,
                        if Confirms(w.alien(r.node), |m.Targets(key)|) then unconfirmed
                        else unconfirmed + Elems(r.forced))
  {
  }

  /** The forced names of requests that have ended without being confirmed. */
  ghost predicate Unconfirmed(m: Mapper, requests: seq<AlienDelete>, handles: set<AlienDelete>, key: Key, w: World,
                              unconfirmed: set<NodeName>)
    requires VDiskId(key, |m.vdisks|) in m.vdisks
  {
    forall t :: t in unconfirmed <==>
      exists r | r in requests :: r !in handles && t in r.forced && !Confirms(w.alien(r.node), |m.Targets(key)|)
  }

  method CallAlien(m: Mapper, st: Stores, key: Key, ts: nat, w: World, r: AlienDelete) returns (st': Stores, ok: bool)
    requires VDiskId(key, |m.vdisks|) in m.vdisks && r.node in st
    ensures st' == AlienRequest(m, st, key, ts, w, r) && ok == Confirms(w.alien(r.node), |m.Targets(key)|)
  {
    st', ok := st, false;
    if w.alien(r.node).arrives {
      st', ok := Tombstones.DeleteAliens(st, r.node, m.Targets(key), r.forced, w.alien(r.node).outs, key, ts);
      ok := ok && w.alien(r.node).answered;
    }
  }

  /** `delete_on_remote_nodes`: all requests are made; the names of the failed ones come back. */
  method CallAll(m: Mapper, st: Stores, requests: seq<AlienDelete>, key: Key, ts: nat, w: World)
    returns (st': Stores, unconfirmed: set<NodeName>, ghost order: seq<AlienDelete>)
    requires VDiskId(key, |m.vdisks|) in m.vdisks && forall r | r in requests :: r.node in st
    ensures Elems(order) == Elems(requests) && (forall r | r in order :: r.node in st)
         && st' == AlienRequests(m, st, key, ts, w, order)
    ensures forall t :: t in unconfirmed <==>
              exists r | r in requests :: t in r.forced && !Confirms(w.alien(r.node), |m.Targets(key)|)
  {
    st', unconfirmed, order := st, {}, [];
    var handles := Elems(requests);
    while handles != {}
      invariant AlienCalled(m, st, requests, handles, key, ts, w, st', unconfirmed, order)
      decreases handles
    {
      var r :| r in handles;
      AlienCalledNext(m, st, requests, handles, key, ts, w, st', unconfirmed, order, r);
      var ok;
      st', ok := CallAlien(m, st', key, ts, w, r);
      if !ok {
        unconfirmed := unconfirmed + Elems(r.forced);
      }
      order := order + [r];
      handles := handles - {r};
    }
  }

  /** `delete_on_local_aliens`: only a failed forced delete is an error. */
  method DeleteOnLocalAliens(st: Stores, local: NodeName, targets: seq<NodeName>, forced: set<NodeName>, key: Key,
                             ts: nat, w: World)
    returns (st': Stores, lost: seq<NodeName>)
    requires local in st && forall t | t in forced :: t in targets
    ensures st' == LocalDeletes(st, local, targets, forced, w, key, ts)
    ensures lost == [] <==> forall t | t in forced :: w.localAlien(t).confirmed
    ensures forall t :: t in lost <==> t in forced && !w.localAlien(t).confirmed
  {
    st', lost := st, [];
    for i := 0 to |targets|
      invariant st' == LocalDeletes(st, local, targets[..i], forced, w, key, ts)
      invariant forall t :: t in lost <==> t in targets[..i] && t in forced && !w.localAlien(t).confirmed
    {
      assert targets[..i + 1] == targets[..i] + [targets[i]] && targets[..i + 1][..i] == targets[..i];
      st' := DeleteOwner(st', local, targets[i], key, ts, targets[i] in forced, w.localAlien(targets[i]));
      if !w.localAlien(targets[i]).confirmed && targets[i] in forced {
        lost := lost + [targets[i]];
      }
    }
    assert targets[..|targets|] == targets;
    if lost != [] {
      assert lost[0] in lost;
    }
  }

  function Pair(sup: seq<NodeName>, owners: seq<NodeName>): seq<AlienDelete>
    requires |sup| == |owners|
  {
    seq(|sup|, i requires 0 <= i < |sup| => AlienDelete(sup[i], [owners[i]]))
  }

  /** Requests to all nodes but the supports and the local one. */
  method OtherRequests(nodes: seq<NodeName>, sup: seq<NodeName>, local: NodeName) returns (others: seq<AlienDelete>)
    requires NoDup(nodes)
    ensures NoDup(NodesOf(others))
    ensures forall n :: n in NodesOf(others) <==> n in nodes && n !in sup && n != local
    ensures forall r | r in others :: r.forced == []
  {
    others := [];
    for i := 0 to |nodes|
      invariant NoDup(NodesOf(others))
      invariant forall n :: n in NodesOf(others) <==> n in nodes[..i] && n !in sup && n != local
      invariant forall r | r in others :: r.forced == []
    {
      assert nodes[..i + 1] == nodes[..i] + [nodes[i]];
      if nodes[i] !in sup && nodes[i] != local {
        var r := AlienDelete(nodes[i], []);
        assert NodesOf(others + [r]) == NodesOf(others) + [r.node];
        assert nodes[i] !in nodes[..i];
        NoDupAppend(NodesOf(others), r.node);
        others := others + [r];
      }
    }
    assert nodes[..|nodes|] == nodes;
  }

  /** No node is asked twice, and all nodes but the coordinator are asked. */
  ghost predicate AsksEveryNodeOnce(m: Mapper, local: NodeName, sent: seq<AlienDelete>) {
    && NoDup(NodesOf(sent))
    && forall n | n in m.nodes && n != local :: n in NodesOf(sent)
  }

  lemma SentOnce(m: Mapper, local: NodeName, sup: seq<NodeName>, owners: seq<NodeName>, others: seq<AlienDelete>)
    requires |sup| == |owners| && NoDup(sup) && NoDup(NodesOf(others))
    requires forall n :: n in NodesOf(others) <==> n in m.nodes && n !in sup && n != local
    ensures AsksEveryNodeOnce(m, local, Pair(sup, owners) + others)
  {
    assert NodesOf(Pair(sup, owners) + others) == sup + NodesOf(others);
    NoDupConcat(sup, NodesOf(others));
  }

  /** The forced names come one per support request, so a name is confirmed exactly if its request is. */
  lemma SupportAnswers(m: Mapper, key: Key, w: World, sup: seq<NodeName>, owners: seq<NodeName>,
                       others: seq<AlienDelete>, t: NodeName)
    requires VDiskId(key, |m.vdisks|) in m.vdisks
    requires |sup| == |owners| && NoDup(owners) && forall n | n in sup :: n !in m.Targets(key)
    requires forall r | r in others :: r.forced == []
    ensures ConfirmedBySupport(m, key, w, Pair(sup, owners) + others, t) <==>
              t in owners && !exists r | r in Pair(sup, owners) ::
                t in r.forced && !Confirms(w.alien(r.node), |m.Targets(key)|)
  {
    var ps := Pair(sup, owners);
    if i :| 0 <= i < |owners| && owners[i] == t {
      assert ps[i] in ps && ps[i] in ps + others && sup[i] in sup;
      forall r | r in ps + others && t in r.forced ensures r == ps[i] {
        if r in ps {
          var j :| 0 <= j < |ps| && ps[j] == r;
          assert i == j;
        }
      }
    } else {
      forall r | r in ps + others ensures r.forced != [t] {
        if r in ps {
          var j :| 0 <= j < |ps| && ps[j] == r;
          assert owners[j] in owners;
        }
      }
    }
  }

  /** The requests to support nodes, then to all others, then the local alien store. */
  ghost function AfterAliens(m: Mapper, st: Stores, local: NodeName, key: Key, ts: nat, w: World,
                             first: seq<AlienDelete>, second: seq<AlienDelete>, rest: set<NodeName>): (st': Stores)
    requires VDiskId(key, |m.vdisks|) in m.vdisks && local in st && forall r | r in first + second :: r.node in st
    ensures st'.Keys == st.Keys
  {
    assert forall r | r in first || r in second :: r in first + second;
    LocalDeletes(AlienRequests(m, AlienRequests(m, st, key, ts, w, first), key, ts, w, second), local, m.Targets(key),
                 rest, w, key, ts)
  }

  lemma AfterAliensMark(m: Mapper, st: Stores, local: NodeName, key: Key, ts: nat, w: World,
                        first: seq<AlienDelete>, second: seq<AlienDelete>, rest: set<NodeName>)
    requires VDiskId(key, |m.vdisks|) in m.vdisks && local in st && forall r | r in first + second :: r.node in st
    ensures OnlyMarks(st, AfterAliens(m, st, local, key, ts, w, first, second, rest), key)
  {
    assert forall r | r in first || r in second :: r in first + second;
    var a := AlienRequests(m, st, key, ts, w, first);
    var b := AlienRequests(m, a, key, ts, w, second);
    AlienRequestsMark(m, st, key, ts, w, first);
    AlienRequestsMark(m, a, key, ts, w, second);
    OnlyMarksTransitive(st, a, b, key);
    LocalDeletesMark(b, local, m.Targets(key), rest, w, key, ts);
    OnlyMarksTransitive(st, b, LocalDeletes(b, local, m.Targets(key), rest, w, key, ts), key);
  }

  lemma SupportBuries(m: Mapper, st: Stores, local: NodeName, key: Key, ts: nat, w: World,
                      first: seq<AlienDelete>, second: seq<AlienDelete>, rest: set<NodeName>, t: NodeName)
    requires VDiskId(key, |m.vdisks|) in m.vdisks && local in st && forall r | r in first + second :: r.node in st
    requires t in m.Targets(key) && ConfirmedBySupport(m, key, w, first + second, t)
    ensures Buried(m, AfterAliens(m, st, local, key, ts, w, first, second, rest), local, key, ts, t)
  {
    assert forall r | r in first || r in second :: r in first + second;
    var r :| r in first + second && r.node !in m.Targets(key) && r.forced == [t]
          && Confirms(w.alien(r.node), |m.Targets(key)|);
    var a := AlienRequests(m, st, key, ts, w, first);
    var b := AlienRequests(m, a, key, ts, w, second);
    AlienRequestsMark(m, a, key, ts, w, second);
    if r in first {
      AlienRequestsBury(m, st, key, ts, w, first, r, t);
      AlienDeadStays(a, b, key, r.node, t, ts);
    } else {
      AlienRequestsBury(m, a, key, ts, w, second, r, t);
    }
    LocalDeletesMark(b, local, m.Targets(key), rest, w, key, ts);
    AlienDeadStays(b, LocalDeletes(b, local, m.Targets(key), rest, w, key, ts), key, r.node, t, ts);
  }

  lemma LocalBuries(m: Mapper, st: Stores, local: NodeName, key: Key, ts: nat, w: World,
                    first: seq<AlienDelete>, second: seq<AlienDelete>, rest: set<NodeName>, t: NodeName)
    requires VDiskId(key, |m.vdisks|) in m.vdisks && local in st && forall r | r in first + second :: r.node in st
    requires t in m.Targets(key) && t in rest && w.localAlien(t).confirmed
    ensures Buried(m, AfterAliens(m, st, local, key, ts, w, first, second, rest), local, key, ts, t)
  {
    assert forall r | r in first || r in second :: r in first + second;
    var b := AlienRequests(m, AlienRequests(m, st, key, ts, w, first), key, ts, w, second);
    LocalDeletesBury(b, local, m.Targets(key), rest, w, key, ts, t);
  }

  /** The choice of support nodes for the failed targets, and the names given to them. */
  method ChooseSupports(m: Mapper, quorum: nat, key: Key, failed: set<NodeName>, offset: nat, flags: SupportNodes.Flags)
    returns (sup: seq<NodeName>, owners: seq<NodeName>, rest: set<NodeName>)
    requires m.Valid(quorum) && forall t | t in failed :: t in m.Targets(key)
    ensures |sup| == |owners| && NoDup(sup) && NoDup(owners)
         && (forall n | n in sup :: n in m.nodes && n !in m.Targets(key))
    ensures Elems(owners) !! rest && Elems(owners) + rest == failed
  {
    sup, owners, rest := [], [], failed;
    if failed != {} {
      sup := GetSupportNodes(m, quorum, key, |failed|, offset, flags);
      owners, rest := DrainCollect(failed, |sup|);
    }
  }

  /** Which requests go out, and which names they leave for the local store. */
  ghost predicate Planned(m: Mapper, st: Stores, local: NodeName, key: Key, w: World, failed: set<NodeName>,
                          queries: seq<AlienDelete>, others: seq<AlienDelete>, rest: set<NodeName>)
    requires VDiskId(key, |m.vdisks|) in m.vdisks
  {
    && (forall r | r in queries :: r.node in st) && (forall r | r in others :: r.node in st)
    && AsksEveryNodeOnce(m, local, queries + others)
    && rest <= failed
    && (forall t :: ConfirmedBySupport(m, key, w, queries + others, t) <==> t in failed && t !in rest)
  }

  lemma PlanHolds(m: Mapper, st: Stores, local: NodeName, key: Key, w: World, failed: set<NodeName>, sup: seq<NodeName>,
                  owners: seq<NodeName>, others: seq<AlienDelete>, kept: set<NodeName>, unconfirmed: set<NodeName>)
    requires VDiskId(key, |m.vdisks|) in m.vdisks && st.Keys == Elems(m.nodes)
    requires |sup| == |owners| && NoDup(sup) && NoDup(owners)
          && forall n | n in sup :: n in m.nodes && n !in m.Targets(key)
    requires Elems(owners) !! kept && Elems(owners) + kept == failed
    requires NoDup(NodesOf(others)) && (forall n :: n in NodesOf(others) <==> n in m.nodes && n !in sup && n != local)
    requires forall r | r in others :: r.forced == []
    requires forall t :: t in unconfirmed <==>
               exists r | r in Pair(sup, owners) :: t in r.forced && !Confirms(w.alien(r.node), |m.Targets(key)|)
    ensures Planned(m, st, local, key, w, failed, Pair(sup, owners), others, kept + unconfirmed)
  {
    SentToNodes(m, st, local, sup, owners, others);
    SentOnce(m, local, sup, owners, others);
    forall t | t in unconfirmed ensures t in owners {
      var r :| r in Pair(sup, owners) && t in r.forced;
      var i :| 0 <= i < |sup| && Pair(sup, owners)[i] == r;
    }
    forall t
      ensures ConfirmedBySupport(m, key, w, Pair(sup, owners) + others, t) <==> t in failed && t !in kept + unconfirmed
    {
      SupportAnswers(m, key, w, sup, owners, others, t);
      assert t in owners <==> t in Elems(owners);
    }
  }

  /** The tombstones that a successful alien stage leaves. */
  lemma FailedAreBuried(m: Mapper, st: Stores, local: NodeName, key: Key, ts: nat, w: World, failed: set<NodeName>,
                        queries: seq<AlienDelete>, others: seq<AlienDelete>, first: seq<AlienDelete>,
                        second: seq<AlienDelete>, rest: set<NodeName>, t: NodeName)
    requires VDiskId(key, |m.vdisks|) in m.vdisks && local in st
          && Planned(m, st, local, key, w, failed, queries, others, rest)
    requires Elems(first) == Elems(queries) && Elems(second) == Elems(others)
          && forall r | r in first + second :: r.node in st
    requires t in failed && t in m.Targets(key) && (t in rest ==> w.localAlien(t).confirmed)
    ensures Buried(m, AfterAliens(m, st, local, key, ts, w, first, second, rest), local, key, ts, t)
  {
    if t in rest {
      LocalBuries(m, st, local, key, ts, w, first, second, rest, t);
    } else {
      SameElems(queries, others, first, second);
      SameRequests(m, key, w, queries + others, first + second, t);
      SupportBuries(m, st, local, key, ts, w, first, second, rest, t);
    }
  }

  lemma SameElems(a: seq<AlienDelete>, b: seq<AlienDelete>, c: seq<AlienDelete>, d: seq<AlienDelete>)
    requires Elems(a) == Elems(c) && Elems(b) == Elems(d)
    ensures Elems(a + b) == Elems(c + d)
  {
    assert forall x :: x in a + b <==> x in Elems(a) || x in Elems(b);
    assert forall x :: x in c + d <==> x in Elems(c) || x in Elems(d);
  }

  lemma InStores(st: Stores, first: seq<AlienDelete>, second: seq<AlienDelete>)
    requires (forall r | r in first :: r.node in st) && forall r | r in second :: r.node in st
    ensures forall r | r in first + second :: r.node in st
  {
  }

  /** `delete_aliens`. */
  method DeleteAliens(m: Mapper, quorum: nat, st: Stores, local: NodeName, key: Key, ts: nat, failed: set<NodeName>,
                      w: World, offset: nat, flags: SupportNodes.Flags)
    returns (ok: bool, st': Stores, sent: seq<AlienDelete>, ghost plan: AlienPlan)
    requires m.Valid(quorum) && st.Keys == Elems(m.nodes) && local in st
          && forall t | t in failed :: t in m.Targets(key)
    ensures sent == plan.queries + plan.others
         && Planned(m, st, local, key, w, failed, plan.queries, plan.others, plan.rest)
    ensures Elems(plan.first) == Elems(plan.queries) && Elems(plan.second) == Elems(plan.others)
    ensures forall r | r in plan.first + plan.second :: r.node in st
    ensures st' == AfterAliens(m, st, local, key, ts, w, plan.first, plan.second, plan.rest)
    ensures ok <==> forall t | t in plan.rest :: w.localAlien(t).confirmed
  {
    var sup, owners, rest := ChooseSupports(m, quorum, key, failed, offset, flags);
    var queries := Pair(sup, owners);
    var others := OtherRequests(m.nodes, sup, local);
    sent := queries + others;
    SentToNodes(m, st, local, sup, owners, others);
    var mid, unconfirmed;
    ghost var first, second;
    mid, unconfirmed, first := CallAll(m, st, queries, key, ts, w);
    PlanHolds(m, st, local, key, w, failed, sup, owners, others, rest, unconfirmed);
    rest := rest + unconfirmed;
    var ignored;
    mid, ignored, second := CallAll(m, mid, others, key, ts, w);
    var lost;
    st', lost := DeleteOnLocalAliens(mid, local, m.Targets(key), rest, key, ts, w);
    ok := lost == [];
    InStores(st, first, second);
    plan := AlienPlan(queries, others, first, second, rest);
  }

  /** The requests, the order in which they ended, and the names left for the local store. */
  datatype AlienPlan = AlienPlan(
    queries: seq<AlienDelete>, others: seq<AlienDelete>, first: seq<AlienDelete>, second: seq<AlienDelete>,
    rest: set<NodeName>)

  lemma SentToNodes(m: Mapper, st: Stores, local: NodeName, sup: seq<NodeName>, owners: seq<NodeName>,
                    others: seq<AlienDelete>)
    requires |sup| == |owners| && st.Keys == Elems(m.nodes) && forall n | n in sup :: n in m.nodes
    requires forall n :: n in NodesOf(others) <==> n in m.nodes && n !in sup && n != local
    ensures (forall r | r in Pair(sup, owners) :: r.node in st) && forall r | r in others :: r.node in st
  {
    forall r | r in Pair(sup, owners) ensures r.node in st {
      var i :| 0 <= i < |sup| && Pair(sup, owners)[i] == r;
      assert sup[i] in sup;
    }
    forall r | r in others ensures r.node in st {
      var i :| 0 <= i < |others| && others[i] == r;
      assert NodesOf(others)[i] in NodesOf(others);
    }
  }

  lemma SameRequests(m: Mapper, key: Key, w: World, a: seq<AlienDelete>, b: seq<AlienDelete>, t: NodeName)
    requires VDiskId(key, |m.vdisks|) in m.vdisks && Elems(a) == Elems(b) && ConfirmedBySupport(m, key, w, a, t)
    ensures ConfirmedBySupport(m, key, w, b, t)
  {
    var r :| r in a && r.node !in m.Targets(key) && r.forced == [t] && Confirms(w.alien(r.node), |m.Targets(key)|);
    assert r in Elems(b);
  }

  /** Both stages, with the orders in which their requests ended. */
  ghost predicate Carried(m: Mapper, st: Stores, mid: Stores, st': Stores, local: NodeName, key: Key, ts: nat, w: World,
                          failed: set<NodeName>, order: seq<NodeName>, plan: AlienPlan)
    requires VDiskId(key, |m.vdisks|) in m.vdisks && local in st
  {
    && Elems(order) == Elems(m.Targets(key)) - {local} && (forall n | n in order :: n in st)
    && mid == AfterTargets(m, st, local, key, ts, w, order)
    && (forall t :: t in failed <==> t in m.Targets(key) && !ConfirmedByTarget(m, local, key, w, t))
    && Planned(m, mid, local, key, w, failed, plan.queries, plan.others, plan.rest)
    && Elems(plan.first) == Elems(plan.queries) && Elems(plan.second) == Elems(plan.others)
    && (forall r | r in plan.first + plan.second :: r.node in mid)
    && st' == AfterAliens(m, mid, local, key, ts, w, plan.first, plan.second, plan.rest)
  }

  lemma CarriedMarks(m: Mapper, st: Stores, mid: Stores, st': Stores, local: NodeName, key: Key, ts: nat, w: World,
                     failed: set<NodeName>, order: seq<NodeName>, plan: AlienPlan)
    requires VDiskId(key, |m.vdisks|) in m.vdisks && local in st
    requires Carried(m, st, mid, st', local, key, ts, w, failed, order, plan)
    ensures OnlyMarks(mid, st', key) && OnlyMarks(st, st', key)
  {
    AfterTargetsMark(m, st, local, key, ts, w, order);
    AfterAliensMark(m, mid, local, key, ts, w, plan.first, plan.second, plan.rest);
    OnlyMarksTransitive(st, mid, st', key);
  }

  lemma {:induction false} RemoteDeletesSteps(m: Mapper, st: Stores, key: Key, ts: nat, w: World, order: seq<NodeName>)
    requires VDiskId(key, |m.vdisks|) in m.vdisks && forall n | n in order :: n in st
    ensures ByTombstones(st, RemoteDeletes(m, st, key, ts, w, order), key, ts)
  {
    if order == [] {
      NoTombstone(st, key, ts);
    } else {
      var k := |order| - 1;
      var mid := RemoteDeletes(m, st, key, ts, w, order[..k]);
      assert order[k] in order;
      RemoteDeletesSteps(m, st, key, ts, w, order[..k]);
      RemoteDeleteSteps(m, st, mid, key, ts, w, order[k]);
    }
  }

  lemma RemoteDeleteSteps(m: Mapper, st: Stores, mid: Stores, key: Key, ts: nat, w: World, n: NodeName)
    requires VDiskId(key, |m.vdisks|) in m.vdisks && n in mid && ByTombstones(st, mid, key, ts)
    ensures ByTombstones(st, RemoteDelete(m, mid, key, ts, w, n), key, ts)
  {
    var paths := Paths(m.ReplicasFor(key), n);
    DeletePathsSteps(mid, n, paths, w.remote(n).outs, key, ts);
    TombstonesChain(st, mid, DeletePaths(mid, n, paths, w.remote(n).outs, key, ts), key, ts);
  }

  lemma {:induction false} AlienRequestsSteps(m: Mapper, st: Stores, key: Key, ts: nat, w: World,
                                              order: seq<AlienDelete>)
    requires VDiskId(key, |m.vdisks|) in m.vdisks && forall r | r in order :: r.node in st
    ensures ByTombstones(st, AlienRequests(m, st, key, ts, w, order), key, ts)
  {
    if order == [] {
      NoTombstone(st, key, ts);
    } else {
      var k := |order| - 1;
      var mid := AlienRequests(m, st, key, ts, w, order[..k]);
      assert order[k] in order;
      AlienRequestsSteps(m, st, key, ts, w, order[..k]);
      AlienRequestSteps(m, st, mid, key, ts, w, order[k]);
    }
  }

  lemma AlienRequestSteps(m: Mapper, st: Stores, mid: Stores, key: Key, ts: nat, w: World, r: AlienDelete)
    requires VDiskId(key, |m.vdisks|) in m.vdisks && r.node in mid && ByTombstones(st, mid, key, ts)
    ensures ByTombstones(st, AlienRequest(m, mid, key, ts, w, r), key, ts)
  {
    var outs := w.alien(r.node).outs;
    DeleteOwnersSteps(mid, r.node, m.Targets(key), r.forced, outs, key, ts);
    TombstonesChain(st, mid, DeleteOwners(mid, r.node, m.Targets(key), r.forced, outs, key, ts), key, ts);
  }

  lemma {:induction false} LocalDeletesSteps(st: Stores, local: NodeName, targets: seq<NodeName>, forced: set<NodeName>,
                                             w: World, key: Key, ts: nat)
    requires local in st
    ensures ByTombstones(st, LocalDeletes(st, local, targets, forced, w, key, ts), key, ts)
  {
    if targets == [] {
      NoTombstone(st, key, ts);
    } else {
      var k := |targets| - 1;
      var mid := LocalDeletes(st, local, targets[..k], forced, w, key, ts);
      LocalDeletesSteps(st, local, targets[..k], forced, w, key, ts);
      DeleteOwnerStep(st, mid, local, targets[k], key, ts, targets[k] in forced, w.localAlien(targets[k]));
    }
  }

  lemma AfterTargetsSteps(m: Mapper, st: Stores, local: NodeName, key: Key, ts: nat, w: World, order: seq<NodeName>)
    requires VDiskId(key, |m.vdisks|) in m.vdisks && local in st && forall n | n in order :: n in st
    ensures ByTombstones(st, AfterTargets(m, st, local, key, ts, w, order), key, ts)
  {
    var first := DeletePaths(st, local, Paths(m.ReplicasFor(key), local), w.path, key, ts);
    DeletePathsSteps(st, local, Paths(m.ReplicasFor(key), local), w.path, key, ts);
    RemoteDeletesSteps(m, first, key, ts, w, order);
    TombstonesChain(st, first, RemoteDeletes(m, first, key, ts, w, order), key, ts);
  }

  lemma AfterAliensSteps(m: Mapper, st: Stores, local: NodeName, key: Key, ts: nat, w: World,
                         first: seq<AlienDelete>, second: seq<AlienDelete>, rest: set<NodeName>)
    requires VDiskId(key, |m.vdisks|) in m.vdisks && local in st && forall r | r in first + second :: r.node in st
    ensures ByTombstones(st, AfterAliens(m, st, local, key, ts, w, first, second, rest), key, ts)
  {
    assert forall r | r in first || r in second :: r in first + second;
    var a := AlienRequests(m, st, key, ts, w, first);
    var b := AlienRequests(m, a, key, ts, w, second);
    AlienRequestsSteps(m, st, key, ts, w, first);
    AlienRequestsSteps(m, a, key, ts, w, second);
    TombstonesChain(st, a, b, key, ts);
    LocalDeletesSteps(b, local, m.Targets(key), rest, w, key, ts);
    TombstonesChain(st, b, LocalDeletes(b, local, m.Targets(key), rest, w, key, ts), key, ts);
  }

  lemma CarriedSteps(m: Mapper, st: Stores, mid: Stores, st': Stores, local: NodeName, key: Key, ts: nat, w: World,
                     failed: set<NodeName>, order: seq<NodeName>, plan: AlienPlan)
    requires VDiskId(key, |m.vdisks|) in m.vdisks && local in st
    requires Carried(m, st, mid, st', local, key, ts, w, failed, order, plan)
    ensures ByTombstones(st, st', key, ts)
  {
    AfterTargetsSteps(m, st, local, key, ts, w, order);
    AfterAliensSteps(m, mid, local, key, ts, w, plan.first, plan.second, plan.rest);
    TombstonesChain(st, mid, st', key, ts);
  }

  // ---- alien groups that took the delete ----

  lemma AlienRequestMarks(m: Mapper, st: Stores, key: Key, ts: nat, w: World, r: AlienDelete)
    requires VDiskId(key, |m.vdisks|) in m.vdisks && r.node in st && w.alien(r.node).arrives
    ensures GroupsDead(m, AlienRequest(m, st, key, ts, w, r), key, ts, w, r)
  {
    DeleteOwnersDead(st, r.node, m.Targets(key), r.forced, w.alien(r.node).outs, key, ts);
  }

  /** On the node of the request, every target's group that took the delete has the tombstone. */
  ghost predicate GroupsDead(m: Mapper, st: Stores, key: Key, ts: nat, w: World, r: AlienDelete)
    requires VDiskId(key, |m.vdisks|) in m.vdisks
  {
    OwnersDead(st, r.node, m.Targets(key), r.forced, w.alien(r.node).outs, key, ts, |m.Targets(key)|)
  }

  lemma GroupsStayDead(m: Mapper, st: Stores, st': Stores, key: Key, ts: nat, w: World, r: AlienDelete)
    requires VDiskId(key, |m.vdisks|) in m.vdisks && GroupsDead(m, st, key, ts, w, r) && OnlyMarks(st, st', key)
    ensures GroupsDead(m, st', key, ts, w, r)
  {
    OwnersStayDead(st, st', r.node, m.Targets(key), r.forced, w.alien(r.node).outs, key, ts, |m.Targets(key)|);
  }

  lemma {:induction false} AlienRequestsKill(m: Mapper, st: Stores, key: Key, ts: nat, w: World,
                                             order: seq<AlienDelete>, r: AlienDelete)
    requires VDiskId(key, |m.vdisks|) in m.vdisks && (forall x | x in order :: x.node in st)
    requires r in order && w.alien(r.node).arrives
    ensures GroupsDead(m, AlienRequests(m, st, key, ts, w, order), key, ts, w, r)
  {
    var k := |order| - 1;
    var mid := AlienRequests(m, st, key, ts, w, order[..k]);
    assert order[k] in order;
    if order[k] == r {
      AlienRequestMarks(m, mid, key, ts, w, r);
    } else {
      AlienRequestsKill(m, st, key, ts, w, order[..k], r);
      AlienRequestEffect(m, mid, key, ts, w, order[k]);
      GroupsStayDead(m, mid, AlienRequest(m, mid, key, ts, w, order[k]), key, ts, w, r);
    }
  }

  /** The coordinator's group of the target has the tombstone if it has the key and took the delete. */
  ghost predicate LocalGroupDead(st: Stores, local: NodeName, key: Key, ts: nat, w: World, t: NodeName) {
    Written(st, local, t, key, false, w.localAlien(t)) ==> AlienDead(st, local, t, key, ts)
  }

  lemma LocalStaysDead(st: Stores, st': Stores, local: NodeName, key: Key, ts: nat, w: World, t: NodeName)
    requires LocalGroupDead(st, local, key, ts, w, t) && OnlyMarks(st, st', key)
    ensures LocalGroupDead(st', local, key, ts, w, t)
  {
    if Written(st', local, t, key, false, w.localAlien(t)) {
      assert Written(st, local, t, key, false, w.localAlien(t));
      AlienDeadStays(st, st', key, local, t, ts);
    }
  }

  lemma {:induction false} LocalDeletesKill(st: Stores, local: NodeName, targets: seq<NodeName>, forced: set<NodeName>,
                                            w: World, key: Key, ts: nat, t: NodeName)
    requires local in st && t in targets
    ensures LocalGroupDead(LocalDeletes(st, local, targets, forced, w, key, ts), local, key, ts, w, t)
  {
    var k := |targets| - 1;
    var mid := LocalDeletes(st, local, targets[..k], forced, w, key, ts);
    DeleteOwnerEffect(mid, local, targets[k], key, ts, targets[k] in forced, w.localAlien(targets[k]));
    if targets[k] != t {
      LocalDeletesKill(st, local, targets[..k], forced, w, key, ts, t);
      LocalStaysDead(mid, LocalDeletes(st, local, targets, forced, w, key, ts), local, key, ts, w, t);
    }
  }

  lemma AfterAliensKills(m: Mapper, st: Stores, local: NodeName, key: Key, ts: nat, w: World,
                         first: seq<AlienDelete>, second: seq<AlienDelete>, rest: set<NodeName>, r: AlienDelete)
    requires VDiskId(key, |m.vdisks|) in m.vdisks && local in st && forall x | x in first + second :: x.node in st
    requires r in first + second && w.alien(r.node).arrives
    ensures GroupsDead(m, AfterAliens(m, st, local, key, ts, w, first, second, rest), key, ts, w, r)
  {
    assert forall x | x in first || x in second :: x in first + second;
    var a := AlienRequests(m, st, key, ts, w, first);
    var b := AlienRequests(m, a, key, ts, w, second);
    if r in second {
      AlienRequestsKill(m, a, key, ts, w, second, r);
    } else {
      AlienRequestsKill(m, st, key, ts, w, first, r);
      AlienRequestsMark(m, a, key, ts, w, second);
      GroupsStayDead(m, a, b, key, ts, w, r);
    }
    LocalDeletesMark(b, local, m.Targets(key), rest, w, key, ts);
    GroupsStayDead(m, b, LocalDeletes(b, local, m.Targets(key), rest, w, key, ts), key, ts, w, r);
  }

  /** Every alien group of a target that has the key and took the delete has the tombstone, on all nodes. */
  ghost predicate AllGroupsDead(m: Mapper, st: Stores, local: NodeName, key: Key, ts: nat, w: World,
                                sent: seq<AlienDelete>)
    requires VDiskId(key, |m.vdisks|) in m.vdisks
  {
    && (forall r | r in sent && w.alien(r.node).arrives :: GroupsDead(m, st, key, ts, w, r))
    && (forall t | t in m.Targets(key) :: LocalGroupDead(st, local, key, ts, w, t))
  }

  lemma CarriedKills(m: Mapper, st: Stores, mid: Stores, st': Stores, local: NodeName, key: Key, ts: nat, w: World,
                     failed: set<NodeName>, order: seq<NodeName>, plan: AlienPlan)
    requires VDiskId(key, |m.vdisks|) in m.vdisks && local in st
    requires Carried(m, st, mid, st', local, key, ts, w, failed, order, plan)
    ensures AllGroupsDead(m, st', local, key, ts, w, plan.queries + plan.others)
  {
    SameElems(plan.queries, plan.others, plan.first, plan.second);
    forall r | r in plan.queries + plan.others && w.alien(r.node).arrives ensures GroupsDead(m, st', key, ts, w, r) {
      assert r in Elems(plan.first + plan.second);
      AfterAliensKills(m, mid, local, key, ts, w, plan.first, plan.second, plan.rest, r);
    }
    forall t | t in m.Targets(key) ensures LocalGroupDead(st', local, key, ts, w, t) {
      AfterAliensKillLocal(m, mid, local, key, ts, w, plan.first, plan.second, plan.rest, t);
    }
  }

  lemma AfterAliensKillLocal(m: Mapper, st: Stores, local: NodeName, key: Key, ts: nat, w: World,
                             first: seq<AlienDelete>, second: seq<AlienDelete>, rest: set<NodeName>, t: NodeName)
    requires VDiskId(key, |m.vdisks|) in m.vdisks && local in st && forall x | x in first + second :: x.node in st
    requires t in m.Targets(key)
    ensures LocalGroupDead(AfterAliens(m, st, local, key, ts, w, first, second, rest), local, key, ts, w, t)
  {
    assert forall x | x in first || x in second :: x in first + second;
    var b := AlienRequests(m, AlienRequests(m, st, key, ts, w, first), key, ts, w, second);
    LocalDeletesKill(b, local, m.Targets(key), rest, w, key, ts, t);
  }

  lemma CarriedErases(m: Mapper, st: Stores, mid: Stores, st': Stores, local: NodeName, key: Key, ts: nat, w: World,
                      failed: set<NodeName>, order: seq<NodeName>, plan: AlienPlan, t: NodeName)
    requires VDiskId(key, |m.vdisks|) in m.vdisks && local in st
    requires Carried(m, st, mid, st', local, key, ts, w, failed, order, plan)
    requires t in m.Targets(key) && ConfirmedByTarget(m, local, key, w, t)
    ensures Erased(m, st', key, ts, t)
  {
    assert t in Elems(m.Targets(key));
    assert t == local || t in Elems(order);
    ConfirmedIsErased(m, st, local, key, ts, w, order, t);
    CarriedMarks(m, st, mid, st', local, key, ts, w, failed, order, plan);
    ErasedStays(m, mid, st', key, ts, t);
  }

  /** From answers to stores: if every target is confirmed one way or the other, each has its tombstones. */
  lemma CarriedRemoves(m: Mapper, st: Stores, mid: Stores, st': Stores, local: NodeName, key: Key, ts: nat, w: World,
                       failed: set<NodeName>, order: seq<NodeName>, plan: AlienPlan, t: NodeName)
    requires VDiskId(key, |m.vdisks|) in m.vdisks && local in st
    requires Carried(m, st, mid, st', local, key, ts, w, failed, order, plan)
    requires t in m.Targets(key) && (t in plan.rest ==> w.localAlien(t).confirmed)
    ensures Erased(m, st', key, ts, t) || Buried(m, st', local, key, ts, t)
  {
    if ConfirmedByTarget(m, local, key, w, t) {
      CarriedErases(m, st, mid, st', local, key, ts, w, failed, order, plan, t);
    } else {
      FailedAreBuried(m, mid, local, key, ts, w, failed,
                      plan.queries, plan.others, plan.first, plan.second, plan.rest, t);
    }
  }

  /** The names left for the local store are the targets confirmed neither by themselves nor by a support node. */
  lemma CarriedAnswers(m: Mapper, st: Stores, mid: Stores, st': Stores, local: NodeName, key: Key, ts: nat, w: World,
                       failed: set<NodeName>, order: seq<NodeName>, plan: AlienPlan, t: NodeName)
    requires VDiskId(key, |m.vdisks|) in m.vdisks && local in st
    requires Carried(m, st, mid, st', local, key, ts, w, failed, order, plan) && t in m.Targets(key)
    ensures t in plan.rest <==>
              !ConfirmedByTarget(m, local, key, w, t) && !ConfirmedBySupport(m, key, w, plan.queries + plan.others, t)
    ensures ConfirmedByTarget(m, local, key, w, t) ==> !ConfirmedBySupport(m, key, w, plan.queries + plan.others, t)
  {
  }

  /** Every target has a tombstone at least as new on all its replica disks, or under its name in an alien store. */
  ghost predicate Removed(m: Mapper, st: Stores, local: NodeName, key: Key, ts: nat)
    requires VDiskId(key, |m.vdisks|) in m.vdisks
  {
    forall t | t in m.Targets(key) :: Erased(m, st, key, ts, t) || Buried(m, st, local, key, ts, t)
  }

  /**
   `delete_on_nodes`: the answer is Ok exactly if every target confirmed the delete itself or an
   alien store confirmed a forced tombstone for it. Then every target has a tombstone at least as
   new on all its replica disks, or one under its name lies in the alien store of the coordinator
   or of a node that is no target. All other nodes are asked once, and no record is touched. Whatever
   the answer, every alien group of a target that has the key and took the delete has the tombstone.
   */
  method DeleteOnNodes(m: Mapper, quorum: nat, st: Stores, local: NodeName, key: Key, ts: nat, w: World,
                       offset: nat, flags: SupportNodes.Flags)
    returns (ok: bool, st': Stores, sent: seq<AlienDelete>)
    requires m.Valid(quorum) && st.Keys == Elems(m.nodes) && local in st
    ensures OnlyMarks(st, st', key) && ByTombstones(st, st', key, ts) && AsksEveryNodeOnce(m, local, sent)
    ensures ok <==> forall t | t in m.Targets(key) :: Confirmed(m, local, key, w, sent, t)
    ensures forall t | t in m.Targets(key) && ConfirmedByTarget(m, local, key, w, t) ::
              Erased(m, st', key, ts, t) && !ConfirmedBySupport(m, key, w, sent, t)
    ensures AllGroupsDead(m, st', local, key, ts, w, sent)
    ensures ok ==> Removed(m, st', local, key, ts)
  {
    var mid, failed;
    ghost var order, plan;
    mid, failed, order := DeleteOnTargets(m, quorum, st, local, key, ts, w);
    ok, st', sent, plan := DeleteAliens(m, quorum, mid, local, key, ts, failed, w, offset, flags);
    CarriedMarks(m, st, mid, st', local, key, ts, w, failed, order, plan);
    CarriedSteps(m, st, mid, st', local, key, ts, w, failed, order, plan);
    CarriedKills(m, st, mid, st', local, key, ts, w, failed, order, plan);
    forall t | t in m.Targets(key)
      ensures t in plan.rest <==> !ConfirmedByTarget(m, local, key, w, t) && !ConfirmedBySupport(m, key, w, sent, t)
      ensures ConfirmedByTarget(m, local, key, w, t) ==>
                Erased(m, st', key, ts, t) && !ConfirmedBySupport(m, key, w, sent, t)
      ensures ok ==> Erased(m, st', key, ts, t) || Buried(m, st', local, key, ts, t)
    {
      CarriedAnswers(m, st, mid, st', local, key, ts, w, failed, order, plan, t);
      if ConfirmedByTarget(m, local, key, w, t) {
        CarriedErases(m, st, mid, st', local, key, ts, w, failed, order, plan, t);
      }
      if ok {
        CarriedRemoves(m, st, mid, st', local, key, ts, w, failed, order, plan, t);
      }
    }
  }
}
