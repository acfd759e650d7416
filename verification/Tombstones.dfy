/** Deletes on the stores of one node. A delete leaves tombstones and touches no record. */
module Tombstones {
  import opened Types
  import opened Stores

  /** A delete in one store: whether it was reported as done, and whether a tombstone got written when it was not. */
  datatype DeleteOutcome = DeleteOutcome(confirmed: bool, applied: bool)

  /** Deletes on normal disks are always forced: a confirmed one has left a tombstone. */
  function DeletePath(st: Stores, n: NodeName, disk: DiskName, key: Key, ts: nat, out: DeleteOutcome): Stores
    requires n in st
  {
    if out.confirmed || out.applied then KillDisk(st, n, disk, key, ts) else st
  }

  /** Without force only groups that have the key may get a tombstone, and none is promised. */
  function DeleteOwner(st: Stores, n: NodeName, owner: NodeName, key: Key, ts: nat, forced: bool,
                       out: DeleteOutcome): Stores
    requires n in st
  {
    if (if forced then out.confirmed || out.applied else out.applied && (owner, key) in st[n].aliens)
    then KillAlien(st, n, owner, key, ts) else st
  }

  ghost predicate Dead(st: Stores, n: NodeName, disk: DiskName, key: Key, ts: nat) {
    n in st && Hidden(st[n].deadDisks, (disk, key), ts)
  }

  ghost predicate AlienDead(st: Stores, n: NodeName, owner: NodeName, key: Key, ts: nat) {
    n in st && Hidden(st[n].deadAliens, (owner, key), ts)
  }

  /** Tombstones of the key may be added or renewed; no tombstone is lost or older, none of another key changed. */
  ghost predicate MarksMore<K(!new)>(a: map<(K, Key), nat>, b: map<(K, Key), nat>, key: Key) {
    && (forall k | k in a :: k in b && b[k] >= a[k])
    && (forall k | k in b && k.1 != key :: k in a && b[k] == a[k])
  }

  /** All that a delete of the key does to the stores. */
  ghost predicate OnlyMarks(a: Stores, b: Stores, key: Key) {
    && a.Keys == b.Keys
    && forall n | n in a ::
         && a[n].disks == b[n].disks && a[n].aliens == b[n].aliens
         && MarksMore(a[n].deadDisks, b[n].deadDisks, key) && MarksMore(a[n].deadAliens, b[n].deadAliens, key)
  }

  lemma OnlyMarksTransitive(a: Stores, b: Stores, c: Stores, key: Key)
    requires OnlyMarks(a, b, key) && OnlyMarks(b, c, key)
    ensures OnlyMarks(a, c, key)
  {
    forall n | n in a
      ensures MarksMore(a[n].deadDisks, c[n].deadDisks, key) && MarksMore(a[n].deadAliens, c[n].deadAliens, key)
    {
      assert MarksMore(a[n].deadDisks, b[n].deadDisks, key) && MarksMore(b[n].deadDisks, c[n].deadDisks, key);
      assert MarksMore(a[n].deadAliens, b[n].deadAliens, key) && MarksMore(b[n].deadAliens, c[n].deadAliens, key);
    }
  }

  lemma DeadStays(a: Stores, b: Stores, key: Key, n: NodeName, disk: DiskName, ts: nat)
    requires OnlyMarks(a, b, key) && Dead(a, n, disk, key, ts)
    ensures Dead(b, n, disk, key, ts)
  {
    assert MarksMore(a[n].deadDisks, b[n].deadDisks, key);
  }

  lemma AlienDeadStays(a: Stores, b: Stores, key: Key, n: NodeName, owner: NodeName, ts: nat)
    requires OnlyMarks(a, b, key) && AlienDead(a, n, owner, key, ts)
    ensures AlienDead(b, n, owner, key, ts)
  {
    assert MarksMore(a[n].deadAliens, b[n].deadAliens, key);
  }

  lemma MarkEffect<K(!new)>(dead: map<(K, Key), nat>, k: K, key: Key, ts: nat)
    ensures MarksMore(dead, dead, key) && MarksMore(dead, Mark(dead, (k, key), ts), key)
         && Hidden(Mark(dead, (k, key), ts), (k, key), ts)
  {
  }

  lemma DeletePathEffect(st: Stores, n: NodeName, disk: DiskName, key: Key, ts: nat, out: DeleteOutcome)
    requires n in st
    ensures OnlyMarks(st, DeletePath(st, n, disk, key, ts, out), key)
    ensures out.confirmed || out.applied ==> Dead(DeletePath(st, n, disk, key, ts, out), n, disk, key, ts)
  {
    MarkEffect(st[n].deadDisks, disk, key, ts);
  }

  lemma DeleteOwnerEffect(st: Stores, n: NodeName, owner: NodeName, key: Key, ts: nat, forced: bool, out: DeleteOutcome)
    requires n in st
    ensures OnlyMarks(st, DeleteOwner(st, n, owner, key, ts, forced, out), key)
    ensures Written(DeleteOwner(st, n, owner, key, ts, forced, out), n, owner, key, forced, out) ==>
              AlienDead(DeleteOwner(st, n, owner, key, ts, forced, out), n, owner, key, ts)
  {
    MarkEffect(st[n].deadAliens, owner, key, ts);
  }

  /** The group took the delete: a forced one that was confirmed, or any that was applied to a group with the key. */
  ghost predicate Written(st: Stores, n: NodeName, owner: NodeName, key: Key, forced: bool, out: DeleteOutcome) {
    (forced && (out.confirmed || out.applied)) || (out.applied && n in st && (owner, key) in st[n].aliens)
  }

  /** The first `n` stores have confirmed. */
  predicate AllConfirm(outs: nat -> DeleteOutcome, n: nat) {
    n == 0 || (AllConfirm(outs, n - 1) && outs(n - 1).confirmed)
  }

  lemma {:induction false} EachConfirms(outs: nat -> DeleteOutcome, n: nat, i: nat)
    requires AllConfirm(outs, n) && i < n
    ensures outs(i).confirmed
  {
    if i < n - 1 {
      EachConfirms(outs, n - 1, i);
    }
  }

  /** Every one of the disks has a tombstone at least as new. */
  ghost predicate AllDead(st: Stores, n: NodeName, paths: seq<DiskName>, key: Key, ts: nat) {
    forall d | d in paths :: Dead(st, n, d, key, ts)
  }

  lemma AllStayDead(st: Stores, st': Stores, n: NodeName, paths: seq<DiskName>, key: Key, ts: nat)
    requires AllDead(st, n, paths, key, ts) && OnlyMarks(st, st', key)
    ensures AllDead(st', n, paths, key, ts)
  {
    forall d | d in paths ensures Dead(st', n, d, key, ts) {
      DeadStays(st, st', key, n, d, ts);
    }
  }

  lemma OnlyMarksSame(st: Stores, key: Key)
    ensures OnlyMarks(st, st, key)
  {
  }

  /** Of the first `upto` paths, those that took the write have a tombstone, and all that confirmed did. */
  ghost predicate PathsDead(st: Stores, n: NodeName, paths: seq<DiskName>, outs: nat -> DeleteOutcome, key: Key,
                            ts: nat, upto: nat)
    requires upto <= |paths|
  {
    forall i: nat | i < upto :: outs(i).confirmed || outs(i).applied ==> Dead(st, n, paths[i], key, ts)
  }

  lemma PathsStayDead(st: Stores, st': Stores, n: NodeName, paths: seq<DiskName>, outs: nat -> DeleteOutcome, key: Key,
                      ts: nat, upto: nat)
    requires upto <= |paths| && PathsDead(st, n, paths, outs, key, ts, upto) && OnlyMarks(st, st', key)
    ensures PathsDead(st', n, paths, outs, key, ts, upto)
  {
    forall j: nat | j < upto && (outs(j).confirmed || outs(j).applied) ensures Dead(st', n, paths[j], key, ts) {
      DeadStays(st, st', key, n, paths[j], ts);
    }
  }

  lemma AllPathsDead(st: Stores, n: NodeName, paths: seq<DiskName>, outs: nat -> DeleteOutcome, key: Key, ts: nat)
    requires PathsDead(st, n, paths, outs, key, ts, |paths|) && AllConfirm(outs, |paths|)
    ensures AllDead(st, n, paths, key, ts)
  {
    forall i: nat | i < |paths| ensures Dead(st, n, paths[i], key, ts) {
      EachConfirms(outs, |paths|, i);
    }
  }

  function DeletePaths(st: Stores, n: NodeName, paths: seq<DiskName>, outs: nat -> DeleteOutcome, key: Key,
                       ts: nat): (st': Stores)
    requires n in st
    ensures st'.Keys == st.Keys
  {
    if paths == [] then st
    else
      var k := |paths| - 1;
      DeletePath(DeletePaths(st, n, paths[..k], outs, key, ts), n, paths[k], key, ts, outs(k))
  }

  lemma {:induction false} DeletePathsMarks(st: Stores, n: NodeName, paths: seq<DiskName>, outs: nat -> DeleteOutcome,
                                            key: Key, ts: nat)
    requires n in st
    ensures OnlyMarks(st, DeletePaths(st, n, paths, outs, key, ts), key)
  {
    if paths == [] {
      OnlyMarksSame(st, key);
    } else {
      var k := |paths| - 1;
      var mid := DeletePaths(st, n, paths[..k], outs, key, ts);
      DeletePathsMarks(st, n, paths[..k], outs, key, ts);
      DeletePathEffect(mid, n, paths[k], key, ts, outs(k));
      OnlyMarksTransitive(st, mid, DeletePath(mid, n, paths[k], key, ts, outs(k)), key);
    }
  }

  lemma OneMorePath(st: Stores, n: NodeName, paths: seq<DiskName>, outs: nat -> DeleteOutcome, key: Key, ts: nat,
                    k: nat)
    requires |paths| == k + 1 && PathsDead(st, n, paths[..k], outs, key, ts, k)
          && (outs(k).confirmed || outs(k).applied ==> Dead(st, n, paths[k], key, ts))
    ensures PathsDead(st, n, paths, outs, key, ts, k + 1)
  {
    forall i: nat | i < k + 1 && (outs(i).confirmed || outs(i).applied) ensures Dead(st, n, paths[i], key, ts) {
      if i < k {
        assert paths[..k][i] == paths[i];
      }
    }
  }

  lemma {:induction false} DeletePathsDead(st: Stores, n: NodeName, paths: seq<DiskName>, outs: nat -> DeleteOutcome,
                                           key: Key, ts: nat)
    requires n in st
    ensures PathsDead(DeletePaths(st, n, paths, outs, key, ts), n, paths, outs, key, ts, |paths|)
  {
    if paths != [] {
      var k := |paths| - 1;
      var mid := DeletePaths(st, n, paths[..k], outs, key, ts);
      var st' := DeletePath(mid, n, paths[k], key, ts, outs(k));
      DeletePathsDead(st, n, paths[..k], outs, key, ts);
      DeletePathEffect(mid, n, paths[k], key, ts, outs(k));
      PathsStayDead(mid, st', n, paths[..k], outs, key, ts, k);
      OneMorePath(st', n, paths, outs, key, ts, k);
    }
  }

  /** `Backend::delete` on the node's own disks: every path is tried, and one failure makes the answer an error. */
  method DeleteLocal(st: Stores, n: NodeName, paths: seq<DiskName>, outs: nat -> DeleteOutcome, key: Key, ts: nat)
    returns (st': Stores, ok: bool)
    requires n in st
    ensures st' == DeletePaths(st, n, paths, outs, key, ts) && OnlyMarks(st, st', key)
    ensures ok == AllConfirm(outs, |paths|) && PathsDead(st', n, paths, outs, key, ts, |paths|)
    ensures ok ==> AllDead(st', n, paths, key, ts)
  {
    st', ok := st, true;
    for i := 0 to |paths|
      invariant st' == DeletePaths(st, n, paths[..i], outs, key, ts) && ok == AllConfirm(outs, i)
    {
      assert paths[..i + 1][..i] == paths[..i];
      st' := DeletePath(st', n, paths[i], key, ts, outs(i));
      ok := ok && outs(i).confirmed;
    }
    assert paths[..|paths|] == paths;
    DeletePathsMarks(st, n, paths, outs, key, ts);
    DeletePathsDead(st, n, paths, outs, key, ts);
    if ok {
      AllPathsDead(st', n, paths, outs, key, ts);
    }
  }

  /** Of the first `upto` names, those whose group took the delete have a tombstone. */
  ghost predicate OwnersDead(st: Stores, n: NodeName, targets: seq<NodeName>, forced: seq<NodeName>,
                             outs: nat -> DeleteOutcome, key: Key, ts: nat, upto: nat)
    requires upto <= |targets|
  {
    forall i: nat | i < upto ::
      Written(st, n, targets[i], key, targets[i] in forced, outs(i)) ==> AlienDead(st, n, targets[i], key, ts)
  }

  lemma OwnersStayDead(st: Stores, st': Stores, n: NodeName, targets: seq<NodeName>, forced: seq<NodeName>,
                       outs: nat -> DeleteOutcome, key: Key, ts: nat, upto: nat)
    requires upto <= |targets| && OwnersDead(st, n, targets, forced, outs, key, ts, upto) && OnlyMarks(st, st', key)
    ensures OwnersDead(st', n, targets, forced, outs, key, ts, upto)
  {
    forall j: nat | j < upto && Written(st', n, targets[j], key, targets[j] in forced, outs(j))
      ensures AlienDead(st', n, targets[j], key, ts)
    {
      assert Written(st, n, targets[j], key, targets[j] in forced, outs(j));
      AlienDeadStays(st, st', key, n, targets[j], ts);
    }
  }

  lemma AllOwnersDead(st: Stores, n: NodeName, targets: seq<NodeName>, forced: seq<NodeName>,
                      outs: nat -> DeleteOutcome, key: Key, ts: nat)
    requires OwnersDead(st, n, targets, forced, outs, key, ts, |targets|) && AllConfirm(outs, |targets|)
    ensures forall t | t in targets && t in forced :: AlienDead(st, n, t, key, ts)
  {
    forall i: nat | i < |targets| && targets[i] in forced ensures AlienDead(st, n, targets[i], key, ts) {
      EachConfirms(outs, |targets|, i);
    }
  }

  function DeleteOwners(st: Stores, n: NodeName, targets: seq<NodeName>, forced: seq<NodeName>,
                        outs: nat -> DeleteOutcome, key: Key, ts: nat): (st': Stores)
    requires n in st
    ensures st'.Keys == st.Keys
  {
    if targets == [] then st
    else
      var k := |targets| - 1;
      DeleteOwner(DeleteOwners(st, n, targets[..k], forced, outs, key, ts), n, targets[k], key, ts,
                  targets[k] in forced, outs(k))
  }

  lemma {:induction false} DeleteOwnersMarks(st: Stores, n: NodeName, targets: seq<NodeName>, forced: seq<NodeName>,
                                             outs: nat -> DeleteOutcome, key: Key, ts: nat)
    requires n in st
    ensures OnlyMarks(st, DeleteOwners(st, n, targets, forced, outs, key, ts), key)
  {
    if targets == [] {
      OnlyMarksSame(st, key);
    } else {
      var k := |targets| - 1;
      var mid := DeleteOwners(st, n, targets[..k], forced, outs, key, ts);
      DeleteOwnersMarks(st, n, targets[..k], forced, outs, key, ts);
      DeleteOwnerEffect(mid, n, targets[k], key, ts, targets[k] in forced, outs(k));
      OnlyMarksTransitive(st, mid, DeleteOwner(mid, n, targets[k], key, ts, targets[k] in forced, outs(k)), key);
    }
  }

  lemma OneMoreOwner(st: Stores, n: NodeName, targets: seq<NodeName>, forced: seq<NodeName>, outs: nat -> DeleteOutcome,
                     key: Key, ts: nat, k: nat)
    requires |targets| == k + 1 && OwnersDead(st, n, targets[..k], forced, outs, key, ts, k)
    requires Written(st, n, targets[k], key, targets[k] in forced, outs(k)) ==> AlienDead(st, n, targets[k], key, ts)
    ensures OwnersDead(st, n, targets, forced, outs, key, ts, k + 1)
  {
    forall i: nat | i < k + 1 && Written(st, n, targets[i], key, targets[i] in forced, outs(i))
      ensures AlienDead(st, n, targets[i], key, ts)
    {
      if i < k {
        assert targets[..k][i] == targets[i];
      }
    }
  }

  lemma {:induction false} DeleteOwnersDead(st: Stores, n: NodeName, targets: seq<NodeName>, forced: seq<NodeName>,
                                            outs: nat -> DeleteOutcome, key: Key, ts: nat)
    requires n in st
    ensures OwnersDead(DeleteOwners(st, n, targets, forced, outs, key, ts), n, targets, forced, outs, key, ts,
                       |targets|)
  {
    if targets != [] {
      var k := |targets| - 1;
      var mid := DeleteOwners(st, n, targets[..k], forced, outs, key, ts);
      var st' := DeleteOwner(mid, n, targets[k], key, ts, targets[k] in forced, outs(k));
      DeleteOwnersDead(st, n, targets[..k], forced, outs, key, ts);
      DeleteOwnerEffect(mid, n, targets[k], key, ts, targets[k] in forced, outs(k));
      OwnersStayDead(mid, st', n, targets[..k], forced, outs, key, ts, k);
      OneMoreOwner(st', n, targets, forced, outs, key, ts, k);
    }
  }

  /** Every one of the forced names has a tombstone at least as new in the node's alien store. */
  ghost predicate ForcedDead(st: Stores, n: NodeName, targets: seq<NodeName>, forced: seq<NodeName>, key: Key,
                             ts: nat) {
    forall t | t in targets && t in forced :: AlienDead(st, n, t, key, ts)
  }

  /**
   `Backend::delete` on the alien stores: the groups of all target names are tried, those named in
   the options with force, and one failure makes the answer an error.
   */
  method DeleteAliens(st: Stores, n: NodeName, targets: seq<NodeName>, forced: seq<NodeName>,
                      outs: nat -> DeleteOutcome, key: Key, ts: nat)
    returns (st': Stores, ok: bool)
    requires n in st
    ensures st' == DeleteOwners(st, n, targets, forced, outs, key, ts) && OnlyMarks(st, st', key)
    ensures ok == AllConfirm(outs, |targets|) && OwnersDead(st', n, targets, forced, outs, key, ts, |targets|)
    ensures ok ==> ForcedDead(st', n, targets, forced, key, ts)
  {
    st', ok := st, true;
    for i := 0 to |targets|
      invariant st' == DeleteOwners(st, n, targets[..i], forced, outs, key, ts) && ok == AllConfirm(outs, i)
    {
      assert targets[..i + 1][..i] == targets[..i];
      st' := DeleteOwner(st', n, targets[i], key, ts, targets[i] in forced, outs(i));
      ok := ok && outs(i).confirmed;
    }
    assert targets[..|targets|] == targets;
    DeleteOwnersMarks(st, n, targets, forced, outs, key, ts);
    DeleteOwnersDead(st, n, targets, forced, outs, key, ts);
    if ok {
      AllOwnersDead(st', n, targets, forced, outs, key, ts);
    }
  }
}
