/** A delete changes the stores by tombstone actions of the cluster's runs only, so runs may contain deletes. */
module DeleteSteps {
  import opened Types
  import opened Topology
  import opened Stores
  import opened Tombstones
  import opened PutProtocol
  import opened PutInvariant

  /** The action writes a tombstone for the key at the given time. */
  predicate Deletes(a: Action, key: Key, ts: nat) {
    (a.DiskTombstone? || a.AlienTombstone?) && a.key == key && a.ts == ts
  }

  function AfterTombstone(st: Stores, a: Action): (st': Stores)
    ensures st'.Keys == st.Keys
  {
    if a.DiskTombstone? && a.n in st then KillDisk(st, a.n, a.disk, a.key, a.ts)
    else if a.AlienTombstone? && a.n in st then KillAlien(st, a.n, a.owner, a.key, a.ts)
    else st
  }

  function AfterTombstones(st: Stores, actions: seq<Action>): (st': Stores)
    ensures st'.Keys == st.Keys
  {
    if actions == [] then st
    else AfterTombstone(AfterTombstones(st, actions[..|actions| - 1]), actions[|actions| - 1])
  }

  /** The stores change by some tombstones for the key at the given time, one after the other. */
  ghost predicate ByTombstones(st: Stores, st': Stores, key: Key, ts: nat) {
    exists actions :: TombstonesOf(actions, key, ts) && AfterTombstones(st, actions) == st'
  }

  predicate TombstonesOf(actions: seq<Action>, key: Key, ts: nat) {
    forall a | a in actions :: Deletes(a, key, ts)
  }

  lemma NoTombstone(st: Stores, key: Key, ts: nat)
    ensures ByTombstones(st, st, key, ts)
  {
    assert TombstonesOf([], key, ts) && AfterTombstones(st, []) == st;
  }

  /** One more tombstone, or none. */
  lemma OneTombstone(st: Stores, mid: Stores, a: Action, st': Stores, key: Key, ts: nat)
    requires ByTombstones(st, mid, key, ts) && Deletes(a, key, ts)
    requires st' == AfterTombstone(mid, a) || st' == mid
    ensures ByTombstones(st, st', key, ts)
  {
    if st' != mid {
      var actions :| TombstonesOf(actions, key, ts) && AfterTombstones(st, actions) == mid;
      var more := actions + [a];
      assert more[..|more| - 1] == actions && AfterTombstones(st, more) == st';
      assert TombstonesOf(more, key, ts);
    }
  }

  lemma {:induction false} AfterConcat(st: Stores, xs: seq<Action>, ys: seq<Action>)
    ensures AfterTombstones(st, xs + ys) == AfterTombstones(AfterTombstones(st, xs), ys)
  {
    if ys == [] {
      assert xs + ys == xs;
    } else {
      var init, y := ys[..|ys| - 1], ys[|ys| - 1];
      AfterConcat(st, xs, init);
      assert (xs + ys)[..|xs + ys| - 1] == xs + init && (xs + ys)[|xs + ys| - 1] == y;
    }
  }

  lemma TombstonesChain(a: Stores, b: Stores, c: Stores, key: Key, ts: nat)
    requires ByTombstones(a, b, key, ts) && ByTombstones(b, c, key, ts)
    ensures ByTombstones(a, c, key, ts)
  {
    var xs :| TombstonesOf(xs, key, ts) && AfterTombstones(a, xs) == b;
    var ys :| TombstonesOf(ys, key, ts) && AfterTombstones(b, ys) == c;
    AfterConcat(a, xs, ys);
    assert TombstonesOf(xs + ys, key, ts);
  }

  lemma {:induction false} DeletePathsSteps(st: Stores, n: NodeName, paths: seq<DiskName>, outs: nat -> DeleteOutcome,
                                            key: Key, ts: nat)
    requires n in st
    ensures ByTombstones(st, DeletePaths(st, n, paths, outs, key, ts), key, ts)
  {
    if paths == [] {
      NoTombstone(st, key, ts);
    } else {
      var k := |paths| - 1;
      var mid := DeletePaths(st, n, paths[..k], outs, key, ts);
      DeletePathsSteps(st, n, paths[..k], outs, key, ts);
      var st' := DeletePath(mid, n, paths[k], key, ts, outs(k));
      OneTombstone(st, mid, DiskTombstone(n, paths[k], key, ts), st', key, ts);
    }
  }

  lemma DeleteOwnerStep(st: Stores, mid: Stores, n: NodeName, owner: NodeName, key: Key, ts: nat, forced: bool,
                        out: DeleteOutcome)
    requires n in mid && ByTombstones(st, mid, key, ts)
    ensures ByTombstones(st, DeleteOwner(mid, n, owner, key, ts, forced, out), key, ts)
  {
    OneTombstone(st, mid, AlienTombstone(n, owner, key, ts), DeleteOwner(mid, n, owner, key, ts, forced, out), key, ts);
  }

  lemma {:induction false} DeleteOwnersSteps(st: Stores, n: NodeName, targets: seq<NodeName>, forced: seq<NodeName>,
                                             outs: nat -> DeleteOutcome, key: Key, ts: nat)
    requires n in st
    ensures ByTombstones(st, DeleteOwners(st, n, targets, forced, outs, key, ts), key, ts)
  {
    if targets == [] {
      NoTombstone(st, key, ts);
    } else {
      var k := |targets| - 1;
      var mid := DeleteOwners(st, n, targets[..k], forced, outs, key, ts);
      DeleteOwnersSteps(st, n, targets[..k], forced, outs, key, ts);
      DeleteOwnerStep(st, mid, n, targets[k], key, ts, targets[k] in forced, outs(k));
    }
  }

  // ---- in a run ----

  lemma TombstoneApplied(m: Mapper, quorum: nat, s: State, a: Action, key: Key, ts: nat)
    requires m.Valid(quorum) && WellFormed(m, s) && Deletes(a, key, ts)
    ensures Apply(m, quorum, s, a) == s.(stores := AfterTombstone(s.stores, a))
  {
  }

  lemma OneMoreApplied(m: Mapper, quorum: nat, s: State, mid: State, init: seq<Action>, a: Action, more: seq<Action>,
                       key: Key, ts: nat)
    requires m.Valid(quorum) && WellFormed(m, mid) && Deletes(a, key, ts)
    requires mid == s.(stores := AfterTombstones(s.stores, init))
    requires more != [] && more[..|more| - 1] == init && more[|more| - 1] == a
    ensures Apply(m, quorum, mid, a) == s.(stores := AfterTombstones(s.stores, more))
  {
    TombstoneApplied(m, quorum, mid, a, key, ts);
  }

  lemma {:induction false} TombstonesRun(m: Mapper, quorum: nat, st: Stores, actions: seq<Action>, more: seq<Action>,
                                         key: Key, ts: nat)
    requires m.Valid(quorum) && st.Keys == Elems(m.nodes) && TombstonesOf(more, key, ts)
    ensures var s := Run(m, quorum, st, actions);
            Run(m, quorum, st, actions + more) == s.(stores := AfterTombstones(s.stores, more))
  {
    if more == [] {
      assert actions + more == actions;
    } else {
      var init, a := more[..|more| - 1], more[|more| - 1];
      assert a in more && forall x | x in init :: x in more;
      TombstonesRun(m, quorum, st, actions, init, key, ts);
      AppendLast(actions, init, a, more);
      RunSnoc(m, quorum, st, actions + init, a);
      OneMoreApplied(m, quorum, Run(m, quorum, st, actions), Run(m, quorum, st, actions + init), init, a, more,
                     key, ts);
    }
  }

  lemma AppendLast<T>(a: seq<T>, init: seq<T>, x: T, more: seq<T>)
    requires more != [] && more[..|more| - 1] == init && more[|more| - 1] == x
    ensures a + more == (a + init) + [x]
  {
  }

  /** Stores that a delete leaves behind in a run are those of a longer run, whose further actions only delete. */
  lemma DeleteExtendsRun(m: Mapper, quorum: nat, st: Stores, actions: seq<Action>, s: State, st': Stores,
                         key: Key, ts: nat)
    returns (more: seq<Action>)
    requires m.Valid(quorum) && st.Keys == Elems(m.nodes) && s == Run(m, quorum, st, actions)
    requires ByTombstones(s.stores, st', key, ts)
    ensures TombstonesOf(more, key, ts) && Run(m, quorum, st, actions + more) == s.(stores := st')
  {
    more :| TombstonesOf(more, key, ts) && AfterTombstones(s.stores, more) == st';
    TombstonesRun(m, quorum, st, actions, more, key, ts);
  }
}
