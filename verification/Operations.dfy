/** Loops shared by the cluster operations. Completion order is the scheduler's: any remaining handle may be next. */
module Operations {
  import opened Types
  import opened Topology

  /** Every handle is still running, among the confirmed nodes, or among the failed ones, and only once. */
  ghost predicate Partition(handles: set<NodeName>, running: set<NodeName>, oks: seq<NodeName>, errors: seq<NodeName>) {
    && running + Elems(oks) + Elems(errors) == handles
    && running !! Elems(oks) && running !! Elems(errors) && Elems(oks) !! Elems(errors)
    && NoDup(oks) && NoDup(errors)
  }

  lemma PartitionTake(handles: set<NodeName>, running: set<NodeName>, oks: seq<NodeName>, errors: seq<NodeName>,
                      n: NodeName)
    requires Partition(handles, running, oks, errors) && n in running
    ensures Partition(handles, running - {n}, oks + [n], errors)
    ensures Partition(handles, running - {n}, oks, errors + [n])
  {
    NoDupAppend(oks, n);
    NoDupAppend(errors, n);
  }

  /** The accounts of `finish_at_least_handles` between two taken tasks. */
  ghost predicate Accounts(rs: seq<Replica>, handles: set<NodeName>, answer: NodeName -> bool, atLeast: nat,
                           running: set<NodeName>, oks: seq<NodeName>, errors: seq<NodeName>, okCount: nat) {
    && Partition(handles, running, oks, errors)
    && (forall n | n in oks :: answer(n))
    && (forall n | n in errors :: !answer(n))
    && okCount == CountIn(rs, Elems(oks))
    && (oks != [] ==> CountIn(rs, Elems(oks[..|oks| - 1])) < atLeast)
  }

  lemma TakeSuccess(rs: seq<Replica>, handles: set<NodeName>, answer: NodeName -> bool, atLeast: nat,
                    running: set<NodeName>, oks: seq<NodeName>, errors: seq<NodeName>, okCount: nat, n: NodeName)
    requires Accounts(rs, handles, answer, atLeast, running, oks, errors, okCount)
    requires okCount < atLeast && n in running && answer(n)
    ensures Accounts(rs, handles, answer, atLeast, running - {n}, oks + [n], errors, okCount + CountIn(rs, {n}))
  {
    PartitionTake(handles, running, oks, errors, n);
    CountInDisjoint(rs, Elems(oks), {n});
    assert forall x :: x in oks + [n] <==> x in oks || x == n;
    assert Elems(oks + [n]) == Elems(oks) + {n};
    assert (oks + [n])[..|oks + [n]| - 1] == oks;
  }

  lemma TakeFailure(rs: seq<Replica>, handles: set<NodeName>, answer: NodeName -> bool, atLeast: nat,
                    running: set<NodeName>, oks: seq<NodeName>, errors: seq<NodeName>, okCount: nat, n: NodeName)
    requires Accounts(rs, handles, answer, atLeast, running, oks, errors, okCount) && n in running && !answer(n)
    ensures Accounts(rs, handles, answer, atLeast, running - {n}, oks, errors + [n], okCount)
  {
    PartitionTake(handles, running, oks, errors, n);
    assert forall x :: x in errors + [n] <==> x in errors || x == n;
  }

  /**
   `finish_at_least_handles`: takes finished put tasks until enough replicas are confirmed, and not
   one task more. The count is the number of replicas on the confirmed nodes, tasks are left running
   only if the goal was reached, and a missed goal means a failed node or too few replicas.
   */
  method FinishAtLeastHandles(rs: seq<Replica>, handles: set<NodeName>, answer: NodeName -> bool, atLeast: nat)
    returns (running: set<NodeName>, oks: seq<NodeName>, errors: seq<NodeName>, okCount: nat)
    ensures Accounts(rs, handles, answer, atLeast, running, oks, errors, okCount)
    ensures running != {} ==> okCount >= atLeast
    ensures okCount < atLeast ==> errors != [] || CountIn(rs, handles) < atLeast
  {
    running, oks, errors, okCount := handles, [], [], 0;
    CountInNone(rs);
    assert Elems(oks) == {};
    while okCount < atLeast && running != {}
      invariant Accounts(rs, handles, answer, atLeast, running, oks, errors, okCount)
      decreases running
    {
      var n :| n in running;
      if answer(n) {
        TakeSuccess(rs, handles, answer, atLeast, running, oks, errors, okCount, n);
        oks := oks + [n];
        okCount := okCount + CountIn(rs, {n});
      } else {
        TakeFailure(rs, handles, answer, atLeast, running, oks, errors, okCount, n);
        errors := errors + [n];
      }
      running := running - {n};
    }
    if okCount < atLeast && errors == [] {
      assert Elems(oks) == handles;
    }
  }

  /** `HashSet::drain`, in whatever order the hash gives. */
  method Drain<T(==)>(s: set<T>) returns (r: seq<T>)
    ensures NoDup(r) && Elems(r) == s
  {
    r := [];
    var left := s;
    while left != {}
      invariant NoDup(r) && Elems(r) + left == s && Elems(r) !! left
      decreases left
    {
      var x :| x in left;
      left := left - {x};
      NoDupAppend(r, x);
      r := r + [x];
    }
  }

  /** `drain_collect`: moves as many members as asked for, or all, into a vector; the others stay. */
  method DrainCollect<T(==)>(s: set<T>, count: nat) returns (taken: seq<T>, rest: set<T>)
    ensures NoDup(taken) && Elems(taken) !! rest && Elems(taken) + rest == s
    ensures |taken| == if count <= |s| then count else |s|
  {
    if count >= |s| {
      taken := Drain(s);
      NoDupCardinality(taken);
      return taken, {};
    }
    if count == 0 {
      return [], s;
    }
    var all := Drain(s);
    NoDupCardinality(all);
    taken := all[..count];
    rest := set x | x in all[count..];
    assert all == taken + all[count..];
  }
}
