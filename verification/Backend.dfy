/** One node's backend: writes to all its replica disks, and existence checks grouped by store. */
module Backend {
  import opened Types
  import opened Topology
  import opened Stores

  /** The loop of `Backend::put` over the node's paths; its answer and effect are those the protocol uses. */
  method Put(st: Stores, n: NodeName, paths: seq<DiskName>, outs: seq<PathOutcome>, key: Key, data: BobData)
    returns (st': Stores, ok: bool)
    requires n in st && |outs| == |paths|
    ensures st' == BackendPut(st, n, paths, outs, key, data)
    ensures ok <==> AllStored(outs)
    ensures Grows(st, st') && OnlyAbout(st, st', n, key) && PathsHeld(st', n, paths, outs, key, data.ts)
    ensures ok ==> forall d | d in paths :: Held(st', n, d, key, data.ts)
  {
    st', ok := st, true;
    assert paths[0..] == paths && outs[0..] == outs;
    for i := 0 to |paths|
      invariant n in st' && BackendPut(st', n, paths[i..], outs[i..], key, data)
                  == BackendPut(st, n, paths, outs, key, data)
      invariant ok <==> Failure !in outs[..i]
    {
      assert paths[i..][1..] == paths[i + 1..] && outs[i..][1..] == outs[i + 1..];
      assert outs[..i + 1] == outs[..i] + [outs[i]];
      if outs[i] == Failure {
        ok := false;
      }
      st' := WritePath(st', n, paths[i], key, data, outs[i]);
    }
    assert outs[..|paths|] == outs;
    BackendPutEffect(st, n, paths, outs, key, data);
    BackendPutAbout(st, n, paths, outs, key, data);
    assert outs[..|outs|] == outs;
    if ok {
      ConfirmedIsHeld(st', n, paths, outs, key, data.ts);
    }
  }

  /** A store a check is sent to: a disk of a vdisk, or the alien groups of a vdisk. */
  datatype Operation = Local(vdisk: nat, disk: DiskName) | Alien(vdisk: nat)

  function FindOperations(m: Mapper, local: NodeName, key: Key, normal: bool, alien: bool): seq<Operation>
    requires VDiskId(key, |m.vdisks|) in m.vdisks
  {
    var id := VDiskId(key, |m.vdisks|);
    var paths := Paths(m.ReplicasFor(key), local);
    (if normal then seq(|paths|, i requires 0 <= i < |paths| => Local(id, paths[i])) else [])
    + (if alien then [Alien(id)] else [])
  }

  /** A batch existence request to node `local`, for its disks, its alien stores, or both. */
  datatype Request = Request(m: Mapper, local: NodeName, keys: seq<Key>, normal: bool, alien: bool) {
    function Operations(i: nat): seq<Operation>
      requires i < |keys| && VDiskId(keys[i], |m.vdisks|) in m.vdisks
    {
      FindOperations(m, local, keys[i], normal, alien)
    }

    ghost predicate Routable() {
      forall k | k in keys :: VDiskId(k, |m.vdisks|) in m.vdisks
    }
  }

  datatype Batch = Batch(keys: seq<Key>, indexes: seq<nat>)

  /** Key `j` asks for `op`, counting all keys below `i` and the first `k` operations of key `i`. */
  ghost predicate Asks(q: Request, i: nat, k: nat, j: nat, op: Operation)
    requires q.Routable()
  {
    || (j < i && j < |q.keys| && op in q.Operations(j))
    || (j == i && i < |q.keys| && k <= |q.Operations(i)| && op in q.Operations(i)[..k])
  }

  /** Each batch lists, in step, exactly the keys and positions that ask for its operation. */
  ghost predicate Batched(q: Request, groups: map<Operation, Batch>, i: nat, k: nat)
    requires q.Routable()
  {
    && (forall op | op in groups :: InStep(q.keys, groups[op]))
    && (forall op, j: nat :: Listed(groups, op, j) <==> Asks(q, i, k, j, op))
  }

  ghost predicate Listed(groups: map<Operation, Batch>, op: Operation, j: nat) {
    op in groups && j in groups[op].indexes
  }

  ghost predicate InStep(keys: seq<Key>, b: Batch) {
    && |b.keys| == |b.indexes|
    && forall j | 0 <= j < |b.indexes| :: b.indexes[j] < |keys| && b.keys[j] == keys[b.indexes[j]]
  }

  function AddToBatch(groups: map<Operation, Batch>, op: Operation, key: Key, i: nat): map<Operation, Batch> {
    var b := if op in groups then groups[op] else Batch([], []);
    groups[op := Batch(b.keys + [key], b.indexes + [i])]
  }

  /** One more operation of key `i` goes to its batch. */
  lemma BatchedAdd(q: Request, groups: map<Operation, Batch>, i: nat, k: nat)
    requires q.Routable() && i < |q.keys| && k < |q.Operations(i)| && Batched(q, groups, i, k)
    ensures Batched(q, AddToBatch(groups, q.Operations(i)[k], q.keys[i], i), i, k + 1)
  {
    var ops := q.Operations(i);
    var op := ops[k];
    var groups' := AddToBatch(groups, op, q.keys[i], i);
    var b := if op in groups then groups[op] else Batch([], []);
    assert ops[..k + 1] == ops[..k] + [op];
    forall o, j: nat ensures Listed(groups', o, j) <==> Asks(q, i, k + 1, j, o) {
      assert Listed(groups, o, j) <==> Asks(q, i, k, j, o);
      assert o in ops[..k + 1] <==> o in ops[..k] || o == op;
      assert o == op ==> (j in groups'[op].indexes <==> j in b.indexes || j == i);
    }
  }

  lemma BatchedNextKey(q: Request, groups: map<Operation, Batch>, i: nat)
    requires q.Routable() && i < |q.keys| && Batched(q, groups, i, |q.Operations(i)|)
    ensures Batched(q, groups, i + 1, 0)
  {
    var ops := q.Operations(i);
    assert ops[..|ops|] == ops;
    forall op, j: nat ensures Listed(groups, op, j) <==> Asks(q, i + 1, 0, j, op) {
      assert Listed(groups, op, j) <==> Asks(q, i, |ops|, j, op);
    }
  }

  /** `group_keys_by_operations`. */
  method GroupKeysByOperations(q: Request) returns (groups: map<Operation, Batch>)
    requires q.Routable()
    ensures Batched(q, groups, |q.keys|, 0)
  {
    groups := map[];
    for i := 0 to |q.keys|
      invariant Batched(q, groups, i, 0)
    {
      var ops := q.Operations(i);
      for k := 0 to |ops|
        invariant Batched(q, groups, i, k)
      {
        BatchedAdd(q, groups, i, k);
        groups := AddToBatch(groups, ops[k], q.keys[i], i);
      }
      BatchedNextKey(q, groups, i);
    }
  }

  /** `Backend::exist`: key by key, the disjunction over the key's own stores that answer. */
  method Exist(q: Request, holds: (Operation, Key) -> bool, answers: Operation -> bool) returns (exist: array<bool>)
    requires q.Routable()
    ensures fresh(exist) && exist.Length == |q.keys|
    ensures forall i | 0 <= i < |q.keys| ::
              exist[i] <==> exists op | op in q.Operations(i) :: answers(op) && holds(op, q.keys[i])
  {
    exist := new bool[|q.keys|](_ => false);
    var groups := GroupKeysByOperations(q);
    var left := groups.Keys;
    while left != {}
      invariant left <= groups.Keys
      invariant forall i | 0 <= i < |q.keys| ::
                  exist[i] <==> exists op | op in groups ::
                    op !in left && i in groups[op].indexes && answers(op) && holds(op, q.keys[i])
      decreases left
    {
      var op :| op in left;
      left := left - {op};
      if answers(op) {
        MergeBatch(exist, q.keys, groups[op], k => holds(op, k));
      }
    }
    forall i, op | 0 <= i < |q.keys| ensures op in q.Operations(i) <==> op in groups && i in groups[op].indexes {
      assert Listed(groups, op, i) <==> Asks(q, |q.keys|, 0, i, op);
    }
  }

  /** ORs the answers for a batch into the positions it stands for. */
  method MergeBatch(exist: array<bool>, keys: seq<Key>, b: Batch, holds: Key -> bool)
    requires exist.Length == |keys| && InStep(keys, b)
    modifies exist
    ensures forall i | 0 <= i < |keys| :: exist[i] == (old(exist[i]) || (i in b.indexes && holds(keys[i])))
  {
    for j := 0 to |b.indexes|
      invariant forall i | 0 <= i < |keys| :: exist[i] == (old(exist[i]) || (i in b.indexes[..j] && holds(keys[i])))
    {
      assert b.indexes[..j + 1] == b.indexes[..j] + [b.indexes[j]];
      exist[b.indexes[j]] := exist[b.indexes[j]] || holds(b.keys[j]);
    }
    assert b.indexes[..|b.indexes|] == b.indexes;
  }
}
