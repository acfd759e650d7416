/** Where the records come from that reads return: from the stores at the beginning or from a put of the key. */
module Provenance {
  import opened Types
  import opened Topology
  import opened Stores
  import opened PutProtocol
  import opened PutInvariant
  import opened ClusterGet
  import opened Durability

  ghost predicate FromPut(puts: seq<Put>, key: Key, data: BobData) {
    exists i | 0 <= i < |puts| :: puts[i].key == key && puts[i].data == data
  }

  /** Every record of the map was there before or was written by a put of its key. */
  ghost predicate MapTraced<K(!new)>(a: map<(K, Key), BobData>, puts: seq<Put>, b: map<(K, Key), BobData>) {
    forall k | k in b :: (k in a && a[k] == b[k]) || FromPut(puts, k.1, b[k])
  }

  ghost predicate Traced(st0: Stores, puts: seq<Put>, st: Stores) {
    && st.Keys == st0.Keys
    && forall n | n in st :: MapTraced(st0[n].disks, puts, st[n].disks) && MapTraced(st0[n].aliens, puts, st[n].aliens)
  }

  lemma WriteTraced<K(!new)>(a: map<(K, Key), BobData>, puts: seq<Put>, b: map<(K, Key), BobData>, k: K, key: Key,
                             data: BobData)
    requires MapTraced(a, puts, b) && FromPut(puts, key, data)
    ensures MapTraced(a, puts, Write(b, (k, key), data))
  {
  }

  lemma WriteNormalTraced(st0: Stores, puts: seq<Put>, st: Stores, n: NodeName, disk: DiskName, key: Key, data: BobData)
    requires Traced(st0, puts, st) && n in st && FromPut(puts, key, data)
    ensures Traced(st0, puts, WriteNormal(st, n, disk, key, data))
  {
    WriteTraced(st0[n].disks, puts, st[n].disks, disk, key, data);
  }

  lemma WriteAlienTraced(st0: Stores, puts: seq<Put>, st: Stores, n: NodeName, owner: NodeName, key: Key, data: BobData)
    requires Traced(st0, puts, st) && n in st && FromPut(puts, key, data)
    ensures Traced(st0, puts, WriteAlien(st, n, owner, key, data))
  {
    WriteTraced(st0[n].aliens, puts, st[n].aliens, owner, key, data);
  }

  lemma WritePathTraced(st0: Stores, puts: seq<Put>, st: Stores, n: NodeName, disk: DiskName, key: Key, data: BobData,
                        out: PathOutcome)
    requires Traced(st0, puts, st) && n in st && FromPut(puts, key, data)
    ensures Traced(st0, puts, WritePath(st, n, disk, key, data, out))
  {
    match out
    case Normal => WriteNormalTraced(st0, puts, st, n, disk, key, data);
    case Fallback(owner) => WriteAlienTraced(st0, puts, st, n, owner, key, data);
    case Failure =>
  }

  lemma {:induction false} BackendPutTraced(st0: Stores, puts: seq<Put>, st: Stores, n: NodeName, paths: seq<DiskName>,
                                            outs: seq<PathOutcome>, key: Key, data: BobData)
    requires Traced(st0, puts, st) && n in st && |outs| == |paths| && FromPut(puts, key, data)
    ensures Traced(st0, puts, BackendPut(st, n, paths, outs, key, data))
  {
    if paths != [] {
      WritePathTraced(st0, puts, st, n, paths[0], key, data, outs[0]);
      BackendPutTraced(st0, puts, WritePath(st, n, paths[0], key, data, outs[0]), n, paths[1..], outs[1..], key, data);
    }
  }

  lemma StepTraced(m: Mapper, quorum: nat, st0: Stores, puts: seq<Put>, st: Stores, p: Put, move: Move)
    requires VDiskId(p.key, |m.vdisks|) in m.vdisks && p.coord in st && st.Keys == Elems(m.nodes)
    requires p.stage.Aliens? ==> HandoffShape(m, p.stage.h)
    requires Traced(st0, puts, st) && FromPut(puts, p.key, p.data)
    ensures Traced(st0, puts, StepPut(m, quorum, st, p, move).0)
  {
    match move
    case RemoteApply(n, outs, answerLost) =>
      var paths := Paths(m.ReplicasFor(p.key), n);
      if n in st && |outs| == |paths| {
        BackendPutTraced(st0, puts, st, n, paths, outs, p.key, p.data);
      }
    case LocalWrite(out) =>
      if p.localRest != [] {
        WritePathTraced(st0, puts, st, p.coord, p.localRest[0], p.key, p.data, out);
      }
    case AskSupport(applied, confirmed) =>
      if p.stage.Aliens? && |p.stage.h.told| < |p.stage.h.owners| {
        WriteAlienTraced(st0, puts, st, p.stage.h.sup[|p.stage.h.told|], p.stage.h.owners[|p.stage.h.told|], p.key,
                         p.data);
      }
    case LocalAlien(ok) =>
      if p.stage.Aliens? && |p.stage.h.kept| < |p.stage.h.rest| {
        WriteAlienTraced(st0, puts, st, p.coord, p.stage.h.rest[|p.stage.h.kept|], p.key, p.data);
      }
    case _ =>
  }

  lemma MorePutsTraced(st0: Stores, puts: seq<Put>, puts': seq<Put>, st: Stores)
    requires Traced(st0, puts, st) && |puts| <= |puts'| && forall i | 0 <= i < |puts| :: SamePut(puts[i], puts'[i])
    ensures Traced(st0, puts', st)
  {
    forall key, data | FromPut(puts, key, data) ensures FromPut(puts', key, data) {
      var i :| 0 <= i < |puts| && puts[i].key == key && puts[i].data == data;
      assert SamePut(puts[i], puts'[i]);
    }
  }

  lemma OwnTraced(m: Mapper, quorum: nat, st0: Stores, puts: seq<Put>, st: Stores, i: nat, move: Move)
    requires m.Valid(quorum) && WellFormed(m, State(st, puts)) && Traced(st0, puts, st) && i < |puts|
    ensures puts[i].coord in st && Traced(st0, puts, StepPut(m, quorum, st, puts[i], move).0)
  {
    assert State(st, puts).puts[i] == puts[i];
    assert FromPut(puts, puts[i].key, puts[i].data);
    StepTraced(m, quorum, st0, puts, st, puts[i], move);
  }

  lemma ApplyTraced(m: Mapper, quorum: nat, st0: Stores, s: State, a: Action)
    requires m.Valid(quorum) && WellFormed(m, s) && Traced(st0, s.puts, s.stores)
    ensures Traced(st0, s.puts, Apply(m, quorum, s, a).stores)
  {
    match a
    case Start(coord, key, data) =>
    case Step(i, move) =>
      if i < |s.puts| {
        OwnTraced(m, quorum, st0, s.puts, s.stores, i, move);
      }
    case DiskTombstone(n, disk, key, ts) =>
      if n in s.stores {
        KillDiskTraced(st0, s.puts, s.stores, n, disk, key, ts);
      }
    case AlienTombstone(n, owner, key, ts) =>
      if n in s.stores {
        KillAlienTraced(st0, s.puts, s.stores, n, owner, key, ts);
      }
  }

  lemma KillDiskTraced(st0: Stores, puts: seq<Put>, st: Stores, n: NodeName, disk: DiskName, key: Key, ts: nat)
    requires Traced(st0, puts, st) && n in st
    ensures Traced(st0, puts, KillDisk(st, n, disk, key, ts))
  {
  }

  lemma KillAlienTraced(st0: Stores, puts: seq<Put>, st: Stores, n: NodeName, owner: NodeName, key: Key, ts: nat)
    requires Traced(st0, puts, st) && n in st
    ensures Traced(st0, puts, KillAlien(st, n, owner, key, ts))
  {
  }

  /** In every reachable state, every record was stored at the beginning or is the value of a put of its key. */
  lemma {:induction false} RunTraced(m: Mapper, quorum: nat, st: Stores, actions: seq<Action>)
    requires m.Valid(quorum) && st.Keys == Elems(m.nodes)
    ensures Traced(st, Run(m, quorum, st, actions).puts, Run(m, quorum, st, actions).stores)
  {
    if actions != [] {
      var s, a := Run(m, quorum, st, actions[..|actions| - 1]), actions[|actions| - 1];
      var s' := Run(m, quorum, st, actions);
      RunTraced(m, quorum, st, actions[..|actions| - 1]);
      ApplyExtends(m, quorum, s, a);
      ApplyTraced(m, quorum, st, s, a);
      MorePutsTraced(st, s.puts, s'.puts, s'.stores);
    }
  }

  ghost predicate InitialRecord(st: Stores, key: Key, v: BobData) {
    exists n | n in st ::
      || (exists d: DiskName :: (d, key) in st[n].disks && st[n].disks[(d, key)] == v)
      || (exists owner: NodeName :: (owner, key) in st[n].aliens && st[n].aliens[(owner, key)] == v)
  }

  /** What `get` returns was in the stores at the beginning or was put under this key. */
  lemma ReadIsTraced(m: Mapper, quorum: nat, st: Stores, actions: seq<Action>, s: State, local: NodeName, key: Key,
                     up: set<NodeName>, v: BobData)
    requires m.Valid(quorum) && st.Keys == Elems(m.nodes) && s == Run(m, quorum, st, actions)
    requires MayReturn(m, s.stores, local, key, up, v)
    ensures InitialRecord(st, key, v) || FromPut(s.puts, key, v)
  {
    RunTraced(m, quorum, st, actions);
    var rs := m.ReplicasFor(key);
    if n :| n in NormalSources(m, local, key, up) && NormalRecord(s.stores, rs, n, key, v) {
      var i :| 0 <= i < |Paths(rs, n)| && Shows(s.stores, n, Paths(rs, n)[i], key)
            && s.stores[n].disks[(Paths(rs, n)[i], key)] == v;
      assert MapTraced(st[n].disks, s.puts, s.stores[n].disks);
    } else {
      var n :| n in AlienSources(m, local, up) && AlienRecord(s.stores, n, key, v);
      var owner :| AlienVisible(s.stores, n, owner, key) && s.stores[n].aliens[(owner, key)] == v;
      assert MapTraced(st[n].aliens, s.puts, s.stores[n].aliens);
    }
  }

  /** All puts of the key carry one value. */
  ghost predicate OneValue(puts: seq<Put>, key: Key, data: BobData) {
    forall i | 0 <= i < |puts| && puts[i].key == key :: puts[i].data == data
  }

  /**
   A key that was absent at the beginning and is put with one value only: once a put of it is
   answered by quorum, `get` on any live node returns exactly that value, whatever happens later.
   */
  lemma AcknowledgedPutIsReadBack(m: Mapper, quorum: nat, st: Stores, actions: seq<Action>, more: seq<Action>, i: nat,
                                  p: Put, s: State, down: set<NodeName>, local: NodeName, v: BobData)
    requires m.Valid(quorum) && st.Keys == Elems(m.nodes) && s == Run(m, quorum, st, actions + more)
    requires i < |Run(m, quorum, st, actions).puts| && p == Run(m, quorum, st, actions).puts[i]
    requires p.reply.OkByQuorum? && p.data.ts > 0
    requires OlderTombstones(st, p.key, p.data.ts) && OlderDeletes(actions + more, p.key, p.data.ts)
    requires CountIn(m.ReplicasFor(p.key), down) < quorum && local in m.nodes && local !in down
    requires OneValue(s.puts, p.key, p.data) && forall x :: !InitialRecord(st, p.key, x)
    ensures GetFinds(m, s.stores, local, p.key, Elems(m.nodes) - down)
    ensures MayReturn(m, s.stores, local, p.key, Elems(m.nodes) - down, v) ==> v == p.data
  {
    AcknowledgedPutStaysReadable(m, quorum, st, actions, more, i, p.data.ts, down, local);
    if MayReturn(m, s.stores, local, p.key, Elems(m.nodes) - down, v) {
      ReadIsTraced(m, quorum, st, actions + more, s, local, p.key, Elems(m.nodes) - down, v);
    }
  }
}
