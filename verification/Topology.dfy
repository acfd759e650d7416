/**
 The mapper: which disks of which nodes hold the replicas of a key.
 A key is sent to a virtual disk, and a virtual disk lists (node, disk) replicas;
 one node may appear there several times.
 */
module Topology {
  import opened Types
  import opened Arith

  datatype Replica = Replica(node: NodeName, disk: DiskName)

  datatype VDisk = VDisk(id: nat, replicas: seq<Replica>)

  datatype Mapper = Mapper(nodes: seq<NodeName>, vdisks: map<nat, VDisk>) {

    /** What a validated cluster config and a checked node config promise. */
    ghost predicate Valid(quorum: nat) {
      && NoDup(nodes)
      && 0 < |vdisks|
      && (forall i :: i in vdisks <==> 0 <= i < |vdisks|)
      && 0 < quorum
      && forall i | i in vdisks ::
           && quorum <= |vdisks[i].replicas|
           && forall r | r in vdisks[i].replicas :: r.node in nodes
    }

    function ReplicasFor(key: Key): seq<Replica>
      requires VDiskId(key, |vdisks|) in vdisks
    {
      vdisks[VDiskId(key, |vdisks|)].replicas
    }

    /** Nodes that hold a replica of the key, in the order of the cluster config. */
    function Targets(key: Key): seq<NodeName>
      requires VDiskId(key, |vdisks|) in vdisks
    {
      NodesWith(nodes, ReplicasFor(key))
    }
  }

  function VDiskId(key: Key, count: nat): nat {
    if count == 0 then 0 else LittleEndian(key) % count
  }

  predicate OnNode(rs: seq<Replica>, node: NodeName) {
    exists r | r in rs :: r.node == node
  }

  function NodesWith(nodes: seq<NodeName>, rs: seq<Replica>): seq<NodeName> {
    if nodes == [] then []
    else NodesWith(nodes[..|nodes| - 1], rs)
         + (if OnNode(rs, nodes[|nodes| - 1]) then [nodes[|nodes| - 1]] else [])
  }

  /** Disks of one node among the replicas, in replica order. */
  function Paths(rs: seq<Replica>, node: NodeName): seq<DiskName> {
    if rs == [] then []
    else Paths(rs[..|rs| - 1], node)
         + (if rs[|rs| - 1].node == node then [rs[|rs| - 1].disk] else [])
  }

  /** Number of replicas held by a set of nodes. */
  function CountIn(rs: seq<Replica>, ns: set<NodeName>): nat {
    if rs == [] then 0
    else CountIn(rs[..|rs| - 1], ns) + (if rs[|rs| - 1].node in ns then 1 else 0)
  }

  lemma {:induction false} CountInDisjoint(rs: seq<Replica>, a: set<NodeName>, b: set<NodeName>)
    requires a !! b
    ensures CountIn(rs, a + b) == CountIn(rs, a) + CountIn(rs, b)
  {
    if rs != [] {
      CountInDisjoint(rs[..|rs| - 1], a, b);
    }
  }

  lemma {:induction false} CountInMonotone(rs: seq<Replica>, a: set<NodeName>, b: set<NodeName>)
    requires a <= b
    ensures CountIn(rs, a) <= CountIn(rs, b)
  {
    if rs != [] {
      CountInMonotone(rs[..|rs| - 1], a, b);
    }
  }

  /** The replica counts of the nodes that appear in the list add up to the list. */
  lemma {:induction false} CountInAll(rs: seq<Replica>, ns: set<NodeName>)
    requires forall r | r in rs :: r.node in ns
    ensures CountIn(rs, ns) == |rs|
  {
    if rs != [] {
      CountInAll(rs[..|rs| - 1], ns);
    }
  }

  lemma {:induction false} CountInNone(rs: seq<Replica>)
    ensures CountIn(rs, {}) == 0
  {
    if rs != [] {
      CountInNone(rs[..|rs| - 1]);
    }
  }

  lemma {:induction false} PathsCount(rs: seq<Replica>, node: NodeName)
    ensures |Paths(rs, node)| == CountIn(rs, {node})
    ensures CountIn(rs, {node}) > 0 <==> OnNode(rs, node)
  {
    if rs != [] {
      PathsCount(rs[..|rs| - 1], node);
      assert forall r :: r in rs <==> r in rs[..|rs| - 1] || r == rs[|rs| - 1];
    }
  }

  lemma {:induction false} NodesWithProperties(nodes: seq<NodeName>, rs: seq<Replica>)
    ensures forall n :: n in NodesWith(nodes, rs) <==> n in nodes && OnNode(rs, n)
    ensures NoDup(nodes) ==> NoDup(NodesWith(nodes, rs))
    ensures |NodesWith(nodes, rs)| <= |nodes|
  {
    if nodes != [] {
      NodesWithProperties(nodes[..|nodes| - 1], rs);
      assert forall n :: n in nodes <==> n in nodes[..|nodes| - 1] || n == nodes[|nodes| - 1];
    }
  }

  /** Target nodes are distinct cluster nodes and their replica counts add up to the vdisk's replicas. */
  lemma TargetsConserveReplicas(m: Mapper, quorum: nat, key: Key)
    requires m.Valid(quorum)
    ensures VDiskId(key, |m.vdisks|) in m.vdisks
    ensures NoDup(m.Targets(key)) && Elems(m.Targets(key)) <= Elems(m.nodes)
    ensures forall n :: n in m.Targets(key) <==> CountIn(m.ReplicasFor(key), {n}) > 0
    ensures CountIn(m.ReplicasFor(key), Elems(m.Targets(key))) == |m.ReplicasFor(key)| >= quorum
  {
    var rs := m.ReplicasFor(key);
    NodesWithProperties(m.nodes, rs);
    forall n ensures n in m.Targets(key) <==> CountIn(rs, {n}) > 0 {
      PathsCount(rs, n);
    }
    CountInAll(rs, Elems(m.Targets(key)));
  }

  // ---- the loops of the mapper ----

  ghost predicate FoldInv(key: Key, i: nat, rem: nat, bmult: nat, len: nat)
    requires len > 0 && i <= |key|
  {
    && rem == LittleEndian(key[..i]) % len
    && bmult % len == Pow256(i) % len
    && (bmult < len || bmult == 1)
  }

  /** One byte of the residue fold; intermediate values stay within 256 * len. */
  lemma FoldStep(key: Key, i: nat, rem: nat, bmult: nat, len: nat)
    requires len > 0 && i < |key| && FoldInv(key, i, rem, bmult, len)
    ensures rem + bmult * key[i] < 256 * len && bmult * 256 <= 256 * len
    ensures FoldInv(key, i + 1, (rem + bmult * key[i]) % len, (bmult * 256) % len, len)
  {
    LittleEndianSnoc(key[..i], key[i]);
    assert key[..i + 1] == key[..i] + [key[i]];
    FoldArith(LittleEndian(key[..i]), Pow256(i), rem, bmult, key[i], len);
  }

  method GetVDiskIdByMod(key: Key, len: nat) returns (id: nat)
    requires len > 0
    ensures id == LittleEndian(key) % len == VDiskId(key, len)
  {
    var rem: nat, bmult: nat := 0, 1;
    for i := 0 to |key|
      invariant FoldInv(key, i, rem, bmult, len)
    {
      FoldStep(key, i, rem, bmult, len);
      rem, bmult := (rem + bmult * key[i]) % len, (bmult * 256) % len;
    }
    assert key[..|key|] == key;
    id := rem;
  }

  method GetOperation(m: Mapper, local: NodeName, key: Key) returns (disks: Option<seq<DiskName>>)
    requires VDiskId(key, |m.vdisks|) in m.vdisks
    ensures disks.Some? <==> OnNode(m.ReplicasFor(key), local)
    ensures disks.Some? ==> disks.value == Paths(m.ReplicasFor(key), local)
    ensures disks.Some? ==> |disks.value| == CountIn(m.ReplicasFor(key), {local})
  {
    var rs := m.ReplicasFor(key);
    disks := None;
    for i := 0 to |rs|
      invariant disks.None? <==> Paths(rs[..i], local) == []
      invariant disks.Some? ==> disks.value == Paths(rs[..i], local)
    {
      assert rs[..i + 1][..i] == rs[..i];
      if rs[i].node == local {
        if disks.None? {
          disks := Some([]);
        }
        disks := Some(disks.value + [rs[i].disk]);
      }
    }
    assert rs[..|rs|] == rs;
    PathsCount(rs, local);
  }

  method GetReplicasCountByNode(m: Mapper, key: Key) returns (counts: map<NodeName, nat>)
    requires VDiskId(key, |m.vdisks|) in m.vdisks
    ensures forall n :: n in counts <==> OnNode(m.ReplicasFor(key), n)
    ensures forall n | n in counts :: counts[n] == CountIn(m.ReplicasFor(key), {n}) > 0
  {
    var rs := m.ReplicasFor(key);
    counts := map[];
    for i := 0 to |rs|
      invariant forall n :: n in counts <==> CountIn(rs[..i], {n}) > 0
      invariant forall n | n in counts :: counts[n] == CountIn(rs[..i], {n})
    {
      assert rs[..i + 1][..i] == rs[..i];
      var n := rs[i].node;
      counts := counts[n := (if n in counts then counts[n] else 0) + 1];
    }
    assert rs[..|rs|] == rs;
    forall n ensures CountIn(rs, {n}) > 0 <==> OnNode(rs, n) {
      PathsCount(rs, n);
    }
  }

  method VDiskNodes(nodes: seq<NodeName>, rs: seq<Replica>) returns (targets: seq<NodeName>)
    ensures targets == NodesWith(nodes, rs)
    ensures forall n :: n in targets <==> n in nodes && OnNode(rs, n)
  {
    targets := [];
    for i := 0 to |nodes|
      invariant targets == NodesWith(nodes[..i], rs)
    {
      assert nodes[..i + 1][..i] == nodes[..i];
      if exists r | r in rs :: r.node == nodes[i] {
        targets := targets + [nodes[i]];
      }
    }
    assert nodes[..|nodes|] == nodes;
    NodesWithProperties(nodes, rs);
  }
}
