/** The cluster read: local disks, remote targets, local aliens, remote aliens, first answer wins. */
module ClusterGet {
  import opened Types
  import opened Topology
  import opened Stores

  /** The disk has a record of the key that no tombstone hides. */
  predicate Shows(st: Stores, n: NodeName, d: DiskName, key: Key) {
    n in st && (d, key) in st[n].disks && !Hidden(st[n].deadDisks, (d, key), st[n].disks[(d, key)].ts)
  }

  /** The record on the first of the node's replica disks that shows the key. */
  ghost predicate NormalRecord(st: Stores, rs: seq<Replica>, n: NodeName, key: Key, v: BobData) {
    exists i | 0 <= i < |Paths(rs, n)| ::
      && Shows(st, n, Paths(rs, n)[i], key) && st[n].disks[(Paths(rs, n)[i], key)] == v
      && forall j | 0 <= j < i :: !Shows(st, n, Paths(rs, n)[j], key)
  }

  ghost predicate NormalFinds(st: Stores, rs: seq<Replica>, n: NodeName, key: Key) {
    exists d | d in Paths(rs, n) :: Shows(st, n, d, key)
  }

  /** `get_alien` compares against 0 before the first hit, so a record stamped 0 is never returned. */
  ghost predicate AlienVisible(st: Stores, n: NodeName, owner: NodeName, key: Key) {
    AlienShows(st, n, owner, key) && st[n].aliens[(owner, key)].ts > 0
  }

  /** The alien group of the owner has a record of the key that no tombstone hides. */
  predicate AlienShows(st: Stores, n: NodeName, owner: NodeName, key: Key) {
    n in st && (owner, key) in st[n].aliens && !Hidden(st[n].deadAliens, (owner, key), st[n].aliens[(owner, key)].ts)
  }

  ghost predicate AlienFinds(st: Stores, n: NodeName, key: Key) {
    exists owner :: AlienVisible(st, n, owner, key)
  }

  /** The newest visible alien record of the key on a node. */
  ghost predicate AlienRecord(st: Stores, n: NodeName, key: Key, v: BobData) {
    && (exists owner :: AlienVisible(st, n, owner, key) && st[n].aliens[(owner, key)] == v)
    && forall owner | AlienVisible(st, n, owner, key) :: st[n].aliens[(owner, key)].ts <= v.ts
  }

  /** Nodes whose normal stores a read on `local` consults, given the nodes that answer. */
  ghost function NormalSources(m: Mapper, local: NodeName, key: Key, up: set<NodeName>): set<NodeName>
    requires VDiskId(key, |m.vdisks|) in m.vdisks
  {
    Elems(m.Targets(key)) * (up + {local})
  }

  ghost function AlienSources(m: Mapper, local: NodeName, up: set<NodeName>): set<NodeName> {
    Elems(m.nodes) * up + {local}
  }

  ghost predicate GetFinds(m: Mapper, st: Stores, local: NodeName, key: Key, up: set<NodeName>)
    requires VDiskId(key, |m.vdisks|) in m.vdisks
  {
    || (exists n | n in NormalSources(m, local, key, up) :: NormalFinds(st, m.ReplicasFor(key), n, key))
    || (exists n | n in AlienSources(m, local, up) :: AlienFinds(st, n, key))
  }

  /** A record of a target, or, only if no target shows the key, a newest visible alien record of some node. */
  ghost predicate MayReturn(m: Mapper, st: Stores, local: NodeName, key: Key, up: set<NodeName>, v: BobData)
    requires VDiskId(key, |m.vdisks|) in m.vdisks
  {
    || (exists n | n in NormalSources(m, local, key, up) :: NormalRecord(st, m.ReplicasFor(key), n, key, v))
    || (&& (forall n | n in NormalSources(m, local, key, up) :: !NormalFinds(st, m.ReplicasFor(key), n, key))
        && exists n | n in AlienSources(m, local, up) :: AlienRecord(st, n, key, v))
  }

  method ReadNormal(st: Stores, rs: seq<Replica>, n: NodeName, key: Key) returns (r: Option<BobData>)
    requires n in st
    ensures r.Some? <==> NormalFinds(st, rs, n, key)
    ensures r.Some? ==> NormalRecord(st, rs, n, key, r.value)
  {
    var paths := Paths(rs, n);
    for i := 0 to |paths|
      invariant forall j | 0 <= j < i :: !Shows(st, n, paths[j], key)
    {
      if Shows(st, n, paths[i], key) {
        return Some(st[n].disks[(paths[i], key)]);
      }
    }
    r := None;
  }

  method GetAlien(st: Stores, n: NodeName, key: Key) returns (r: Option<BobData>)
    requires n in st
    ensures r.Some? <==> AlienFinds(st, n, key)
    ensures r.Some? ==> AlienRecord(st, n, key, r.value)
  {
    var groups := st[n].aliens.Keys;
    r := None;
    ghost var seen: set<(NodeName, Key)> := {};
    while groups != {}
      invariant seen + groups == st[n].aliens.Keys
      invariant r.None? ==> forall g | g in seen && g.1 == key && AlienShows(st, n, g.0, key) :: st[n].aliens[g].ts == 0
      invariant r.Some? ==> forall g | g in seen && g.1 == key && AlienShows(st, n, g.0, key) ::
                  st[n].aliens[g].ts <= r.value.ts
      invariant r.Some? ==> exists g | g in seen ::
                  g.1 == key && AlienShows(st, n, g.0, key) && st[n].aliens[g] == r.value && r.value.ts > 0
      decreases groups
    {
      var g :| g in groups;
      groups := groups - {g};
      seen := seen + {g};
      assert g == (g.0, g.1);
      if g.1 == key && AlienShows(st, n, g.0, key) && st[n].aliens[g].ts > (if r.None? then 0 else r.value.ts) {
        r := Some(st[n].aliens[g]);
      }
    }
    if r.None? {
      forall owner ensures !AlienVisible(st, n, owner, key) {
        assert (owner, key) in st[n].aliens ==> (owner, key) in seen;
      }
    } else {
      ghost var g :| g in seen && g.1 == key && AlienShows(st, n, g.0, key) && st[n].aliens[g] == r.value;
      assert AlienVisible(st, n, g.0, key) && g == (g.0, key);
      forall owner | AlienVisible(st, n, owner, key) ensures st[n].aliens[(owner, key)].ts <= r.value.ts {
        assert (owner, key) in seen;
      }
    }
  }

  /** `get_any` over normal stores: requests finish in any order, the first success is taken. */
  method GetAnyNormal(st: Stores, rs: seq<Replica>, asked: set<NodeName>, key: Key) returns (r: Option<BobData>)
    requires asked <= st.Keys
    ensures r.Some? <==> exists n | n in asked :: NormalFinds(st, rs, n, key)
    ensures r.Some? ==> exists n | n in asked :: NormalRecord(st, rs, n, key, r.value)
  {
    var pending := asked;
    while pending != {}
      invariant pending <= asked
      invariant forall n | n in asked - pending :: !NormalFinds(st, rs, n, key)
      decreases pending
    {
      var n :| n in pending;
      pending := pending - {n};
      r := ReadNormal(st, rs, n, key);
      if r.Some? {
        return;
      }
    }
    r := None;
  }

  method GetAnyAlien(st: Stores, asked: set<NodeName>, key: Key) returns (r: Option<BobData>)
    requires asked <= st.Keys
    ensures r.Some? <==> exists n | n in asked :: AlienFinds(st, n, key)
    ensures r.Some? ==> exists n | n in asked :: AlienRecord(st, n, key, r.value)
  {
    var pending := asked;
    while pending != {}
      invariant pending <= asked
      invariant forall n | n in asked - pending :: !AlienFinds(st, n, key)
      decreases pending
    {
      var n :| n in pending;
      pending := pending - {n};
      r := GetAlien(st, n, key);
      if r.Some? {
        return;
      }
    }
    r := None;
  }

  /** The local disks first, then the remote targets. */
  method GetNormal(m: Mapper, st: Stores, local: NodeName, key: Key, up: set<NodeName>) returns (r: Option<BobData>)
    requires VDiskId(key, |m.vdisks|) in m.vdisks
    requires st.Keys == Elems(m.nodes) && local in st
    ensures r.Some? <==> exists n | n in NormalSources(m, local, key, up) :: NormalFinds(st, m.ReplicasFor(key), n, key)
    ensures r.Some? ==>
              exists n | n in NormalSources(m, local, key, up) :: NormalRecord(st, m.ReplicasFor(key), n, key, r.value)
    ensures LocalTargetShows(m, st, local, key) ==> r.Some? && NormalRecord(st, m.ReplicasFor(key), local, key, r.value)
  {
    var rs, targets := m.ReplicasFor(key), m.Targets(key);
    NodesWithProperties(m.nodes, rs);
    var disks := GetOperation(m, local, key);
    if disks.Some? {
      assert local in targets;
      r := ReadNormal(st, rs, local, key);
      if r.Some? {
        assert local in NormalSources(m, local, key, up);
        return;
      }
    }
    var others := (set n | n in targets && n != local) * up;
    r := GetAnyNormal(st, rs, others, key);
    assert forall n :: n in NormalSources(m, local, key, up) <==> n in others || (n == local && local in targets);
  }

  /** The local node is a target and shows the key. */
  ghost predicate LocalTargetShows(m: Mapper, st: Stores, local: NodeName, key: Key)
    requires VDiskId(key, |m.vdisks|) in m.vdisks
  {
    local in m.Targets(key) && NormalFinds(st, m.ReplicasFor(key), local, key)
  }

  ghost predicate NoTargetShows(m: Mapper, st: Stores, local: NodeName, key: Key, up: set<NodeName>)
    requires VDiskId(key, |m.vdisks|) in m.vdisks
  {
    forall n | n in NormalSources(m, local, key, up) :: !NormalFinds(st, m.ReplicasFor(key), n, key)
  }

  /** The local alien groups first, then those of the other nodes. */
  method GetAliens(m: Mapper, st: Stores, local: NodeName, key: Key, up: set<NodeName>) returns (r: Option<BobData>)
    requires st.Keys == Elems(m.nodes) && local in st
    ensures r.Some? <==> exists n | n in AlienSources(m, local, up) :: AlienFinds(st, n, key)
    ensures r.Some? ==> exists n | n in AlienSources(m, local, up) :: AlienRecord(st, n, key, r.value)
    ensures AlienFinds(st, local, key) ==> r.Some? && AlienRecord(st, local, key, r.value)
  {
    r := GetAlien(st, local, key);
    if r.Some? {
      assert local in AlienSources(m, local, up);
      return;
    }
    var others := (set n | n in m.nodes && n != local) * up;
    r := GetAnyAlien(st, others, key);
    assert forall n :: n in AlienSources(m, local, up) <==> n in others || n == local;
  }

  /**
   `Quorum::get` on node `local` when exactly the nodes in `up` answer. It finds the key if and
   only if a consulted store shows it, and an alien copy is returned only when no normal copy is;
   of both kinds the local store comes first.
   */
  method Get(m: Mapper, st: Stores, local: NodeName, key: Key, up: set<NodeName>) returns (r: Option<BobData>)
    requires VDiskId(key, |m.vdisks|) in m.vdisks
    requires st.Keys == Elems(m.nodes) && local in st
    ensures r.Some? <==> GetFinds(m, st, local, key, up)
    ensures r.Some? ==> MayReturn(m, st, local, key, up, r.value)
    ensures LocalTargetShows(m, st, local, key) ==> r.Some? && NormalRecord(st, m.ReplicasFor(key), local, key, r.value)
    ensures NoTargetShows(m, st, local, key, up) && AlienFinds(st, local, key) ==>
              r.Some? && AlienRecord(st, local, key, r.value)
  {
    r := GetNormal(m, st, local, key, up);
    if r.None? {
      r := GetAliens(m, st, local, key, up);
    }
  }
}
