/** What a read sees after a delete was answered with Ok. */
module DeletedReads {
  import opened Types
  import opened Topology
  import opened Stores
  import opened Tombstones
  import opened ClusterGet
  import opened ClusterDelete
  import SupportNodes

  /** A target that did not confirm itself, so that its tombstone lies elsewhere, still shows the record. */
  ghost predicate LeftOnTarget(m: Mapper, st: Stores, coord: NodeName, key: Key, ts: nat, t: NodeName, v: BobData)
    requires VDiskId(key, |m.vdisks|) in m.vdisks
  {
    t in m.Targets(key) && !Erased(m, st, key, ts, t) && Buried(m, st, coord, key, ts, t)
    && NormalRecord(st, m.ReplicasFor(key), t, key, v)
  }

  /** An alien group without such a tombstone shows the record. */
  ghost predicate LeftInGroup(st: Stores, n: NodeName, owner: NodeName, key: Key, ts: nat, v: BobData) {
    AlienVisible(st, n, owner, key) && st[n].aliens[(owner, key)] == v && !AlienDead(st, n, owner, key, ts)
  }

  lemma ErasedShowsNewer(m: Mapper, st: Stores, key: Key, ts: nat, t: NodeName, v: BobData)
    requires VDiskId(key, |m.vdisks|) in m.vdisks
    requires Erased(m, st, key, ts, t) && NormalRecord(st, m.ReplicasFor(key), t, key, v)
    ensures v.ts > ts
  {
    var paths := Paths(m.ReplicasFor(key), t);
    var i :| 0 <= i < |paths| && Shows(st, t, paths[i], key) && st[t].disks[(paths[i], key)] == v;
    assert Dead(st, t, paths[i], key, ts);
  }

  /**
   After a delete answered with Ok, a record that is not newer is only returned from a target that did
   not confirm and has its tombstone in an alien store instead, or from an alien group without one.
   */
  lemma ReadAfterDelete(m: Mapper, st: Stores, coord: NodeName, key: Key, ts: nat,
                        local: NodeName, up: set<NodeName>, v: BobData)
    requires VDiskId(key, |m.vdisks|) in m.vdisks && Removed(m, st, coord, key, ts)
    requires MayReturn(m, st, local, key, up, v) && v.ts <= ts
    ensures || (exists t | t in NormalSources(m, local, key, up) :: LeftOnTarget(m, st, coord, key, ts, t, v))
            || (exists n, owner | n in AlienSources(m, local, up) :: LeftInGroup(st, n, owner, key, ts, v))
  {
    if t :| t in NormalSources(m, local, key, up) && NormalRecord(st, m.ReplicasFor(key), t, key, v) {
      if Erased(m, st, key, ts, t) {
        ErasedShowsNewer(m, st, key, ts, t, v);
      } else {
        assert LeftOnTarget(m, st, coord, key, ts, t, v);
      }
    } else {
      var n :| n in AlienSources(m, local, up) && AlienRecord(st, n, key, v);
      var owner :| AlienVisible(st, n, owner, key) && st[n].aliens[(owner, key)] == v;
      assert LeftInGroup(st, n, owner, key, ts, v);
    }
  }

  /** Every consulted target confirmed, and every consulted alien group that has the key has a tombstone. */
  ghost predicate Clean(m: Mapper, st: Stores, key: Key, ts: nat, local: NodeName, up: set<NodeName>)
    requires VDiskId(key, |m.vdisks|) in m.vdisks
  {
    && (forall t | t in NormalSources(m, local, key, up) :: Erased(m, st, key, ts, t))
    && (forall n, owner | n in AlienSources(m, local, up) && AlienShows(st, n, owner, key) ::
         AlienDead(st, n, owner, key, ts))
  }

  /** Then only records newer than the delete are read, if any. */
  lemma CleanReadsNewer(m: Mapper, st: Stores, key: Key, ts: nat, local: NodeName, up: set<NodeName>, v: BobData)
    requires VDiskId(key, |m.vdisks|) in m.vdisks && Clean(m, st, key, ts, local, up)
    requires MayReturn(m, st, local, key, up, v)
    ensures v.ts > ts
  {
    if t :| t in NormalSources(m, local, key, up) && NormalRecord(st, m.ReplicasFor(key), t, key, v) {
      ErasedShowsNewer(m, st, key, ts, t, v);
    } else {
      var n :| n in AlienSources(m, local, up) && AlienRecord(st, n, key, v);
      var owner :| AlienVisible(st, n, owner, key) && st[n].aliens[(owner, key)] == v;
      assert AlienDead(st, n, owner, key, ts);
    }
  }

  // ---- a delete that reaches every store ----

  /** All targets confirm; every request to the alien stores arrives, and every alien group with the key takes it. */
  ghost predicate ReachesAll(m: Mapper, st: Stores, coord: NodeName, key: Key, w: World)
    requires VDiskId(key, |m.vdisks|) in m.vdisks
  {
    && (forall t | t in m.Targets(key) :: ConfirmedByTarget(m, coord, key, w, t))
    && (forall n | n in m.nodes && n in st && n != coord ::
          w.alien(n).arrives && TakesAll(m, st, n, key, w.alien(n).outs))
    && (forall t | t in m.Targets(key) && coord in st && (t, key) in st[coord].aliens :: w.localAlien(t).applied)
  }

  ghost predicate TakesAll(m: Mapper, st: Stores, n: NodeName, key: Key, outs: nat -> DeleteOutcome)
    requires VDiskId(key, |m.vdisks|) in m.vdisks && n in st
  {
    forall i: nat | i < |m.Targets(key)| && (m.Targets(key)[i], key) in st[n].aliens :: outs(i).applied
  }

  lemma StillReaches(m: Mapper, st: Stores, st': Stores, coord: NodeName, key: Key, w: World)
    requires VDiskId(key, |m.vdisks|) in m.vdisks && ReachesAll(m, st, coord, key, w) && OnlyMarks(st, st', key)
    ensures ReachesAll(m, st', coord, key, w)
  {
    forall n | n in m.nodes && n in st' && n != coord ensures TakesAll(m, st', n, key, w.alien(n).outs) {
      assert TakesAll(m, st, n, key, w.alien(n).outs) && st'[n].aliens == st[n].aliens;
    }
  }

  /** Alien groups that hold the key carry names of its targets. */
  ghost predicate TargetNamed(m: Mapper, st: Stores, key: Key)
    requires VDiskId(key, |m.vdisks|) in m.vdisks
  {
    forall n, owner: NodeName | n in st && (owner, key) in st[n].aliens :: owner in m.Targets(key)
  }

  lemma RemoteGroupDead(m: Mapper, st: Stores, coord: NodeName, key: Key, ts: nat, w: World, sent: seq<AlienDelete>,
                        n: NodeName, owner: NodeName)
    requires VDiskId(key, |m.vdisks|) in m.vdisks && ReachesAll(m, st, coord, key, w)
    requires AsksEveryNodeOnce(m, coord, sent) && AllGroupsDead(m, st, coord, key, ts, w, sent)
    requires n in m.nodes && n != coord && n in st && (owner, key) in st[n].aliens && owner in m.Targets(key)
    ensures AlienDead(st, n, owner, key, ts)
  {
    var j :| 0 <= j < |NodesOf(sent)| && NodesOf(sent)[j] == n;
    var r := sent[j];
    assert r in sent && r.node == n && GroupsDead(m, st, key, ts, w, r);
    var i :| 0 <= i < |m.Targets(key)| && m.Targets(key)[i] == owner;
    assert TakesAll(m, st, n, key, w.alien(n).outs) && w.alien(n).outs(i).applied;
    assert Written(st, n, owner, key, owner in r.forced, w.alien(n).outs(i));
  }

  lemma GroupIsDead(m: Mapper, st: Stores, coord: NodeName, key: Key, ts: nat, w: World, sent: seq<AlienDelete>,
                    n: NodeName, owner: NodeName)
    requires VDiskId(key, |m.vdisks|) in m.vdisks && ReachesAll(m, st, coord, key, w) && TargetNamed(m, st, key)
    requires AsksEveryNodeOnce(m, coord, sent) && AllGroupsDead(m, st, coord, key, ts, w, sent)
    requires n in m.nodes && n in st && (owner, key) in st[n].aliens
    ensures AlienDead(st, n, owner, key, ts)
  {
    if n == coord {
      assert LocalGroupDead(st, coord, key, ts, w, owner);
    } else {
      RemoteGroupDead(m, st, coord, key, ts, w, sent, n, owner);
    }
  }

  /** Then every later read, from any node and with any nodes answering, is newer than the delete. */
  method DeleteEverywhere(m: Mapper, quorum: nat, st: Stores, coord: NodeName, key: Key, ts: nat, w: World,
                          offset: nat, flags: SupportNodes.Flags)
    returns (ok: bool, st': Stores)
    requires m.Valid(quorum) && st.Keys == Elems(m.nodes) && coord in st
    requires ReachesAll(m, st, coord, key, w) && TargetNamed(m, st, key)
    ensures ok && OnlyMarks(st, st', key)
    ensures forall local, up | local in m.nodes :: Clean(m, st', key, ts, local, up)
    ensures forall local, up, v | local in m.nodes && MayReturn(m, st', local, key, up, v) :: v.ts > ts
  {
    ghost var sent;
    ok, st', sent := DeleteOnNodes(m, quorum, st, coord, key, ts, w, offset, flags);
    assert TargetNamed(m, st', key);
    StillReaches(m, st, st', coord, key, w);
    forall local, up | local in m.nodes ensures Clean(m, st', key, ts, local, up) {
      ReachedIsClean(m, st', coord, key, ts, w, sent, local, up);
    }
    forall local, up, v | local in m.nodes && MayReturn(m, st', local, key, up, v) ensures v.ts > ts {
      CleanReadsNewer(m, st', key, ts, local, up, v);
    }
  }

  lemma ReachedIsClean(m: Mapper, st: Stores, coord: NodeName, key: Key, ts: nat, w: World, sent: seq<AlienDelete>,
                       local: NodeName, up: set<NodeName>)
    requires VDiskId(key, |m.vdisks|) in m.vdisks && ReachesAll(m, st, coord, key, w) && TargetNamed(m, st, key)
    requires AsksEveryNodeOnce(m, coord, sent) && AllGroupsDead(m, st, coord, key, ts, w, sent)
    requires (forall t | t in m.Targets(key) :: Erased(m, st, key, ts, t)) && local in m.nodes
    ensures Clean(m, st, key, ts, local, up)
  {
    forall n, owner | n in AlienSources(m, local, up) && AlienShows(st, n, owner, key)
      ensures AlienDead(st, n, owner, key, ts)
    {
      GroupIsDead(m, st, coord, key, ts, w, sent, n, owner);
    }
  }
}
