/** `get` and `exist` on the same stores with the same nodes answering. */
module ReadAgreement {
  import opened Types
  import opened Topology
  import opened Stores
  import opened ClusterGet
  import opened ClusterExist

  /** `exist_alien` looks at records of every timestamp. */
  ghost predicate AlienExists(st: Stores, n: NodeName, key: Key) {
    exists owner :: AlienShows(st, n, owner, key)
  }

  ghost predicate NormalExists(m: Mapper, st: Stores, n: NodeName, key: Key) {
    VDiskId(key, |m.vdisks|) in m.vdisks && NormalFinds(st, m.ReplicasFor(key), n, key)
  }

  /** What the existence check sees when `local` asks and the nodes in `up` answer. */
  ghost function Seen(m: Mapper, st: Stores, local: NodeName, up: set<NodeName>): World {
    World((n, k) => NormalExists(m, st, n, k), (n, k) => AlienExists(st, n, k),
          n => n in up + {local}, n => n in up + {local})
  }

  ghost predicate ZeroAlien(st: Stores, n: NodeName, key: Key) {
    exists owner :: AlienShows(st, n, owner, key) && st[n].aliens[(owner, key)].ts == 0
  }

  /** The two operations differ exactly by alien records stamped 0, which only `exist` sees. */
  lemma ExistMatchesGet(m: Mapper, quorum: nat, st: Stores, local: NodeName, key: Key, up: set<NodeName>)
    requires m.Valid(quorum) && st.Keys == Elems(m.nodes) && local in m.nodes
    ensures Exists(m, Seen(m, st, local, up), key) <==>
              || GetFinds(m, st, local, key, up)
              || exists n | n in AlienSources(m, local, up) :: ZeroAlien(st, n, key)
  {
    var w := Seen(m, st, local, up);
    var sources := AlienSources(m, local, up);
    assert forall n :: n in sources <==> n in m.nodes && n in up + {local};
    forall n ensures AlienExists(st, n, key) <==> AlienFinds(st, n, key) || ZeroAlien(st, n, key) {
      if AlienExists(st, n, key) {
        var owner :| AlienShows(st, n, owner, key);
        assert st[n].aliens[(owner, key)].ts > 0 ==> AlienVisible(st, n, owner, key);
      }
      if AlienFinds(st, n, key) {
        var owner :| AlienVisible(st, n, owner, key);
      }
    }
    assert forall t :: t in NormalSources(m, local, key, up) <==> t in m.Targets(key) && t in up + {local};
    assert forall n :: w.alien(n, key) == AlienExists(st, n, key);
    assert forall n :: w.normal(n, key) == NormalFinds(st, m.ReplicasFor(key), n, key);
  }
}
