/**
 The durable state of the nodes and the writes a node's backend performs on it. A store is only
 observed through the newest record and the newest tombstone of a key, so that is what it keeps.
 */
module Stores {
  import opened Types

  /**
   `disks` are the normal vdisk stores; `aliens` hold data owned by another node, by owner name.
   `deadDisks` and `deadAliens` have the times of their tombstones.
   */
  datatype NodeStore = NodeStore(
    disks: map<(DiskName, Key), BobData>, aliens: map<(NodeName, Key), BobData>,
    deadDisks: map<(DiskName, Key), nat>, deadAliens: map<(NodeName, Key), nat>)

  /** A tombstone hides records that are not newer. */
  predicate Hidden<K>(dead: map<K, nat>, k: K, ts: nat) {
    k in dead && dead[k] >= ts
  }

  type Stores = map<NodeName, NodeStore>

  function Write<K>(m: map<K, BobData>, k: K, data: BobData): map<K, BobData> {
    if k in m && m[k].ts >= data.ts then m else m[k := data]
  }

  function WriteNormal(st: Stores, n: NodeName, disk: DiskName, key: Key, data: BobData): Stores
    requires n in st
  {
    st[n := st[n].(disks := Write(st[n].disks, (disk, key), data))]
  }

  function WriteAlien(st: Stores, n: NodeName, owner: NodeName, key: Key, data: BobData): Stores
    requires n in st
  {
    st[n := st[n].(aliens := Write(st[n].aliens, (owner, key), data))]
  }

  /** A tombstone at the given time, unless a newer one is there. */
  function Mark<K>(dead: map<K, nat>, k: K, ts: nat): map<K, nat> {
    if Hidden(dead, k, ts) then dead else dead[k := ts]
  }

  function KillDisk(st: Stores, n: NodeName, disk: DiskName, key: Key, ts: nat): Stores
    requires n in st
  {
    st[n := st[n].(deadDisks := Mark(st[n].deadDisks, (disk, key), ts))]
  }

  function KillAlien(st: Stores, n: NodeName, owner: NodeName, key: Key, ts: nat): Stores
    requires n in st
  {
    st[n := st[n].(deadAliens := Mark(st[n].deadAliens, (owner, key), ts))]
  }

  /**
   How `put_single` on one disk may end: written, written to an alien group of the same node
   because the disk failed, or failed completely. The fallback operation keeps its disk path, so
   the alien group it lands in need not be the one named after the node itself.
   */
  datatype PathOutcome = Normal | Fallback(owner: NodeName) | Failure

  function WritePath(st: Stores, n: NodeName, disk: DiskName, key: Key, data: BobData, out: PathOutcome): Stores
    requires n in st
  {
    match out
    case Normal => WriteNormal(st, n, disk, key, data)
    case Fallback(owner) => WriteAlien(st, n, owner, key, data)
    case Failure => st
  }

  /** `Backend::put` for a node that owns replicas: every path is tried, whatever happened before. */
  function BackendPut(st: Stores, n: NodeName, paths: seq<DiskName>, outs: seq<PathOutcome>, key: Key,
                      data: BobData): Stores
    requires n in st && |outs| == |paths|
  {
    if paths == [] then st
    else BackendPut(WritePath(st, n, paths[0], key, data, outs[0]), n, paths[1..], outs[1..], key, data)
  }

  /** The answer of `Backend::put`: an error as soon as one path failed completely. */
  predicate AllStored(outs: seq<PathOutcome>) {
    Failure !in outs
  }

  ghost predicate AlienHeld(st: Stores, n: NodeName, owner: NodeName, key: Key, ts: nat) {
    n in st && (owner, key) in st[n].aliens && st[n].aliens[(owner, key)].ts >= ts
  }

  /** A replica of the key at least as new as `ts` is on this disk, or in some alien group of the same node. */
  ghost predicate Held(st: Stores, n: NodeName, disk: DiskName, key: Key, ts: nat) {
    || OnDisk(st, n, disk, key, ts)
    || exists owner :: AlienHeld(st, n, owner, key, ts)
  }

  ghost predicate OnDisk(st: Stores, n: NodeName, disk: DiskName, key: Key, ts: nat) {
    n in st && (disk, key) in st[n].disks && st[n].disks[(disk, key)].ts >= ts
  }

  ghost predicate MapGrows<K(!new)>(a: map<K, BobData>, b: map<K, BobData>) {
    forall k | k in a :: k in b && b[k].ts >= a[k].ts
  }

  ghost predicate SameTombstones(a: NodeStore, b: NodeStore) {
    a.deadDisks == b.deadDisks && a.deadAliens == b.deadAliens
  }

  /** Nothing is removed and no key gets an older record. */
  ghost predicate Keeps(a: Stores, b: Stores) {
    && a.Keys == b.Keys
    && forall n | n in a :: MapGrows(a[n].disks, b[n].disks) && MapGrows(a[n].aliens, b[n].aliens)
  }

  /** Moreover, no tombstone is added. */
  ghost predicate Grows(a: Stores, b: Stores) {
    Keeps(a, b) && forall n | n in a :: SameTombstones(a[n], b[n])
  }

  /** All tombstones of the key are older than `ts`. */
  ghost predicate OlderTombstones(st: Stores, key: Key, ts: nat) {
    && (forall n, d: DiskName | n in st :: !Hidden(st[n].deadDisks, (d, key), ts))
    && (forall n, owner: NodeName | n in st :: !Hidden(st[n].deadAliens, (owner, key), ts))
  }

  lemma GrowsKeepsOlder(a: Stores, b: Stores, key: Key, ts: nat)
    requires Grows(a, b) && OlderTombstones(a, key, ts)
    ensures OlderTombstones(b, key, ts)
  {
    forall n | n in b ensures SameTombstones(a[n], b[n]) {
    }
  }

  lemma GrowsTransitive(a: Stores, b: Stores, c: Stores)
    requires Grows(a, b) && Grows(b, c)
    ensures Grows(a, c)
  {
  }

  lemma KeepsTransitive(a: Stores, b: Stores, c: Stores)
    requires Keeps(a, b) && Keeps(b, c)
    ensures Keeps(a, c)
  {
  }

  lemma KeepsHeld(a: Stores, b: Stores, n: NodeName, disk: DiskName, key: Key, ts: nat)
    requires Keeps(a, b) && Held(a, n, disk, key, ts)
    ensures Held(b, n, disk, key, ts)
  {
    if owner :| AlienHeld(a, n, owner, key, ts) {
      assert AlienHeld(b, n, owner, key, ts);
    }
  }

  lemma WriteNormalEffect(st: Stores, n: NodeName, disk: DiskName, key: Key, data: BobData)
    requires n in st
    ensures Grows(st, WriteNormal(st, n, disk, key, data))
    ensures OnDisk(WriteNormal(st, n, disk, key, data), n, disk, key, data.ts)
  {
  }

  lemma WritePathEffect(st: Stores, n: NodeName, disk: DiskName, key: Key, data: BobData, out: PathOutcome)
    requires n in st
    ensures Grows(st, WritePath(st, n, disk, key, data, out))
    ensures out != Failure ==> Held(WritePath(st, n, disk, key, data, out), n, disk, key, data.ts)
    ensures out == Normal ==> OnDisk(WritePath(st, n, disk, key, data, out), n, disk, key, data.ts)
    ensures out.Fallback? ==> AlienHeld(WritePath(st, n, disk, key, data, out), n, out.owner, key, data.ts)
  {
    match out
    case Normal => WriteNormalEffect(st, n, disk, key, data);
    case Fallback(owner) =>
      WriteAlienEffect(st, n, owner, key, data);
      assert AlienHeld(WriteAlien(st, n, owner, key, data), n, owner, key, data.ts);
    case Failure =>
  }

  lemma WriteAlienEffect(st: Stores, n: NodeName, owner: NodeName, key: Key, data: BobData)
    requires n in st
    ensures Grows(st, WriteAlien(st, n, owner, key, data))
    ensures AlienHeld(WriteAlien(st, n, owner, key, data), n, owner, key, data.ts)
  {
  }

  /** Records of other keys and of other nodes stay as they are. */
  ghost predicate OnlyAbout(a: Stores, b: Stores, n: NodeName, key: Key) {
    && a.Keys == b.Keys && (forall x | x in a && x != n :: b[x] == a[x])
    && (n in a ==> SameElsewhere(a[n].disks, b[n].disks, key) && SameElsewhere(a[n].aliens, b[n].aliens, key))
  }

  ghost predicate SameElsewhere<K(!new)>(a: map<(K, Key), BobData>, b: map<(K, Key), BobData>, key: Key) {
    forall k | k in b && k.1 != key :: k in a && b[k] == a[k]
  }

  lemma WritePathAbout(st: Stores, n: NodeName, disk: DiskName, key: Key, data: BobData, out: PathOutcome)
    requires n in st
    ensures OnlyAbout(st, WritePath(st, n, disk, key, data, out), n, key)
  {
  }

  lemma OnlyAboutTransitive(a: Stores, b: Stores, c: Stores, n: NodeName, key: Key)
    requires OnlyAbout(a, b, n, key) && OnlyAbout(b, c, n, key)
    ensures OnlyAbout(a, c, n, key)
  {
    if n in a {
      assert SameElsewhere(a[n].disks, b[n].disks, key) && SameElsewhere(b[n].disks, c[n].disks, key);
      assert SameElsewhere(a[n].aliens, b[n].aliens, key) && SameElsewhere(b[n].aliens, c[n].aliens, key);
    }
  }

  lemma {:induction false} BackendPutAbout(st: Stores, n: NodeName, paths: seq<DiskName>, outs: seq<PathOutcome>,
                                           key: Key, data: BobData)
    requires n in st && |outs| == |paths|
    ensures OnlyAbout(st, BackendPut(st, n, paths, outs, key, data), n, key)
  {
    if paths != [] {
      var st1 := WritePath(st, n, paths[0], key, data, outs[0]);
      WritePathAbout(st, n, paths[0], key, data, outs[0]);
      BackendPutAbout(st1, n, paths[1..], outs[1..], key, data);
      OnlyAboutTransitive(st, st1, BackendPut(st1, n, paths[1..], outs[1..], key, data), n, key);
    }
  }

  /** Every path that did not fail completely has left the record, whatever the others did. */
  ghost predicate PathsHeld(st: Stores, n: NodeName, paths: seq<DiskName>, outs: seq<PathOutcome>, key: Key, ts: nat)
    requires |outs| == |paths|
  {
    forall i | 0 <= i < |paths| && outs[i] != Failure :: Held(st, n, paths[i], key, ts)
  }

  lemma {:induction false} BackendPutEffect(st: Stores, n: NodeName, paths: seq<DiskName>, outs: seq<PathOutcome>,
                                            key: Key, data: BobData)
    requires n in st && |outs| == |paths|
    ensures Grows(st, BackendPut(st, n, paths, outs, key, data))
    ensures PathsHeld(BackendPut(st, n, paths, outs, key, data), n, paths, outs, key, data.ts)
  {
    if paths != [] {
      var st1 := WritePath(st, n, paths[0], key, data, outs[0]);
      var st2 := BackendPut(st1, n, paths[1..], outs[1..], key, data);
      WritePathEffect(st, n, paths[0], key, data, outs[0]);
      BackendPutEffect(st1, n, paths[1..], outs[1..], key, data);
      GrowsTransitive(st, st1, st2);
      FirstHeld(st1, st2, n, paths, outs, key, data.ts);
    }
  }

  lemma FirstHeld(st1: Stores, st2: Stores, n: NodeName, paths: seq<DiskName>, outs: seq<PathOutcome>, key: Key,
                  ts: nat)
    requires |outs| == |paths| > 0 && Keeps(st1, st2) && PathsHeld(st2, n, paths[1..], outs[1..], key, ts)
    requires outs[0] != Failure ==> Held(st1, n, paths[0], key, ts)
    ensures PathsHeld(st2, n, paths, outs, key, ts)
  {
    forall i | 0 <= i < |paths| && outs[i] != Failure ensures Held(st2, n, paths[i], key, ts) {
      if i == 0 {
        KeepsHeld(st1, st2, n, paths[0], key, ts);
      } else {
        assert outs[1..][i - 1] == outs[i] && paths[1..][i - 1] == paths[i];
      }
    }
  }

  /** A confirmed backend put has left the record behind every one of the node's replica paths. */
  lemma ConfirmedIsHeld(st: Stores, n: NodeName, paths: seq<DiskName>, outs: seq<PathOutcome>, key: Key, ts: nat)
    requires |outs| == |paths| && PathsHeld(st, n, paths, outs, key, ts) && AllStored(outs)
    ensures forall d | d in paths :: Held(st, n, d, key, ts)
  {
    forall d | d in paths ensures Held(st, n, d, key, ts) {
      var i :| 0 <= i < |paths| && paths[i] == d;
      assert outs[i] in outs;
    }
  }
}
