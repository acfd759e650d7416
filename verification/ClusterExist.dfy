/**
 The cluster existence check for many keys. It asks in stages (local disks, one remote node per
 key, the other remote targets, local aliens, remote aliens) and after each stage leaves out the
 keys already found. It is compared with the plain disjunction over all stores.
 */
module ClusterExist {
  import opened Types
  import opened Topology

  /** Positions of keys within a batch, kept instead of the keys; `HashMap` entries own theirs. */
  datatype IndexMap = IndexMap(indexes: seq<nat>) {
    function Push(i: nat): IndexMap {
      IndexMap(indexes + [i])
    }

    function Collect<T>(data: seq<T>): seq<T>
      requires forall i | i in indexes :: i < |data|
    {
      seq(|indexes|, j requires 0 <= j < |indexes| => assert indexes[j] in indexes; data[indexes[j]])
    }
  }

  method WhereNotExists(data: seq<bool>) returns (r: IndexMap)
    ensures forall i :: i in r.indexes <==> 0 <= i < |data| && !data[i]
  {
    r := IndexMap([]);
    for i := 0 to |data|
      invariant forall j :: j in r.indexes <==> 0 <= j < i && !data[j]
    {
      if !data[i] {
        r := r.Push(i);
      }
    }
  }

  method RetainNotExisted(map0: IndexMap, original: seq<bool>) returns (r: IndexMap)
    requires forall i | i in map0.indexes :: i < |original|
    ensures forall i :: i in r.indexes <==> i in map0.indexes && !original[i]
  {
    r := IndexMap([]);
    for k := 0 to |map0.indexes|
      invariant forall i | i in r.indexes :: i in map0.indexes[..k] && i < |original| && !original[i]
      invariant forall j | 0 <= j < k ::
                  map0.indexes[j] in map0.indexes && (!original[map0.indexes[j]] ==> map0.indexes[j] in r.indexes)
    {
      assert map0.indexes[..k + 1] == map0.indexes[..k] + [map0.indexes[k]];
      assert map0.indexes[k] in map0.indexes;
      if !original[map0.indexes[k]] {
        r := r.Push(map0.indexes[k]);
      }
    }
    assert map0.indexes[..|map0.indexes|] == map0.indexes;
  }

  /** ORs a store's answers, given in the order of the asked keys, into the batch result. */
  method UpdateExistence(im: IndexMap, original: array<bool>, mapped: seq<bool>, keys: seq<Key>,
                         ghost holds: Key -> bool)
    requires original.Length == |keys| && forall i | i in im.indexes :: i < |keys|
    requires |mapped| == |im.indexes|
    requires forall j | 0 <= j < |mapped| :: mapped[j] == holds(im.Collect(keys)[j])
    modifies original
    ensures forall i | 0 <= i < |keys| :: original[i] == (old(original[i]) || (i in im.indexes && holds(keys[i])))
  {
    for k := 0 to |im.indexes|
      invariant forall i | 0 <= i < |keys| ::
                  original[i] == (old(original[i]) || (i in im.indexes[..k] && holds(keys[i])))
    {
      assert im.indexes[..k + 1] == im.indexes[..k] + [im.indexes[k]];
      var ind := im.indexes[k];
      assert ind in im.indexes && im.Collect(keys)[k] == keys[ind];
      original[ind] := original[ind] || mapped[k];
    }
    assert im.indexes[..|im.indexes|] == im.indexes;
  }

  /** What the stores hold and which of them answer. */
  datatype World = World(
    normal: (NodeName, Key) -> bool, alien: (NodeName, Key) -> bool,
    answersNormal: NodeName -> bool, answersAlien: NodeName -> bool)

  function Replies(keys: seq<Key>, holds: Key -> bool): seq<bool> {
    seq(|keys|, j requires 0 <= j < |keys| => holds(keys[j]))
  }

  /** The index list of a node is exactly the list of keys that have the node as a target. */
  ghost predicate ListsTargets(m: Mapper, keys: seq<Key>, upto: nat, n: NodeName, im: IndexMap)
    requires upto <= |keys| && forall k | k in keys :: VDiskId(k, |m.vdisks|) in m.vdisks
  {
    forall i :: i in im.indexes <==> 0 <= i < upto && n in m.Targets(keys[i])
  }

  ghost predicate Grouped(m: Mapper, local: NodeName, keys: seq<Key>, upto: nat, loc: IndexMap,
                          primary: map<NodeName, IndexMap>, secondary: map<NodeName, IndexMap>)
    requires upto <= |keys| && forall k | k in keys :: VDiskId(k, |m.vdisks|) in m.vdisks
  {
    && primary.Keys !! secondary.Keys && local !in primary && local !in secondary
    && ListsTargets(m, keys, upto, local, loc)
    && (forall n | n in primary :: ListsTargets(m, keys, upto, n, primary[n]))
    && (forall n | n in secondary :: ListsTargets(m, keys, upto, n, secondary[n]))
    && (forall i, n | 0 <= i < upto && n in m.Targets(keys[i]) :: n == local || n in primary || n in secondary)
  }

  /** The first round reaches the key, unless all its targets are already left to the second round. */
  ghost predicate FirstRound(targets: seq<NodeName>, local: NodeName, primary: set<NodeName>,
                             secondary: set<NodeName>) {
    || (exists n | n in targets :: n == local || n in primary)
    || (forall n | n in targets :: n in secondary)
  }

  ghost predicate FirstRounds(m: Mapper, local: NodeName, keys: seq<Key>, upto: nat, primary: set<NodeName>,
                              secondary: set<NodeName>)
    requires upto <= |keys| && forall k | k in keys :: VDiskId(k, |m.vdisks|) in m.vdisks
  {
    forall i | 0 <= i < upto :: FirstRound(m.Targets(keys[i]), local, primary, secondary)
  }

  /** Lists agree with the keys below `i`, and for the first `k` targets also with key `i` itself. */
  ghost predicate ListsPartly(m: Mapper, keys: seq<Key>, i: nat, k: nat, n: NodeName, im: IndexMap)
    requires i < |keys| && forall k | k in keys :: VDiskId(k, |m.vdisks|) in m.vdisks
    requires k <= |m.Targets(keys[i])|
  {
    forall j :: j in im.indexes <==>
      (0 <= j < i && n in m.Targets(keys[j])) || (j == i && n in m.Targets(keys[i])[..k])
  }

  ghost predicate AllPartly(m: Mapper, keys: seq<Key>, i: nat, k: nat, lists: map<NodeName, IndexMap>)
    requires i < |keys| && forall k | k in keys :: VDiskId(k, |m.vdisks|) in m.vdisks
    requires k <= |m.Targets(keys[i])|
  {
    forall n | n in lists :: ListsPartly(m, keys, i, k, n, lists[n])
  }

  /** Target `k` of key `i` concerns no other node's list. */
  lemma OtherList(m: Mapper, keys: seq<Key>, i: nat, k: nat, n: NodeName, im: IndexMap)
    requires i < |keys| && forall k | k in keys :: VDiskId(k, |m.vdisks|) in m.vdisks
    requires k < |m.Targets(keys[i])| && n != m.Targets(keys[i])[k] && ListsPartly(m, keys, i, k, n, im)
    ensures ListsPartly(m, keys, i, k + 1, n, im)
  {
    var targets := m.Targets(keys[i]);
    assert targets[..k + 1] == targets[..k] + [targets[k]];
  }

  lemma OwnList(m: Mapper, keys: seq<Key>, i: nat, k: nat, n: NodeName, im: IndexMap)
    requires i < |keys| && forall k | k in keys :: VDiskId(k, |m.vdisks|) in m.vdisks
    requires k < |m.Targets(keys[i])| && n == m.Targets(keys[i])[k] && ListsPartly(m, keys, i, k, n, im)
    ensures ListsPartly(m, keys, i, k + 1, n, im.Push(i))
  {
    var targets := m.Targets(keys[i]);
    assert targets[..k + 1] == targets[..k] + [n];
  }

  lemma OtherLists(m: Mapper, keys: seq<Key>, i: nat, k: nat, lists: map<NodeName, IndexMap>)
    requires i < |keys| && forall k | k in keys :: VDiskId(k, |m.vdisks|) in m.vdisks
    requires k < |m.Targets(keys[i])| && m.Targets(keys[i])[k] !in lists && AllPartly(m, keys, i, k, lists)
    ensures AllPartly(m, keys, i, k + 1, lists)
  {
    forall n | n in lists ensures ListsPartly(m, keys, i, k + 1, n, lists[n]) {
      OtherList(m, keys, i, k, n, lists[n]);
    }
  }

  lemma EnteredLists(m: Mapper, keys: seq<Key>, i: nat, k: nat, lists: map<NodeName, IndexMap>, n: NodeName,
                     im: IndexMap, lists': map<NodeName, IndexMap>)
    requires i < |keys| && forall k | k in keys :: VDiskId(k, |m.vdisks|) in m.vdisks
    requires k < |m.Targets(keys[i])| && n == m.Targets(keys[i])[k] && AllPartly(m, keys, i, k, lists)
    requires ListsPartly(m, keys, i, k, n, im) && lists' == lists[n := im.Push(i)]
    ensures AllPartly(m, keys, i, k + 1, lists')
  {
    forall x | x in lists' ensures ListsPartly(m, keys, i, k + 1, x, lists'[x]) {
      if x == n {
        OwnList(m, keys, i, k, n, im);
      } else {
        OtherList(m, keys, i, k, x, lists[x]);
      }
    }
  }

  ghost predicate GroupedPartly(m: Mapper, local: NodeName, keys: seq<Key>, i: nat, k: nat, loc: IndexMap,
                                primary: map<NodeName, IndexMap>, secondary: map<NodeName, IndexMap>)
    requires i < |keys| && forall k | k in keys :: VDiskId(k, |m.vdisks|) in m.vdisks
    requires k <= |m.Targets(keys[i])|
  {
    && primary.Keys !! secondary.Keys && local !in primary && local !in secondary
    && ListsPartly(m, keys, i, k, local, loc)
    && AllPartly(m, keys, i, k, primary) && AllPartly(m, keys, i, k, secondary)
    && (forall j, n | 0 <= j < i && n in m.Targets(keys[j]) :: n == local || n in primary || n in secondary)
    && (forall n | n in m.Targets(keys[i])[..k] :: n == local || n in primary || n in secondary)
  }

  /** One target of key `i` is entered into the list it belongs to. */
  method EnterTarget(m: Mapper, local: NodeName, keys: seq<Key>, i: nat, k: nat, loc: IndexMap,
                     primary: map<NodeName, IndexMap>, secondary: map<NodeName, IndexMap>)
    returns (loc': IndexMap, primary': map<NodeName, IndexMap>, secondary': map<NodeName, IndexMap>)
    requires i < |keys| && forall k | k in keys :: VDiskId(k, |m.vdisks|) in m.vdisks
    requires k < |m.Targets(keys[i])| && NoDup(m.Targets(keys[i]))
    requires GroupedPartly(m, local, keys, i, k, loc, primary, secondary)
    ensures GroupedPartly(m, local, keys, i, k + 1, loc', primary', secondary')
    ensures primary'.Keys == primary.Keys && secondary.Keys <= secondary'.Keys
  {
    loc', primary', secondary' := loc, primary, secondary;
    var targets := m.Targets(keys[i]);
    var n := targets[k];
    assert targets[..k + 1] == targets[..k] + [n] && n !in targets[..k];
    if n == local {
      loc' := loc.Push(i);
      OwnList(m, keys, i, k, local, loc);
      OtherLists(m, keys, i, k, primary);
      OtherLists(m, keys, i, k, secondary);
    } else if n in primary {
      primary' := primary[n := primary[n].Push(i)];
      OtherList(m, keys, i, k, local, loc);
      EnteredLists(m, keys, i, k, primary, n, primary[n], primary');
      OtherLists(m, keys, i, k, secondary);
    } else {
      var im := if n in secondary then secondary[n] else IndexMap([]);
      secondary' := secondary[n := im.Push(i)];
      OtherList(m, keys, i, k, local, loc);
      OtherLists(m, keys, i, k, primary);
      EnteredLists(m, keys, i, k, secondary, n, im, secondary');
    }
  }

  /** A node that was no target so far may become primary: its empty list is exact. */
  lemma BeginKey(m: Mapper, local: NodeName, keys: seq<Key>, i: nat, loc: IndexMap,
                 primary: map<NodeName, IndexMap>, secondary: map<NodeName, IndexMap>, n: NodeName)
    requires i < |keys| && forall k | k in keys :: VDiskId(k, |m.vdisks|) in m.vdisks
    requires Grouped(m, local, keys, i, loc, primary, secondary)
    ensures GroupedPartly(m, local, keys, i, 0, loc, primary, secondary)
    ensures n != local && n !in primary && n !in secondary ==>
              GroupedPartly(m, local, keys, i, 0, loc, primary[n := IndexMap([])], secondary)
  {
  }

  lemma EndKey(m: Mapper, local: NodeName, keys: seq<Key>, i: nat, loc: IndexMap,
               primary: map<NodeName, IndexMap>, secondary: map<NodeName, IndexMap>)
    requires i < |keys| && forall k | k in keys :: VDiskId(k, |m.vdisks|) in m.vdisks
    requires GroupedPartly(m, local, keys, i, |m.Targets(keys[i])|, loc, primary, secondary)
    ensures Grouped(m, local, keys, i + 1, loc, primary, secondary)
  {
    var targets := m.Targets(keys[i]);
    assert targets[..|targets|] == targets;
  }

  /** `group_by_nodes`: primary and secondary nodes are disjoint and every list is exact. */
  method GroupByNodes(m: Mapper, quorum: nat, local: NodeName, keys: seq<Key>)
    returns (loc: IndexMap, primary: map<NodeName, IndexMap>, secondary: map<NodeName, IndexMap>)
    requires m.Valid(quorum)
    ensures Grouped(m, local, keys, |keys|, loc, primary, secondary)
    ensures FirstRounds(m, local, keys, |keys|, primary.Keys, secondary.Keys)
  {
    loc, primary, secondary := IndexMap([]), map[], map[];
    for i := 0 to |keys|
      invariant Grouped(m, local, keys, i, loc, primary, secondary)
      invariant FirstRounds(m, local, keys, i, primary.Keys, secondary.Keys)
    {
      ghost var p, s := primary.Keys, secondary.Keys;
      loc, primary, secondary := EnterKey(m, quorum, local, keys, i, loc, primary, secondary);
      forall j | 0 <= j < i ensures FirstRound(m.Targets(keys[j]), local, primary.Keys, secondary.Keys) {
        FirstRoundStays(m.Targets(keys[j]), local, p, s, primary.Keys, secondary.Keys);
      }
    }
  }

  /** The target that becomes primary for the sake of this key, if none serves it yet. */
  method NewPrimary(targets: seq<NodeName>, local: NodeName, primary: set<NodeName>, secondary: set<NodeName>)
    returns (front: Option<NodeName>)
    ensures front.Some? ==> front.value in targets && front.value != local && front.value !in primary + secondary
    ensures FirstRound(targets, local, if front.Some? then primary + {front.value} else primary, secondary)
    ensures (exists n | n in targets :: n == local || n in primary) ==> front.None?
  {
    front := None;
    if !exists n | n in targets :: n == local || n in primary {
      for j := 0 to |targets|
        invariant forall l | 0 <= l < j :: targets[l] in secondary
      {
        if targets[j] !in secondary {
          return Some(targets[j]);
        }
      }
    }
  }

  lemma FirstRoundStays(targets: seq<NodeName>, local: NodeName, p: set<NodeName>, s: set<NodeName>, p': set<NodeName>,
                        s': set<NodeName>)
    requires FirstRound(targets, local, p, s) && p <= p' && s <= s'
    ensures FirstRound(targets, local, p', s')
  {
    if n :| n in targets && (n == local || n in p) {
      assert n == local || n in p';
    }
  }

  method EnterKey(m: Mapper, quorum: nat, local: NodeName, keys: seq<Key>, i: nat, loc: IndexMap,
                  primary: map<NodeName, IndexMap>, secondary: map<NodeName, IndexMap>)
    returns (loc': IndexMap, primary': map<NodeName, IndexMap>, secondary': map<NodeName, IndexMap>)
    requires m.Valid(quorum) && i < |keys|
    requires Grouped(m, local, keys, i, loc, primary, secondary)
    ensures Grouped(m, local, keys, i + 1, loc', primary', secondary')
    ensures primary.Keys <= primary'.Keys && secondary.Keys <= secondary'.Keys
    ensures FirstRound(m.Targets(keys[i]), local, primary'.Keys, secondary'.Keys)
  {
    var targets := m.Targets(keys[i]);
    assert NoDup(targets) by { TargetsConserveReplicas(m, quorum, keys[i]); }
    loc', primary', secondary' := loc, primary, secondary;
    BeginKey(m, local, keys, i, loc, primary, secondary, local);
    var front := NewPrimary(targets, local, primary.Keys, secondary.Keys);
    if front.Some? {
      BeginKey(m, local, keys, i, loc, primary, secondary, front.value);
      primary' := primary[front.value := IndexMap([])];
    }
    ghost var fronts := primary'.Keys;
    for k := 0 to |targets|
      invariant GroupedPartly(m, local, keys, i, k, loc', primary', secondary')
      invariant primary'.Keys == fronts && secondary.Keys <= secondary'.Keys
    {
      loc', primary', secondary' := EnterTarget(m, local, keys, i, k, loc', primary', secondary');
    }
    EndKey(m, local, keys, i, loc', primary', secondary');
    FirstRoundStays(targets, local, if front.Some? then primary.Keys + {front.value} else primary.Keys, secondary.Keys,
                    primary'.Keys, secondary'.Keys);
  }

  /** `collect_remote_exists`: one round of requests, answered in any order. */
  method CollectRemoteExists(result: array<bool>, keys: seq<Key>, lists: map<NodeName, IndexMap>, w: World)
    requires result.Length == |keys|
    requires forall n | n in lists :: forall i | i in lists[n].indexes :: i < |keys|
    modifies result
    ensures forall i | 0 <= i < |keys| ::
              result[i] == (old(result[i]) ||
                            exists n | n in lists ::
                              i in lists[n].indexes && w.answersNormal(n) && w.normal(n, keys[i]))
  {
    var before := result[..];
    var pending := lists.Keys;
    while pending != {}
      invariant pending <= lists.Keys
      invariant forall i | 0 <= i < |keys| ::
                  result[i] == (before[i] ||
                                exists n | n in lists ::
                                  n !in pending && i in lists[n].indexes && w.answersNormal(n) && w.normal(n, keys[i]))
      decreases pending
    {
      var n :| n in pending;
      pending := pending - {n};
      var asked := RetainNotExisted(lists[n], before);
      if asked.indexes != [] && w.answersNormal(n) {
        var reply := Replies(asked.Collect(keys), k => w.normal(n, k));
        UpdateExistence(asked, result, reply, keys, k => w.normal(n, k));
      }
    }
  }

  /** The naive check: some answering target has the key, or some answering alien store does. */
  ghost predicate Exists(m: Mapper, w: World, key: Key)
    requires VDiskId(key, |m.vdisks|) in m.vdisks
  {
    || (exists t | t in m.Targets(key) :: w.answersNormal(t) && w.normal(t, key))
    || (exists n | n in m.nodes :: w.answersAlien(n) && w.alien(n, key))
  }

  /** Remote aliens are asked about the keys that are still missing. */
  method CollectRemoteAliens(m: Mapper, local: NodeName, result: array<bool>, keys: seq<Key>, im: IndexMap, w: World)
    requires result.Length == |keys|
    requires forall i | i in im.indexes :: i < |keys|
    modifies result
    ensures forall i | 0 <= i < |keys| ::
              result[i] == (old(result[i]) ||
                            (i in im.indexes && exists n | n in m.nodes ::
                              n != local && w.answersAlien(n) && w.alien(n, keys[i])))
  {
    var before := result[..];
    var pending := set n | n in m.nodes && n != local;
    while pending != {}
      invariant pending <= set n | n in m.nodes && n != local
      invariant forall i | 0 <= i < |keys| ::
                  result[i] == (before[i] ||
                                (i in im.indexes && exists n | n in m.nodes ::
                                   n != local && n !in pending && w.answersAlien(n) && w.alien(n, keys[i])))
      decreases pending
    {
      var n :| n in pending;
      pending := pending - {n};
      if w.answersAlien(n) {
        UpdateExistence(im, result, Replies(im.Collect(keys), k => w.alien(n, k)), keys, k => w.alien(n, k));
      }
    }
  }

  /** After the disk stages a key is marked exactly if an answering target has it. */
  ghost predicate TargetsChecked(m: Mapper, w: World, keys: seq<Key>, result: seq<bool>)
    requires |result| == |keys| && forall k | k in keys :: VDiskId(k, |m.vdisks|) in m.vdisks
  {
    forall i | 0 <= i < |keys| ::
      result[i] <==> exists t | t in m.Targets(keys[i]) :: w.answersNormal(t) && w.normal(t, keys[i])
  }

  method CheckTargets(m: Mapper, quorum: nat, local: NodeName, keys: seq<Key>, w: World) returns (result: array<bool>)
    requires m.Valid(quorum)
    ensures fresh(result) && result.Length == |keys|
    ensures TargetsChecked(m, w, keys, result[..])
  {
    result := new bool[|keys|](_ => false);
    var loc, primary, secondary := GroupByNodes(m, quorum, local, keys);
    if loc.indexes != [] && w.answersNormal(local) {
      UpdateExistence(loc, result, Replies(loc.Collect(keys), k => w.normal(local, k)), keys, k => w.normal(local, k));
    }
    CollectRemoteExists(result, keys, primary, w);
    CollectRemoteExists(result, keys, secondary, w);
    forall i | 0 <= i < |keys|
      ensures result[i] <==> exists t | t in m.Targets(keys[i]) :: w.answersNormal(t) && w.normal(t, keys[i])
    {
    }
  }

  /** The staged check equals the naive one, key by key, for every batch and every pattern of answers. */
  method Exist(m: Mapper, quorum: nat, local: NodeName, keys: seq<Key>, w: World) returns (result: array<bool>)
    requires m.Valid(quorum) && local in m.nodes
    ensures fresh(result) && result.Length == |keys|
    ensures forall i | 0 <= i < |keys| :: result[i] <==> Exists(m, w, keys[i])
  {
    result := CheckTargets(m, quorum, local, keys, w);
    var missing := WhereNotExists(result[..]);
    if missing.indexes != [] && w.answersAlien(local) {
      UpdateExistence(missing, result, Replies(missing.Collect(keys), k => w.alien(local, k)), keys,
                      k => w.alien(local, k));
      missing := RetainNotExisted(missing, result[..]);
    }
    if missing.indexes != [] {
      CollectRemoteAliens(m, local, result, keys, missing, w);
    }
  }
}
