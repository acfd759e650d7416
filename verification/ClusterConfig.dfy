/** Validation of a cluster config, and the mapper that is built from a validated one. */
module ClusterConfig {
  import opened Types
  import opened Topology

  datatype NodeConfig = NodeConfig(name: NodeName, disks: seq<DiskName>)
  datatype Cluster = Cluster(nodes: seq<NodeConfig>, vdisks: seq<VDisk>)

  // ---- sorting ----

  function Insert(x: nat, s: seq<nat>): seq<nat> {
    if s == [] || x <= s[0] then [x] + s else [s[0]] + Insert(x, s[1..])
  }

  function Sort(s: seq<nat>): seq<nat> {
    if s == [] then [] else Insert(s[0], Sort(s[1..]))
  }

  lemma {:induction false} InsertMultiset(x: nat, s: seq<nat>)
    ensures multiset(Insert(x, s)) == multiset(s) + multiset{x} && |Insert(x, s)| == |s| + 1
  {
    if s != [] && x > s[0] {
      InsertMultiset(x, s[1..]);
      assert s == [s[0]] + s[1..];
    }
  }

  lemma {:induction false} InsertAscending(x: nat, s: seq<nat>, low: nat)
    requires Ascending(s) && low <= x && forall i | 0 <= i < |s| :: low <= s[i]
    ensures Ascending(Insert(x, s)) && forall i | 0 <= i < |Insert(x, s)| :: low <= Insert(x, s)[i]
  {
    if s != [] && x > s[0] {
      InsertAscending(x, s[1..], s[0]);
    }
  }

  lemma {:induction false} SortMultiset(s: seq<nat>)
    ensures multiset(Sort(s)) == multiset(s) && |Sort(s)| == |s|
  {
    if s != [] {
      SortMultiset(s[1..]);
      InsertMultiset(s[0], Sort(s[1..]));
      assert s == [s[0]] + s[1..];
    }
  }

  lemma {:induction false} SortAscending(s: seq<nat>)
    ensures Ascending(Sort(s))
  {
    if s != [] {
      SortAscending(s[1..]);
      InsertAscending(s[0], Sort(s[1..]), 0);
    }
  }

  // ---- vdisk ids ----

  datatype IdCheck = IdsOk | DuplicateId(id: nat) | GapBefore(id: nat)

  /** The ids are 0, 1, ... without repetition, in any order. */
  ghost predicate Contiguous(ids: seq<nat>) {
    forall i: nat :: multiset(ids)[i] == if i < |ids| then 1 else 0
  }

  /** Of a sorted prefix 0, 1, ..., i - 1, each occurs once so far, and everything else is larger. */
  lemma PrefixCounts(s: seq<nat>, i: nat)
    requires Ascending(s) && i <= |s| && (forall j | 0 <= j < i :: s[j] == j) && (i < |s| ==> s[i] >= i)
    ensures forall u: nat | u < i :: multiset(s)[u] == 1
  {
    assert s == s[..i] + s[i..];
    forall u: nat | u < i ensures multiset(s)[u] == 1 {
      forall k | 0 <= k < |s[i..]| ensures s[i..][k] != u {
        assert s[i + k] >= s[i];
      }
      assert u !in s[i..];
      CountInPrefix(s[..i], u);
    }
  }

  lemma {:induction false} CountInPrefix(s: seq<nat>, u: nat)
    requires u < |s| && forall j | 0 <= j < |s| :: s[j] == j
    ensures multiset(s)[u] == 1
  {
    var init := s[..|s| - 1];
    assert s == init + [s[|s| - 1]];
    if u < |s| - 1 {
      CountInPrefix(init, u);
    } else {
      assert u !in init;
    }
  }

  lemma TwiceCounted(s: seq<nat>, i: nat, j: nat)
    requires i < j < |s| && s[i] == s[j]
    ensures multiset(s)[s[i]] >= 2
  {
    assert s == s[..j] + s[j..];
    assert s[i] in multiset(s[..j]) by { assert s[..j][i] == s[i]; }
    assert s[j] in multiset(s[j..]) by { assert s[j..][0] == s[j]; }
  }

  /** The first place where a sorted list leaves 0, 1, ... names a repetition or what follows a hole. */
  lemma OffendingIndex(s: seq<nat>, i: nat)
    requires Ascending(s) && i < |s| && (forall j | 0 <= j < i :: s[j] == j) && s[i] != i
    ensures s[i] < i ==> multiset(s)[s[i]] >= 2
    ensures s[i] > i ==> multiset(s)[i] == 0 && forall x: nat | multiset(s)[x] > 0 :: x < i || x >= s[i]
  {
    if s[i] < i {
      TwiceCounted(s, i - 1, i);
    } else {
      forall x | x in s ensures x < i || x >= s[i] {
        var k :| 0 <= k < |s| && s[k] == x;
      }
    }
  }

  lemma NoOffence(s: seq<nat>)
    requires forall j | 0 <= j < |s| :: s[j] == j
    ensures Contiguous(s)
  {
    PrefixCounts(s, |s|);
    forall u: nat | u >= |s| ensures u !in s {
    }
  }

  /** An id is missing, and every id at hand is below it or not below `id`. */
  ghost predicate Hole(ids: seq<nat>, i: nat, id: nat) {
    i < id && multiset(ids)[i] == 0 && i < |ids| && forall x: nat | multiset(ids)[x] > 0 :: x < i || x >= id
  }

  /**
   The id check of `Cluster::validate`: accepted are exactly the permutations of 0, ..., n - 1; a
   reported duplicate occurs twice, and before a reported gap an id is missing.
   */
  method CheckIds(ids: seq<nat>) returns (r: IdCheck)
    ensures r.IdsOk? <==> Contiguous(ids)
    ensures r.DuplicateId? ==> multiset(ids)[r.id] >= 2
    ensures r.GapBefore? ==> multiset(ids)[r.id] > 0 && exists i: nat :: Hole(ids, i, r.id)
  {
    var s := Sort(ids);
    SortMultiset(ids);
    SortAscending(ids);
    for i := 0 to |s|
      invariant forall j | 0 <= j < i :: s[j] == j
    {
      if s[i] < i {
        OffendingIndex(s, i);
        return DuplicateId(s[i]);
      } else if s[i] > i {
        OffendingIndex(s, i);
        assert Hole(ids, i, s[i]) && s[i] in multiset(s);
        return GapBefore(s[i]);
      }
    }
    NoOffence(s);
    r := IdsOk;
  }

  // ---- the whole config ----

  datatype Verdict = Accepted | Rejected

  ghost predicate ReplicasExist(c: Cluster, v: VDisk) {
    && v.replicas != [] && NoDup(v.replicas)
    && forall r | r in v.replicas :: exists n | n in c.nodes :: n.name == r.node && r.disk in n.disks
  }

  function Ids(vs: seq<VDisk>): seq<nat> {
    seq(|vs|, i requires 0 <= i < |vs| => vs[i].id)
  }

  function Names(ns: seq<NodeConfig>): seq<NodeName> {
    seq(|ns|, i requires 0 <= i < |ns| => ns[i].name)
  }

  /** What validation promises about nodes, ids and replicas. */
  ghost predicate WellFormed(c: Cluster) {
    && c.nodes != [] && c.vdisks != []
    && (forall n | n in c.nodes :: NoDup(n.disks))
    && Contiguous(Ids(c.vdisks))
    && NoDup(Names(c.nodes))
    && forall v | v in c.vdisks :: ReplicasExist(c, v)
  }

  /** `validate_no_duplicates`: reports the first value that occurs again. */
  method FindDuplicate<T(==)>(s: seq<T>) returns (dup: Option<T>)
    ensures dup.None? <==> NoDup(s)
    ensures dup.Some? ==> exists j :: 0 < j < |s| && s[j] == dup.value && s[j] in s[..j] && NoDup(s[..j])
  {
    var seen: set<T> := {};
    for i := 0 to |s|
      invariant seen == Elems(s[..i]) && NoDup(s[..i])
    {
      if s[i] in seen {
        var j :| 0 <= j < i && s[..i][j] == s[i];
        assert s[j] == s[i];
        return Some(s[i]);
      }
      assert s[..i + 1] == s[..i] + [s[i]];
      NoDupAppend(s[..i], s[i]);
      seen := seen + {s[i]};
    }
    assert s[..|s|] == s;
    dup := None;
  }

  method ReplicasOk(c: Cluster, v: VDisk) returns (ok: bool)
    requires NoDup(Names(c.nodes))
    ensures ok <==> ReplicasExist(c, v)
  {
    var dup := FindDuplicate(v.replicas);
    ok := dup.None? && v.replicas != [];
    if !ok {
      return;
    }
    for i := 0 to |v.replicas|
      invariant forall j | 0 <= j < i :: exists n | n in c.nodes ::
                  n.name == v.replicas[j].node && v.replicas[j].disk in n.disks
    {
      var r := v.replicas[i];
      assert r in v.replicas;
      var k := 0;
      while k < |c.nodes| && c.nodes[k].name != r.node
        invariant 0 <= k <= |c.nodes| && forall j | 0 <= j < k :: c.nodes[j].name != r.node
      {
        k := k + 1;
      }
      if k == |c.nodes| {
        return false;
      }
      if r.disk !in c.nodes[k].disks {
        forall n | n in c.nodes && n.name == r.node ensures n == c.nodes[k] {
          var j :| 0 <= j < |c.nodes| && c.nodes[j] == n;
          assert Names(c.nodes)[j] == Names(c.nodes)[k];
        }
        return false;
      }
      assert c.nodes[k] in c.nodes;
    }
  }

  /** `Cluster::validate` for the parts that routing relies on. */
  method Validate(c: Cluster) returns (v: Verdict)
    ensures v.Accepted? <==> WellFormed(c)
  {
    if c.nodes == [] || c.vdisks == [] {
      return Rejected;
    }
    for i := 0 to |c.nodes|
      invariant forall j | 0 <= j < i :: NoDup(c.nodes[j].disks)
    {
      var dup := FindDuplicate(c.nodes[i].disks);
      if dup.Some? {
        assert c.nodes[i] in c.nodes;
        return Rejected;
      }
    }
    var ids := CheckIds(Ids(c.vdisks));
    if !ids.IdsOk? {
      return Rejected;
    }
    var name := FindDuplicate(Names(c.nodes));
    if name.Some? {
      return Rejected;
    }
    for i := 0 to |c.vdisks|
      invariant forall j | 0 <= j < i :: ReplicasExist(c, c.vdisks[j])
    {
      var ok := ReplicasOk(c, c.vdisks[i]);
      if !ok {
        assert c.vdisks[i] in c.vdisks;
        return Rejected;
      }
    }
    v := Accepted;
  }

  /** `Cluster::check`: no vdisk has fewer replicas than the quorum. */
  method QuorumFits(c: Cluster, quorum: nat) returns (ok: bool)
    ensures ok <==> forall v | v in c.vdisks :: quorum <= |v.replicas|
  {
    for i := 0 to |c.vdisks|
      invariant forall j | 0 <= j < i :: quorum <= |c.vdisks[j].replicas|
    {
      if |c.vdisks[i].replicas| < quorum {
        assert c.vdisks[i] in c.vdisks;
        return false;
      }
    }
    ok := true;
  }

  lemma ContiguousContains(ids: seq<nat>)
    requires Contiguous(ids)
    ensures forall i: nat :: i in ids <==> i < |ids|
  {
    assert forall i: nat :: i in ids <==> multiset(ids)[i] > 0;
  }

  lemma {:induction false} KeysBelowSize<T>(m: map<nat, T>, n: nat)
    requires forall i: nat :: i in m <==> i < n
    ensures |m| == n
    decreases n
  {
    if n > 0 {
      KeysBelowSize(m - {n - 1}, n - 1);
      assert m.Keys == (m - {n - 1}).Keys + {n - 1};
    } else {
      assert m.Keys == {};
    }
  }

  /** A validated and checked config gives a mapper in which every key finds its vdisk and quorum replicas. */
  method BuildMapper(c: Cluster, quorum: nat) returns (m: Mapper)
    requires WellFormed(c) && quorum > 0 && forall v | v in c.vdisks :: quorum <= |v.replicas|
    ensures m.Valid(quorum) && m.nodes == Names(c.nodes) && |m.vdisks| == |c.vdisks|
    ensures forall v | v in c.vdisks :: v.id in m.vdisks && m.vdisks[v.id] == v
  {
    var vdisks: map<nat, VDisk> := map[];
    var ids := Ids(c.vdisks);
    ContiguousContains(ids);
    for i := 0 to |c.vdisks|
      invariant forall k :: k in vdisks <==> k in ids[..i]
      invariant forall k | k in vdisks :: vdisks[k] in c.vdisks && vdisks[k].id == k
    {
      assert ids[..i + 1] == ids[..i] + [ids[i]];
      assert c.vdisks[i] in c.vdisks;
      vdisks := vdisks[c.vdisks[i].id := c.vdisks[i]];
    }
    assert ids[..|ids|] == ids;
    KeysBelowSize(vdisks, |c.vdisks|);
    m := Mapper(Names(c.nodes), vdisks);
    forall v, r | v in c.vdisks && r in v.replicas ensures r.node in m.nodes {
      var n :| n in c.nodes && n.name == r.node;
      var k :| 0 <= k < |c.nodes| && c.nodes[k] == n;
      assert Names(c.nodes)[k] == r.node;
    }
    forall v | v in c.vdisks ensures v.id in m.vdisks && m.vdisks[v.id] == v {
      ghost var k :| 0 <= k < |c.vdisks| && c.vdisks[k] == v;
      assert ids[k] == v.id && ids[k] in ids;
      IdsDistinct(c, v, m.vdisks[v.id]);
    }
  }

  lemma IdsDistinct(c: Cluster, v: VDisk, w: VDisk)
    requires Contiguous(Ids(c.vdisks)) && v in c.vdisks && w in c.vdisks && v.id == w.id
    ensures v == w
  {
    var i :| 0 <= i < |c.vdisks| && c.vdisks[i] == v;
    var j :| 0 <= j < |c.vdisks| && c.vdisks[j] == w;
    var ids := Ids(c.vdisks);
    if i < j {
      TwiceCounted(ids, i, j);
    } else if j < i {
      TwiceCounted(ids, j, i);
    }
  }
}
