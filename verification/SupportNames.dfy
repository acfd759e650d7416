/** The support-node choice in terms of node names, as the cluster operations use it. */
module SupportNames {
  import opened Types
  import opened Topology
  import opened PutProtocol
  import SupportNodes

  function IndexesOf(nodes: seq<NodeName>, names: seq<NodeName>): set<nat> {
    set i: nat | i < |nodes| && nodes[i] in names
  }

  function NamesAt(nodes: seq<NodeName>, sup: seq<nat>): seq<NodeName>
    requires forall i | i in sup :: i < |nodes|
  {
    seq(|sup|, j requires 0 <= j < |sup| => assert sup[j] in sup; nodes[sup[j]])
  }

  lemma IndexesAppend(nodes: seq<NodeName>, init: seq<NodeName>, k: nat)
    requires NoDup(nodes) && k < |nodes| && nodes[k] !in init
    ensures IndexesOf(nodes, init + [nodes[k]]) == IndexesOf(nodes, init) + {k} && k !in IndexesOf(nodes, init)
  {
  }

  lemma {:induction false} IndexesCardinality(nodes: seq<NodeName>, names: seq<NodeName>)
    requires NoDup(nodes) && NoDup(names) && forall n | n in names :: n in nodes
    ensures |IndexesOf(nodes, names)| == |names|
  {
    if names != [] {
      var init, x := names[..|names| - 1], names[|names| - 1];
      assert x in names;
      var k :| 0 <= k < |nodes| && nodes[k] == x;
      assert names == init + [x];
      assert forall n | n in init :: n in names;
      IndexesCardinality(nodes, init);
      IndexesAppend(nodes, init, k);
    }
  }

  /** What the selection loop guarantees is what the put protocol allows for. */
  lemma SelectionIsChoice(m: Mapper, targets: seq<NodeName>, count: nat, sup: seq<nat>)
    requires NoDup(m.nodes) && NoDup(targets) && forall n | n in targets :: n in m.nodes
    requires SupportNodes.Selection(|m.nodes|, IndexesOf(m.nodes, targets), sup)
    requires |sup| == if count <= |m.nodes| - |IndexesOf(m.nodes, targets)| then count
                      else |m.nodes| - |IndexesOf(m.nodes, targets)|
    ensures IsSupportChoice(m, targets, count, NamesAt(m.nodes, sup))
  {
    IndexesCardinality(m.nodes, targets);
    var names := NamesAt(m.nodes, sup);
    forall i, j | 0 <= i < j < |names| ensures names[i] != names[j] {
      assert sup[i] in sup && sup[j] in sup;
    }
    forall n | n in names ensures n in m.nodes && n !in targets {
      var j :| 0 <= j < |names| && names[j] == n;
      assert sup[j] in sup;
    }
  }

  /** `get_support_nodes` for a key: every result is a choice the put protocol allows for. */
  method GetSupportNodes(m: Mapper, quorum: nat, key: Key, count: nat, offset: nat, flags: SupportNodes.Flags)
    returns (sup: seq<NodeName>)
    requires m.Valid(quorum)
    ensures IsSupportChoice(m, m.Targets(key), count, sup)
  {
    var targets := m.Targets(key);
    TargetsConserveReplicas(m, quorum, key);
    assert forall n | n in targets :: n in Elems(targets);
    var indexes := SupportNodes.SupportFrom(|m.nodes|, IndexesOf(m.nodes, targets), count, offset, flags, 0, {});
    SelectionIsChoice(m, targets, count, indexes);
    sup := NamesAt(m.nodes, indexes);
  }
}
