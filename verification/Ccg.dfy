/**
 The cluster config generator: vdisk replicas are placed greedily on the least used disks, with
 use counters for disks, nodes and racks.
 */
module Ccg {
  import opened Types
  import opened Topology

  type RackName = string

  datatype Node = Node(name: NodeName, disks: seq<DiskName>)
  datatype Rack = Rack(name: RackName, nodes: seq<Node>)

  /** A disk with the node and the rack it is in. */
  datatype Place = Place(rack: RackName, node: NodeName, disk: DiskName) {
    function Replica(): Replica {
      Topology.Replica(node, disk)
    }
  }

  datatype Counter = Counter(
    racks: map<RackName, nat>, nodes: map<NodeName, nat>, disks: map<NodeName, map<DiskName, nat>>)

  const REPLICA_IN_FIRST_RACK := 2

  // ---- the hardware ----

  /** What `Center::validate` checks: rack names and node names are unique. */
  ghost predicate ValidRacks(racks: seq<Rack>) {
    && (forall i, j | 0 <= i < j < |racks| :: racks[i].name != racks[j].name)
    && (forall i | 0 <= i < |racks| :: ValidNodes(racks[i].nodes))
    && (forall i, j, a, b | 0 <= i < j < |racks| && 0 <= a < |racks[i].nodes| && 0 <= b < |racks[j].nodes| ::
          racks[i].nodes[a].name != racks[j].nodes[b].name)
  }

  ghost predicate ValidNodes(nodes: seq<Node>) {
    forall a, b | 0 <= a < b < |nodes| :: nodes[a].name != nodes[b].name
  }

  function DisksOfNode(rack: RackName, node: Node): seq<Place> {
    seq(|node.disks|, i requires 0 <= i < |node.disks| => Place(rack, node.name, node.disks[i]))
  }

  /** Disks of the nodes that are not banned, in order. */
  function DisksOf(rack: RackName, nodes: seq<Node>, banned: seq<NodeName>): seq<Place> {
    if nodes == [] then []
    else (if nodes[0].name in banned then []
          else DisksOfNode(rack, nodes[0]))
         + DisksOf(rack, nodes[1..], banned)
  }

  function AllDisks(racks: seq<Rack>): seq<Place> {
    if racks == [] then [] else DisksOf(racks[0].name, racks[0].nodes, []) + AllDisks(racks[1..])
  }

  ghost predicate InNodes(p: Place, nodes: seq<Node>) {
    exists n | n in nodes :: n.name == p.node && p.disk in n.disks
  }

  ghost predicate InRacks(p: Place, racks: seq<Rack>) {
    exists r | r in racks :: r.name == p.rack && InNodes(p, r.nodes)
  }

  lemma {:induction false} DisksOfContents(rack: RackName, nodes: seq<Node>, banned: seq<NodeName>)
    ensures forall p :: p in DisksOf(rack, nodes, banned) <==> p.rack == rack && p.node !in banned && InNodes(p, nodes)
  {
    if nodes != [] {
      DisksOfContents(rack, nodes[1..], banned);
      var head := DisksOfNode(rack, nodes[0]);
      assert forall n :: n in nodes <==> n == nodes[0] || n in nodes[1..];
      forall p ensures p in head <==> p.rack == rack && p.node == nodes[0].name && p.disk in nodes[0].disks {
        if p.rack == rack && p.node == nodes[0].name && p.disk in nodes[0].disks {
          var i :| 0 <= i < |nodes[0].disks| && nodes[0].disks[i] == p.disk;
          assert head[i] == p;
        }
      }
    }
  }

  lemma {:induction false} AllDisksContents(racks: seq<Rack>)
    ensures forall p :: p in AllDisks(racks) <==> InRacks(p, racks)
  {
    if racks != [] {
      AllDisksContents(racks[1..]);
      DisksOfContents(racks[0].name, racks[0].nodes, []);
      assert forall r :: r in racks <==> r == racks[0] || r in racks[1..];
    }
  }

  // ---- the counters ----

  ghost function SumMap(m: map<DiskName, nat>): nat {
    if m == map[] then 0 else
      var k :| k in m;
      m[k] + SumMap(m - {k})
  }

  lemma {:induction false} SumMapAny(m: map<DiskName, nat>, k: DiskName)
    requires k in m
    ensures SumMap(m) == m[k] + SumMap(m - {k})
    decreases |m|
  {
    var j :| j in m && SumMap(m) == m[j] + SumMap(m - {j});
    if j != k {
      SumMapAny(m - {j}, k);
      SumMapAny(m - {k}, j);
      assert m - {j} - {k} == m - {k} - {j};
    }
  }

  lemma SumMapInc(m: map<DiskName, nat>, k: DiskName)
    requires k in m
    ensures SumMap(m[k := m[k] + 1]) == SumMap(m) + 1
  {
    var m' := m[k := m[k] + 1];
    SumMapAny(m, k);
    SumMapAny(m', k);
    assert m - {k} == m' - {k};
  }

  ghost function SumNodes(nodes: seq<Node>, used: map<NodeName, nat>): nat
    requires forall n | n in nodes :: n.name in used
  {
    if nodes == [] then 0 else used[nodes[0].name] + SumNodes(nodes[1..], used)
  }

  lemma {:induction false} SumNodesInc(nodes: seq<Node>, used: map<NodeName, nat>, name: NodeName)
    requires (forall n | n in nodes :: n.name in used) && name in used && ValidNodes(nodes)
    ensures SumNodes(nodes, used[name := used[name] + 1])
         == SumNodes(nodes, used) + if exists n | n in nodes :: n.name == name then 1 else 0
  {
    if nodes != [] {
      SumNodesInc(nodes[1..], used, name);
      assert forall n :: n in nodes <==> n == nodes[0] || n in nodes[1..];
      forall n | n in nodes[1..] ensures n.name != nodes[0].name {
        var b :| 0 <= b < |nodes[1..]| && nodes[1..][b] == n;
        assert nodes[b + 1] == n;
      }
    }
  }

  function Used(c: Counter, p: Place): nat
    requires p.node in c.disks && p.disk in c.disks[p.node]
  {
    c.disks[p.node][p.disk]
  }

  /** Counters exist for exactly the racks, nodes and disks of the hardware. */
  ghost predicate Counts(c: Counter, racks: seq<Rack>) {
    && (forall r | r in racks :: r.name in c.racks)
    && (forall r, n | r in racks && n in r.nodes ::
          && n.name in c.nodes
          && (n.disks != [] ==> n.name in c.disks)
          && (n.name in c.disks ==> c.disks[n.name].Keys == Elems(n.disks)))
  }

  /** Disks of one node differ by at most one. */
  ghost predicate Balanced(c: Counter) {
    forall n, d, e | n in c.disks && d in c.disks[n] && e in c.disks[n] :: c.disks[n][d] <= c.disks[n][e] + 1
  }

  /** Node counters are the sums over their disks and rack counters the sums over their nodes. */
  ghost predicate Sums(c: Counter, racks: seq<Rack>)
    requires Counts(c, racks)
  {
    && (forall r | r in racks :: c.racks[r.name] == SumNodes(r.nodes, c.nodes))
    && (forall r, n | r in racks && n in r.nodes ::
          c.nodes[n.name] == if n.name in c.disks then SumMap(c.disks[n.name]) else 0)
  }

  function Inc(c: Counter, p: Place): Counter
    requires p.rack in c.racks && p.node in c.nodes && p.node in c.disks && p.disk in c.disks[p.node]
  {
    Counter(c.racks[p.rack := c.racks[p.rack] + 1],
            c.nodes[p.node := c.nodes[p.node] + 1],
            c.disks[p.node := c.disks[p.node][p.disk := c.disks[p.node][p.disk] + 1]])
  }

  /** No disk of the same node is used less. */
  ghost predicate LeastInNode(c: Counter, p: Place) {
    && p.node in c.disks && p.disk in c.disks[p.node]
    && forall d | d in c.disks[p.node] :: c.disks[p.node][p.disk] <= c.disks[p.node][d]
  }

  lemma PlaceCounted(c: Counter, racks: seq<Rack>, p: Place)
    requires Counts(c, racks) && InRacks(p, racks)
    ensures p.rack in c.racks && p.node in c.nodes && p.node in c.disks && p.disk in c.disks[p.node]
  {
    var r :| r in racks && r.name == p.rack && InNodes(p, r.nodes);
    var n :| n in r.nodes && n.name == p.node && p.disk in n.disks;
    assert p.disk in Elems(n.disks);
  }

  lemma SameName(racks: seq<Rack>, r: Rack, n: Node, r': Rack, n': Node)
    requires ValidRacks(racks) && r in racks && n in r.nodes && r' in racks && n' in r'.nodes && n.name == n'.name
    ensures r == r' && n == n'
  {
    var i :| 0 <= i < |racks| && racks[i] == r;
    var j :| 0 <= j < |racks| && racks[j] == r';
    var a :| 0 <= a < |racks[i].nodes| && racks[i].nodes[a] == n;
    var b :| 0 <= b < |racks[j].nodes| && racks[j].nodes[b] == n';
    if i != j {
      assert false;
    } else {
      assert ValidNodes(racks[i].nodes);
    }
  }

  lemma SameRack(racks: seq<Rack>, r: Rack, r': Rack)
    requires ValidRacks(racks) && r in racks && r' in racks && r.name == r'.name
    ensures r == r'
  {
    var i :| 0 <= i < |racks| && racks[i] == r;
    var j :| 0 <= j < |racks| && racks[j] == r';
    assert i == j;
  }

  lemma IncRackSum(c: Counter, racks: seq<Rack>, p: Place, r0: Rack, n0: Node, r: Rack)
    requires ValidRacks(racks) && Counts(c, racks) && Sums(c, racks)
    requires r0 in racks && r0.name == p.rack && n0 in r0.nodes && n0.name == p.node
    requires p.node in c.disks && p.disk in c.disks[p.node] && r in racks
    ensures Inc(c, p).racks[r.name] == SumNodes(r.nodes, Inc(c, p).nodes)
  {
    var i :| 0 <= i < |racks| && racks[i] == r;
    assert ValidNodes(racks[i].nodes);
    SumNodesInc(r.nodes, c.nodes, p.node);
    if n :| n in r.nodes && n.name == p.node {
      SameName(racks, r, n, r0, n0);
    } else if r.name == r0.name {
      SameRack(racks, r, r0);
    }
  }

  lemma IncCounts(c: Counter, racks: seq<Rack>, p: Place)
    requires Counts(c, racks) && InRacks(p, racks)
    ensures p.rack in c.racks && p.node in c.nodes && p.node in c.disks && p.disk in c.disks[p.node]
    ensures Counts(Inc(c, p), racks)
  {
    PlaceCounted(c, racks, p);
    assert Inc(c, p).disks[p.node].Keys == c.disks[p.node].Keys;
  }

  lemma IncBalanced(c: Counter, p: Place)
    requires p.rack in c.racks && p.node in c.nodes && Balanced(c) && LeastInNode(c, p)
    ensures Balanced(Inc(c, p))
  {
  }

  lemma IncNodeSum(c: Counter, racks: seq<Rack>, p: Place, r: Rack, n: Node)
    requires Counts(c, racks) && Sums(c, racks) && r in racks && n in r.nodes
    requires p.rack in c.racks && p.node in c.nodes && p.node in c.disks && p.disk in c.disks[p.node]
    ensures Inc(c, p).nodes[n.name] == if n.name in Inc(c, p).disks then SumMap(Inc(c, p).disks[n.name]) else 0
  {
    if n.name == p.node {
      SumMapInc(c.disks[p.node], p.disk);
    }
  }

  lemma IncSums(c: Counter, racks: seq<Rack>, p: Place)
    requires ValidRacks(racks) && Counts(c, racks) && Sums(c, racks) && InRacks(p, racks)
    requires p.rack in c.racks && p.node in c.nodes && p.node in c.disks && p.disk in c.disks[p.node]
    requires Counts(Inc(c, p), racks)
    ensures Sums(Inc(c, p), racks)
  {
    var r0 :| r0 in racks && r0.name == p.rack && InNodes(p, r0.nodes);
    var n0 :| n0 in r0.nodes && n0.name == p.node;
    forall r | r in racks ensures Inc(c, p).racks[r.name] == SumNodes(r.nodes, Inc(c, p).nodes) {
      IncRackSum(c, racks, p, r0, n0, r);
    }
    forall r, n | r in racks && n in r.nodes
      ensures Inc(c, p).nodes[n.name] == if n.name in Inc(c, p).disks then SumMap(Inc(c, p).disks[n.name]) else 0
    {
      IncNodeSum(c, racks, p, r, n);
    }
  }

  /** Placing on a least used disk of its node keeps the three levels of counters right. */
  lemma IncKeeps(c: Counter, racks: seq<Rack>, p: Place)
    requires ValidRacks(racks) && Counts(c, racks) && Sums(c, racks) && Balanced(c)
    requires InRacks(p, racks) && LeastInNode(c, p)
    ensures p.rack in c.racks && p.node in c.nodes
    ensures Counts(Inc(c, p), racks) && Sums(Inc(c, p), racks) && Balanced(Inc(c, p))
  {
    IncCounts(c, racks, p);
    IncBalanced(c, p);
    IncSums(c, racks, p);
  }

  // ---- the choices ----

  ghost predicate Counted(c: Counter, places: seq<Place>) {
    forall q | q in places :: q.node in c.disks && q.disk in c.disks[q.node]
  }

  ghost predicate Least(c: Counter, places: seq<Place>, p: Place) {
    Counted(c, places) && p in places && forall q | q in places :: Used(c, p) <= Used(c, q)
  }

  /** The first of the least used, which decides between old and new hardware: old disks are listed first. */
  ghost predicate FirstLeast(c: Counter, places: seq<Place>, p: Place) {
    && Least(c, places, p)
    && exists i | 0 <= i < |places| ::
         places[i] == p && forall j | 0 <= j < i :: places[j] in places && Used(c, p) < Used(c, places[j])
  }

  /** A least used one of the places that is also in the list. */
  ghost predicate ListedLeast(c: Counter, places: seq<Place>, list: seq<Replica>, p: Place) {
    Least(c, places, p) && p.Replica() in list
  }

  /** The first of these. */
  ghost predicate FirstListedLeast(c: Counter, places: seq<Place>, list: seq<Replica>, p: Place) {
    && ListedLeast(c, places, list, p)
    && exists i | 0 <= i < |places| ::
         places[i] == p && forall j | 0 <= j < i :: !ListedLeast(c, places, list, places[j])
  }

  /** Disks a vdisk may go to next: those on nodes it does not use yet, or all if there are none. */
  function Candidates(rack: Rack, banned: seq<NodeName>): seq<Place> {
    if DisksOf(rack.name, rack.nodes, banned) != [] then DisksOf(rack.name, rack.nodes, banned)
    else DisksOf(rack.name, rack.nodes, [])
  }

  /** The first of the least used disks. */
  function LeastPlace(c: Counter, places: seq<Place>): (p: Place)
    requires Counted(c, places) && places != []
    ensures p in places
  {
    var last := places[|places| - 1];
    if |places| == 1 then last else
      var p := LeastPlace(c, places[..|places| - 1]);
      if Used(c, last) < Used(c, p) then last else p
  }

  /** The first disk of the list among those used `least` times. */
  function ListedPlace(c: Counter, places: seq<Place>, least: nat, list: seq<Replica>): Option<Place>
    requires Counted(c, places)
  {
    if places == [] then None
    else if Used(c, places[0]) == least && places[0].Replica() in list then Some(places[0])
    else ListedPlace(c, places[1..], least, list)
  }

  /** The first least used disk of the list, or the first least used one. */
  function PreferredPlace(c: Counter, places: seq<Place>, list: seq<Replica>): (p: Place)
    requires Counted(c, places) && places != []
  {
    var first := LeastPlace(c, places);
    var listed := ListedPlace(c, places, Used(c, first), list);
    if listed.Some? then listed.value else first
  }

  /** The first listed one among the least used disks, and without such a disk the first least used of the others. */
  ghost predicate ChosenAmong(c: Counter, places: seq<Place>, others: seq<Place>, list: seq<Replica>, p: Place) {
    if exists q :: ListedLeast(c, places, list, q) then FirstListedLeast(c, places, list, p)
    else FirstLeast(c, others, p)
  }

  /** The disk at `i` is used less than all before it and at most as often as all. */
  ghost predicate LeastAt(c: Counter, places: seq<Place>, i: nat)
    requires Counted(c, places)
  {
    && i < |places|
    && (forall j | 0 <= j < |places| :: places[j] in places && Used(c, places[i]) <= Used(c, places[j]))
    && (forall j | 0 <= j < i :: places[j] in places && Used(c, places[i]) < Used(c, places[j]))
  }

  lemma LeastAtNext(c: Counter, places: seq<Place>, last: Place, i: nat, all: seq<Place>)
    requires all == places + [last] && Counted(c, all) && Counted(c, places) && LeastAt(c, places, i)
    requires last.node in c.disks && last.disk in c.disks[last.node]
    ensures LeastAt(c, all, if Used(c, last) < Used(c, places[i]) then |places| else i)
  {
    forall j | 0 <= j < |all| ensures all[j] in all && (j < |places| ==> all[j] == places[j] && places[j] in places) {
    }
  }

  lemma {:induction false} LeastPlaceIndex(c: Counter, places: seq<Place>) returns (i: nat)
    requires Counted(c, places) && places != []
    ensures LeastAt(c, places, i) && places[i] == LeastPlace(c, places)
  {
    var init, last := places[..|places| - 1], places[|places| - 1];
    i := 0;
    if init != [] {
      Unsnoc(places);
      i := LeastPlaceIndex(c, init);
      LeastAtNext(c, init, last, i, places);
      i := if Used(c, last) < Used(c, init[i]) then |init| else i;
    }
  }

  lemma LeastPlaceIsFirst(c: Counter, places: seq<Place>)
    requires Counted(c, places) && places != []
    ensures FirstLeast(c, places, LeastPlace(c, places))
  {
    var i := LeastPlaceIndex(c, places);
  }

  lemma {:induction false} ListedPlaceMeaning(c: Counter, places: seq<Place>, least: nat, list: seq<Replica>)
    requires Counted(c, places)
    ensures var r := ListedPlace(c, places, least, list);
            if r.Some? then r.value in places && Used(c, r.value) == least && r.value.Replica() in list
            else forall q | q in places && Used(c, q) == least :: q.Replica() !in list
  {
    if places != [] {
      ListedPlaceMeaning(c, places[1..], least, list);
      assert forall q :: q in places <==> q == places[0] || q in places[1..];
    }
  }

  /** No listed disk used `least` times comes before the one found. */
  lemma {:induction false} ListedPlaceIndex(c: Counter, places: seq<Place>, least: nat, list: seq<Replica>)
    returns (i: nat)
    requires Counted(c, places) && ListedPlace(c, places, least, list).Some?
    ensures i < |places| && places[i] == ListedPlace(c, places, least, list).value
    ensures forall j | 0 <= j < i ::
              places[j] in places && !(Used(c, places[j]) == least && places[j].Replica() in list)
  {
    i := 0;
    if !(Used(c, places[0]) == least && places[0].Replica() in list) {
      var k := ListedPlaceIndex(c, places[1..], least, list);
      i := k + 1;
      forall j | 0 <= j < i
        ensures places[j] in places && !(Used(c, places[j]) == least && places[j].Replica() in list)
      {
        if j > 0 {
          assert places[1..][j - 1] == places[j];
        }
      }
    }
  }

  lemma ListedIsFirst(c: Counter, places: seq<Place>, m: Place, list: seq<Replica>, p: Place)
    requires Counted(c, places) && Least(c, places, m) && ListedPlace(c, places, Used(c, m), list) == Some(p)
    ensures FirstListedLeast(c, places, list, p)
  {
    ListedPlaceMeaning(c, places, Used(c, m), list);
    var i := ListedPlaceIndex(c, places, Used(c, m), list);
    forall j | 0 <= j < i ensures !ListedLeast(c, places, list, places[j]) {
      if Least(c, places, places[j]) {
        assert Used(c, places[j]) == Used(c, m);
      }
    }
  }

  method MinByKey(c: Counter, places: seq<Place>) returns (r: Option<Place>)
    requires Counted(c, places)
    ensures r.None? <==> places == []
    ensures r.Some? ==> FirstLeast(c, places, r.value) && r.value == LeastPlace(c, places)
  {
    if places == [] {
      return None;
    }
    var p := places[0];
    for i := 1 to |places|
      invariant p in places && p == LeastPlace(c, places[..i])
    {
      assert places[..i + 1][..i] == places[..i];
      if Used(c, places[i]) < Used(c, p) {
        p := places[i];
      }
    }
    assert places[..|places|] == places;
    LeastPlaceIsFirst(c, places);
    r := Some(p);
  }

  method FindPlace(c: Counter, places: seq<Place>, least: nat, list: seq<Replica>) returns (r: Option<Place>)
    requires Counted(c, places)
    ensures r == ListedPlace(c, places, least, list)
  {
    for i := 0 to |places|
      invariant ListedPlace(c, places, least, list) == ListedPlace(c, places[i..], least, list)
    {
      assert places[i..][1..] == places[i + 1..];
      if Used(c, places[i]) == least && places[i].Replica() in list {
        return Some(places[i]);
      }
    }
    r := None;
  }

  lemma PreferredIsChosen(c: Counter, places: seq<Place>, list: seq<Replica>)
    requires Counted(c, places) && places != []
    ensures Least(c, places, PreferredPlace(c, places, list))
    ensures ChosenAmong(c, places, places, list, PreferredPlace(c, places, list))
  {
    var m := LeastPlace(c, places);
    LeastPlaceIsFirst(c, places);
    ListedPlaceMeaning(c, places, Used(c, m), list);
    var listed := ListedPlace(c, places, Used(c, m), list);
    if listed.Some? {
      ListedIsFirst(c, places, m, list, listed.value);
    }
  }

  /** The first least used disk that is also in the list, if there is one. */
  method MinFromList(c: Counter, places: seq<Place>, list: seq<Replica>) returns (r: Option<Place>)
    requires Counted(c, places)
    ensures r.Some? ==> FirstListedLeast(c, places, list, r.value)
    ensures r.None? ==> forall q :: !ListedLeast(c, places, list, q)
    ensures places != [] ==> r == ListedPlace(c, places, Used(c, LeastPlace(c, places)), list)
  {
    var m := MinByKey(c, places);
    if m.None? {
      return None;
    }
    r := FindPlace(c, places, Used(c, m.value), list);
    ListedPlaceMeaning(c, places, Used(c, m.value), list);
    if r.Some? {
      ListedIsFirst(c, places, m.value, list, r.value);
    }
  }

  /** A least used disk among all disks of some nodes is least used in its node. */
  lemma LeastOfNode(c: Counter, racks: seq<Rack>, rack: Rack, banned: seq<NodeName>, p: Place)
    requires ValidRacks(racks) && Counts(c, racks) && rack in racks
    requires Least(c, DisksOf(rack.name, rack.nodes, banned), p)
    ensures InRacks(p, racks) && LeastInNode(c, p)
  {
    DisksOfContents(rack.name, rack.nodes, banned);
    var n :| n in rack.nodes && n.name == p.node && p.disk in n.disks;
    assert c.disks[n.name].Keys == Elems(n.disks);
    forall d | d in c.disks[p.node] ensures Used(c, p) <= c.disks[p.node][d] {
      var q := Place(rack.name, p.node, d);
      assert d in Elems(n.disks);
      assert InNodes(q, rack.nodes);
      assert q in DisksOf(rack.name, rack.nodes, banned);
    }
  }

  lemma LeastOfAll(c: Counter, racks: seq<Rack>, p: Place)
    requires ValidRacks(racks) && Counts(c, racks)
    requires Least(c, AllDisks(racks), p)
    ensures InRacks(p, racks) && LeastInNode(c, p)
  {
    AllDisksContents(racks);
    var r :| r in racks && r.name == p.rack && InNodes(p, r.nodes);
    var n :| n in r.nodes && n.name == p.node && p.disk in n.disks;
    assert c.disks[n.name].Keys == Elems(n.disks);
    forall d | d in c.disks[p.node] ensures Used(c, p) <= c.disks[p.node][d] {
      var q := Place(r.name, p.node, d);
      assert d in Elems(n.disks);
      assert InNodes(q, r.nodes) && InRacks(q, racks);
    }
  }

  lemma RackCounted(c: Counter, racks: seq<Rack>, rack: Rack, banned: seq<NodeName>)
    requires Counts(c, racks) && rack in racks
    ensures Counted(c, DisksOf(rack.name, rack.nodes, banned))
  {
    DisksOfContents(rack.name, rack.nodes, banned);
    forall q | q in DisksOf(rack.name, rack.nodes, banned) ensures q.node in c.disks && q.disk in c.disks[q.node] {
      assert InRacks(q, racks);
      PlaceCounted(c, racks, q);
    }
  }

  lemma CandidatesAllowed(rack: Rack, banned: seq<NodeName>, p: Place)
    requires p in Candidates(rack, banned)
    ensures p in DisksOf(rack.name, rack.nodes, [])
    ensures DisksOf(rack.name, rack.nodes, banned) != [] ==> p.node !in banned
  {
    DisksOfContents(rack.name, rack.nodes, banned);
    DisksOfContents(rack.name, rack.nodes, []);
  }

  /** `Rack::next_disk`: the first least used candidate. */
  method NextDisk(c: Counter, racks: seq<Rack>, rack: Rack, banned: seq<NodeName>) returns (r: Option<Place>)
    requires ValidRacks(racks) && Counts(c, racks) && rack in racks
    ensures r.None? <==> DisksOf(rack.name, rack.nodes, []) == []
    ensures r.Some? ==> FirstLeast(c, Candidates(rack, banned), r.value) && r.value in Candidates(rack, banned)
    ensures r.Some? ==> InRacks(r.value, racks) && LeastInNode(c, r.value)
  {
    RackCounted(c, racks, rack, banned);
    RackCounted(c, racks, rack, []);
    var fallback := MinByKey(c, DisksOf(rack.name, rack.nodes, []));
    if fallback.None? {
      return None;
    }
    r := MinByKey(c, DisksOf(rack.name, rack.nodes, banned));
    if r.None? {
      r := fallback;
      LeastOfNode(c, racks, rack, [], r.value);
    } else {
      LeastOfNode(c, racks, rack, banned, r.value);
    }
  }

  ghost predicate LeastRack(c: Counter, racks: seq<Rack>, rack: Rack)
    requires Counts(c, racks)
  {
    rack in racks && forall r | r in racks :: c.racks[rack.name] <= c.racks[r.name]
  }

  function FirstLeastRack(racks: seq<Rack>, counts: map<RackName, nat>): (rack: Rack)
    requires racks != [] && forall r | r in racks :: r.name in counts
    ensures rack in racks
  {
    var last := racks[|racks| - 1];
    if |racks| == 1 then last else
      var rack := FirstLeastRack(racks[..|racks| - 1], counts);
      if counts[last.name] < counts[rack.name] then last else rack
  }

  function FirstListed(racks: seq<Rack>, counts: map<RackName, nat>, least: nat, list: seq<RackName>): (r: Option<Rack>)
    requires forall r | r in racks :: r.name in counts
    ensures r.Some? ==> r.value in racks
  {
    if racks == [] then None
    else if counts[racks[0].name] == least && racks[0].name in list then Some(racks[0])
    else FirstListed(racks[1..], counts, least, list)
  }

  lemma {:induction false} FirstListedMeaning(racks: seq<Rack>, counts: map<RackName, nat>, least: nat,
                                              list: seq<RackName>)
    requires forall r | r in racks :: r.name in counts
    ensures var r := FirstListed(racks, counts, least, list);
            if r.Some? then counts[r.value.name] == least && r.value.name in list
            else forall k | k in racks && counts[k.name] == least :: k.name !in list
  {
    if racks != [] {
      FirstListedMeaning(racks[1..], counts, least, list);
      assert forall k :: k in racks <==> k == racks[0] || k in racks[1..];
    }
  }

  method FindListed(racks: seq<Rack>, counts: map<RackName, nat>, least: nat, list: seq<RackName>)
    returns (r: Option<Rack>)
    requires forall r | r in racks :: r.name in counts
    ensures r == FirstListed(racks, counts, least, list)
  {
    for i := 0 to |racks|
      invariant FirstListed(racks, counts, least, list) == FirstListed(racks[i..], counts, least, list)
    {
      assert racks[i..][1..] == racks[i + 1..];
      if counts[racks[i].name] == least && racks[i].name in list {
        return Some(racks[i]);
      }
    }
    r := None;
  }

  /** The first least used rack of the list, or the first least used one. */
  function ListedRack(racks: seq<Rack>, counts: map<RackName, nat>, list: seq<RackName>): (rack: Rack)
    requires racks != [] && forall r | r in racks :: r.name in counts
    ensures rack in racks
  {
    var first := FirstLeastRack(racks, counts);
    var listed := FirstListed(racks, counts, counts[first.name], list);
    if listed.Some? then listed.value else first
  }

  lemma {:induction false} FirstLeastRackIsFirst(racks: seq<Rack>, counts: map<RackName, nat>) returns (i: nat)
    requires racks != [] && forall r | r in racks :: r.name in counts
    ensures i < |racks| && racks[i] == FirstLeastRack(racks, counts)
    ensures forall j | 0 <= j < |racks| :: racks[j] in racks && counts[racks[i].name] <= counts[racks[j].name]
    ensures forall j | 0 <= j < i :: racks[j] in racks && counts[racks[i].name] < counts[racks[j].name]
  {
    var n := |racks| - 1;
    i := 0;
    if n > 0 {
      i := FirstLeastRackIsFirst(racks[..n], counts);
      forall j | 0 <= j < n ensures racks[j] in racks[..n] {
        assert racks[..n][j] == racks[j];
      }
      if counts[racks[n].name] < counts[racks[i].name] {
        i := n;
      }
    }
  }

  ghost predicate FirstOfLeast(c: Counter, racks: seq<Rack>, rack: Rack)
    requires Counts(c, racks)
  {
    exists i | 0 <= i < |racks| ::
      racks[i] == rack && forall j | 0 <= j < i :: racks[j] in racks && c.racks[rack.name] < c.racks[racks[j].name]
  }

  lemma FirstLeastRackMeaning(c: Counter, racks: seq<Rack>, rack: Rack)
    requires racks != [] && Counts(c, racks) && rack == FirstLeastRack(racks, c.racks)
    ensures LeastRack(c, racks, rack) && FirstOfLeast(c, racks, rack)
  {
    var k := FirstLeastRackIsFirst(racks, c.racks);
    forall r | r in racks ensures c.racks[rack.name] <= c.racks[r.name] {
      var j :| 0 <= j < |racks| && racks[j] == r;
    }
  }

  /** `next_rack`: the first of the least used racks. */
  method NextRack(c: Counter, racks: seq<Rack>) returns (rack: Rack)
    requires racks != [] && Counts(c, racks)
    ensures LeastRack(c, racks, rack) && FirstOfLeast(c, racks, rack)
    ensures rack == FirstLeastRack(racks, c.racks)
  {
    rack := racks[0];
    for i := 1 to |racks|
      invariant rack in racks && rack == FirstLeastRack(racks[..i], c.racks)
    {
      assert racks[..i + 1][..i] == racks[..i];
      if c.racks[racks[i].name] < c.racks[rack.name] {
        rack := racks[i];
      }
    }
    assert racks[..|racks|] == racks;
    FirstLeastRackMeaning(c, racks, rack);
  }
}
