/**
 Which disk each replica goes to, step by step, and how even the use of the disks of one rack stays
 over a whole generation.
 */
module Greedy {
  import opened Types
  import opened Topology
  import opened Ccg
  import opened RackSpread
  import opened Arith

  // ---- the steps ----

  ghost predicate Counting(c: Counter, p: Place) {
    p.rack in c.racks && p.node in c.nodes && p.node in c.disks && p.disk in c.disks[p.node]
  }

  /**
   The disk a replica goes to: the first listed one among the least used disks of the nodes not
   used yet, and without such a disk the first least used candidate.
   */
  ghost predicate Chosen(c: Counter, rack: Rack, banned: seq<NodeName>, list: seq<Replica>, p: Place) {
    ChosenAmong(c, DisksOf(rack.name, rack.nodes, banned), Candidates(rack, banned), list, p)
  }

  /** One replica in the named rack: the chosen disk, and its counters one higher. */
  ghost predicate Step(racks: seq<Rack>, c: Counter, c': Counter, name: RackName, before: seq<Replica>, x: Replica,
                       list: seq<Replica>) {
    exists rack, p | rack in racks ::
      && rack.name == name && Chosen(c, rack, NamesOf(before), list, p) && p.Replica() == x
      && Counting(c, p) && c' == Inc(c, p)
  }

  /** Counters between the replicas from index `k` on, each replica a step from one counter to the next. */
  ghost predicate Steps(racks: seq<Rack>, cs: seq<Counter>, plan: seq<RackName>, reps: seq<Replica>, list: seq<Replica>,
                        k: nat) {
    && |plan| == |reps| && k <= |reps| && |cs| == |reps| - k + 1
    && forall i | 0 <= i < |reps| - k :: Step(racks, cs[i], cs[i + 1], plan[k + i], reps[..k + i], reps[k + i], list)
  }

  ghost predicate Traced(racks: seq<Rack>, c: Counter, c': Counter, plan: seq<RackName>, reps: seq<Replica>,
                         list: seq<Replica>, k: nat) {
    exists cs: seq<Counter> :: Steps(racks, cs, plan, reps, list, k) && cs[0] == c && cs[|reps| - k] == c'
  }

  lemma TracedNone(racks: seq<Rack>, c: Counter, plan: seq<RackName>, reps: seq<Replica>, list: seq<Replica>)
    requires |plan| == |reps|
    ensures Traced(racks, c, c, plan, reps, list, |reps|)
  {
    var cs := [c];
    assert Steps(racks, cs, plan, reps, list, |reps|) && cs[0] == c;
  }

  lemma StepsNext(racks: seq<Rack>, cs: seq<Counter>, c': Counter, plan: seq<RackName>, plan': seq<RackName>,
                  reps: seq<Replica>, reps': seq<Replica>, list: seq<Replica>, k: nat)
    requires Steps(racks, cs, plan, reps, list, k) && |plan'| == |reps'| == |reps| + 1
    requires plan'[..|reps|] == plan && reps'[..|reps|] == reps
    requires Step(racks, cs[|reps| - k], c', plan'[|reps|], reps, reps'[|reps|], list)
    ensures Steps(racks, cs + [c'], plan', reps', list, k)
  {
    var cs' := cs + [c'];
    forall i | 0 <= i < |reps'| - k
      ensures Step(racks, cs'[i], cs'[i + 1], plan'[k + i], reps'[..k + i], reps'[k + i], list)
    {
      if i < |reps| - k {
        assert cs'[i] == cs[i] && cs'[i + 1] == cs[i + 1];
        assert plan'[k + i] == plan[k + i] && reps'[k + i] == reps[k + i] && reps'[..k + i] == reps[..k + i];
      }
    }
  }

  lemma TracedNext(racks: seq<Rack>, c: Counter, mid: Counter, c': Counter, plan: seq<RackName>, plan': seq<RackName>,
                   reps: seq<Replica>, reps': seq<Replica>, list: seq<Replica>, k: nat)
    requires Traced(racks, c, mid, plan, reps, list, k) && |plan'| == |reps'| == |reps| + 1
    requires plan'[..|reps|] == plan && reps'[..|reps|] == reps
    requires Step(racks, mid, c', plan'[|reps|], reps, reps'[|reps|], list)
    ensures Traced(racks, c, c', plan', reps', list, k)
  {
    var cs: seq<Counter> :| Steps(racks, cs, plan, reps, list, k) && cs[0] == c && cs[|reps| - k] == mid;
    StepsNext(racks, cs, c', plan, plan', reps, reps', list, k);
  }

  // ---- even use within one rack ----

  ghost function Load(c: Counter, n: NodeName): nat
    requires n in c.disks
  {
    SumMap(c.disks[n])
  }

  lemma {:induction false} SumMapWithin(m: map<DiskName, nat>, lo: nat, hi: nat)
    requires forall d | d in m :: lo <= m[d] <= hi
    ensures |m| * lo <= SumMap(m) <= |m| * hi
    decreases |m|
  {
    if m != map[] {
      var k :| k in m;
      SumMapAny(m, k);
      SumMapWithin(m - {k}, lo, hi);
      assert |m - {k}| == |m| - 1 by {
        assert (m - {k}).Keys == m.Keys - {k};
      }
      Distribute(lo, |m| - 1, 1);
      Distribute(hi, |m| - 1, 1);
    }
  }

  /** The same with one value known. */
  lemma SumMapWithOne(m: map<DiskName, nat>, lo: nat, hi: nat, k: DiskName)
    requires k in m && forall d | d in m :: lo <= m[d] <= hi
    ensures |m| * lo + (m[k] - lo) <= SumMap(m) <= |m| * hi - (hi - m[k])
  {
    SumMapAny(m, k);
    SumMapWithin(m - {k}, lo, hi);
    assert |m - {k}| == |m| - 1 by {
      assert (m - {k}).Keys == m.Keys - {k};
    }
    Distribute(lo, |m| - 1, 1);
    Distribute(hi, |m| - 1, 1);
  }

  /** The load per disk of a node with `da` disks is at most one above that of a node with no more, `db`, disks. */
  ghost predicate LoadsClose(da: nat, db: nat, a: nat, b: nat) {
    db <= da ==> db * a <= da * b + da * db
  }

  lemma FewerIsCloser(da: nat, db: nat, a: nat, b: nat)
    requires LoadsClose(da, db, a + 1, b)
    ensures LoadsClose(da, db, a, b)
  {
    Distribute(db, a, 1);
  }

  lemma BothMore(da: nat, db: nat, a: nat, b: nat)
    requires LoadsClose(da, db, a, b)
    ensures LoadsClose(da, db, a + 1, b + 1)
  {
    Distribute(db, a, 1);
    Distribute(da, b, 1);
  }

  /** A node whose least used disk is used no more than any of another may take one more replica. */
  lemma LevelsAllow(da: nat, db: nat, a: nat, b: nat, u: nat)
    requires a + 1 <= da * (u + 1) && db * u <= b
    ensures LoadsClose(da, db, a + 1, b)
  {
    if db <= da {
      MulOrder(db, a + 1, da * (u + 1));
      MulOrder(da, db * u, b);
      Regroup(da, db, u);
    }
  }

  lemma MulOrder(k: nat, x: nat, y: nat)
    requires x <= y
    ensures k * x <= k * y
  {
    Distribute(k, x, y - x);
  }

  lemma Regroup(da: nat, db: nat, u: nat)
    ensures db * (da * (u + 1)) == da * (db * u) + da * db
  {
    Distribute(da, u, 1);
    Distribute(db, da * u, da);
    MulAssoc(db, da, u);
    MulAssoc(da, db, u);
  }

  /**
   How the use of two nodes compares while a vdisk is placed on nodes `names`: as at the start, and
   with one to spare while the second node has its replica and the first has not.
   */
  ghost predicate Close(c: Counter, names: seq<NodeName>, a: NodeName, b: NodeName)
    requires a in c.disks && b in c.disks
  {
    var spare := if b in names && a !in names then 1 else 0;
    && LoadsClose(|c.disks[a]|, |c.disks[b]|, Load(c, a) + spare, Load(c, b))
    && forall d | d in c.disks[a] :: c.disks[a][d] + spare <= Load(c, b) + 1
  }

  /** The place is used no more than any disk of the node, unless the node already has a replica. */
  ghost predicate NoMore(c: Counter, names: seq<NodeName>, p: Place, n: NodeName)
    requires p.node in c.disks && p.disk in c.disks[p.node] && n in c.disks
  {
    n in names || forall d | d in c.disks[n] :: Used(c, p) <= c.disks[n][d]
  }

  lemma OneMoreOn(c: Counter, p: Place, c': Counter, n: NodeName)
    requires Counting(c, p) && c' == Inc(c, p) && n in c.disks
    ensures n in c'.disks && |c'.disks[n]| == |c.disks[n]|
    ensures Load(c', n) == Load(c, n) + if n == p.node then 1 else 0
    ensures n != p.node ==> c'.disks[n] == c.disks[n]
    ensures forall d | d in c.disks[n] ::
              d in c'.disks[n] && c'.disks[n][d] == c.disks[n][d] + if n == p.node && d == p.disk then 1 else 0
  {
    if n == p.node {
      SumMapInc(c.disks[n], p.disk);
      assert c'.disks[n].Keys == c.disks[n].Keys;
    }
  }

  /** A replica on the second node. */
  lemma CloseSecond(c: Counter, names: seq<NodeName>, p: Place, c': Counter, names': seq<NodeName>, a: NodeName)
    requires a in c.disks && a != p.node && Counting(c, p) && c' == Inc(c, p)
    requires p.node !in names && names' == names + [p.node] && Close(c, names, a, p.node)
    ensures Close(c', names', a, p.node)
  {
    OneMoreOn(c, p, c', a);
    OneMoreOn(c, p, c', p.node);
    BothMore(|c.disks[a]|, |c.disks[p.node]|, Load(c, a), Load(c, p.node));
    if a in names {
      FewerIsCloser(|c.disks[a]|, |c.disks[p.node]|, Load(c, a), Load(c, p.node) + 1);
    }
  }

  /** A replica on the first node, after one on the second. */
  lemma CloseFirstLater(c: Counter, names: seq<NodeName>, p: Place, c': Counter, names': seq<NodeName>, b: NodeName)
    requires b in c.disks && b != p.node && Counting(c, p) && c' == Inc(c, p)
    requires p.node !in names && names' == names + [p.node] && b in names && Close(c, names, p.node, b)
    ensures Close(c', names', p.node, b)
  {
    OneMoreOn(c, p, c', b);
    OneMoreOn(c, p, c', p.node);
    assert c'.disks[p.node].Keys == c.disks[p.node].Keys;
  }

  /** A replica on the first node while the second was free, too. */
  lemma CloseFirst(c: Counter, names: seq<NodeName>, p: Place, c': Counter, names': seq<NodeName>, b: NodeName)
    requires b in c.disks && c.disks[b] != map[] && b != p.node && Counting(c, p) && c' == Inc(c, p)
    requires p.node !in names && names' == names + [p.node] && b !in names && Close(c, names, p.node, b)
    requires LeastInNode(c, p) && Balanced(c) && NoMore(c, names, p, b)
    ensures Close(c', names', p.node, b)
  {
    OneMoreOn(c, p, c', b);
    OneMoreOn(c, p, c', p.node);
    assert c'.disks[p.node].Keys == c.disks[p.node].Keys;
    FirstTakesOne(c, names, p, b, Load(c, p.node) + 1);
  }

  lemma FirstTakesOne(c: Counter, names: seq<NodeName>, p: Place, b: NodeName, load: nat)
    requires b in c.disks && c.disks[b] != map[] && LeastInNode(c, p) && Balanced(c)
    requires b !in names && NoMore(c, names, p, b) && load == Load(c, p.node) + 1
    ensures LoadsClose(|c.disks[p.node]|, |c.disks[b]|, load, Load(c, b)) && Used(c, p) <= Load(c, b)
  {
    RoomForOne(c, p);
    AtLeastLevel(c.disks[b], Used(c, p));
    LevelsAllow(|c.disks[p.node]|, |c.disks[b]|, Load(c, p.node), Load(c, b), Used(c, p));
  }

  /** A node is not used more than once per disk above its least used disk. */
  lemma RoomForOne(c: Counter, p: Place)
    requires LeastInNode(c, p) && Balanced(c)
    ensures Load(c, p.node) + 1 <= |c.disks[p.node]| * (Used(c, p) + 1)
  {
    SumMapWithOne(c.disks[p.node], Used(c, p), Used(c, p) + 1, p.disk);
  }

  lemma AtLeastLevel(m: map<DiskName, nat>, u: nat)
    requires m != map[] && forall d | d in m :: u <= m[d]
    ensures |m| * u <= SumMap(m) && u <= SumMap(m)
  {
    var k :| k in m;
    SumMapAny(m, k);
    SumMapAbove(m, u);
  }

  lemma {:induction false} SumMapAbove(m: map<DiskName, nat>, u: nat)
    requires forall d | d in m :: u <= m[d]
    ensures |m| * u <= SumMap(m)
    decreases |m|
  {
    if m != map[] {
      var k :| k in m;
      SumMapAny(m, k);
      SumMapAbove(m - {k}, u);
      assert |m - {k}| == |m| - 1 by {
        assert (m - {k}).Keys == m.Keys - {k};
      }
      Distribute(u, |m| - 1, 1);
    }
  }

  lemma CloseElsewhere(c: Counter, names: seq<NodeName>, p: Place, c': Counter, names': seq<NodeName>, a: NodeName,
                       b: NodeName)
    requires a in c.disks && b in c.disks && a != p.node && b != p.node && Counting(c, p) && c' == Inc(c, p)
    requires names' == names + [p.node] && Close(c, names, a, b)
    ensures Close(c', names', a, b)
  {
    OneMoreOn(c, p, c', a);
    OneMoreOn(c, p, c', b);
  }

  lemma CloseStep(c: Counter, names: seq<NodeName>, p: Place, c': Counter, names': seq<NodeName>, a: NodeName,
                  b: NodeName)
    requires a in c.disks && b in c.disks && c.disks[b] != map[] && a != b && Counting(c, p) && c' == Inc(c, p)
    requires p.node !in names && names' == names + [p.node] && Close(c, names, a, b)
    requires LeastInNode(c, p) && Balanced(c) && NoMore(c, names, p, b)
    ensures Close(c', names', a, b)
  {
    if b == p.node {
      CloseSecond(c, names, p, c', names', a);
    } else if a != p.node {
      CloseElsewhere(c, names, p, c', names', a, b);
    } else if b in names {
      CloseFirstLater(c, names, p, c', names', b);
    } else {
      CloseFirst(c, names, p, c', names', b);
    }
  }

  /** Counters right, and any two nodes of the rack close. */
  ghost predicate Fair(rack: Rack, c: Counter, names: seq<NodeName>) {
    && Counts(c, [rack]) && Balanced(c)
    && forall a, b | a in NodesWithDisks(rack.nodes) && b in NodesWithDisks(rack.nodes) && a != b ::
         a in c.disks && b in c.disks && Close(c, names, a, b)
  }

  lemma NodeCounted(rack: Rack, c: Counter, a: NodeName)
    requires Counts(c, [rack]) && a in NodesWithDisks(rack.nodes)
    ensures a in c.disks && c.disks[a] != map[]
    ensures forall d | d in c.disks[a] :: InNodes(Place(rack.name, a, d), rack.nodes)
  {
    var n :| n in rack.nodes && n.disks != [] && n.name == a;
    assert n.disks[0] in Elems(n.disks);
  }

  lemma FreeNodesNoMore(rack: Rack, c: Counter, names: seq<NodeName>, p: Place, b: NodeName)
    requires Counts(c, [rack]) && Least(c, DisksOf(rack.name, rack.nodes, names), p) && Counting(c, p)
    requires b in NodesWithDisks(rack.nodes)
    ensures b in c.disks && NoMore(c, names, p, b)
  {
    NodeCounted(rack, c, b);
    if b !in names {
      DisksOfContents(rack.name, rack.nodes, names);
      forall d | d in c.disks[b] ensures Used(c, p) <= c.disks[b][d] {
        var q := Place(rack.name, b, d);
        assert q in DisksOf(rack.name, rack.nodes, names);
        assert Used(c, q) == c.disks[b][d];
      }
    }
  }

  lemma FairPair(rack: Rack, c: Counter, names: seq<NodeName>, p: Place, c': Counter, names': seq<NodeName>,
                 a: NodeName, b: NodeName)
    requires Counts(c, [rack]) && Balanced(c) && Least(c, DisksOf(rack.name, rack.nodes, names), p)
    requires Counting(c, p) && LeastInNode(c, p) && c' == Inc(c, p) && p.node !in names && names' == names + [p.node]
    requires a in NodesWithDisks(rack.nodes) && b in NodesWithDisks(rack.nodes) && a != b
    requires a in c.disks && b in c.disks && Close(c, names, a, b)
    ensures a in c'.disks && b in c'.disks && Close(c', names', a, b)
  {
    NodeCounted(rack, c, b);
    FreeNodesNoMore(rack, c, names, p, b);
    CloseStep(c, names, p, c', names', a, b);
  }

  lemma StillCounts(rack: Rack, c: Counter, names: seq<NodeName>, p: Place, c': Counter)
    requires ValidRacks([rack]) && Counts(c, [rack]) && Balanced(c)
    requires Least(c, DisksOf(rack.name, rack.nodes, names), p) && Counting(c, p) && c' == Inc(c, p)
    ensures Counts(c', [rack]) && Balanced(c') && LeastInNode(c, p) && p.node !in names
  {
    DisksOfContents(rack.name, rack.nodes, names);
    LeastOfNode(c, [rack], rack, names, p);
    IncCounts(c, [rack], p);
    IncBalanced(c, p);
  }

  /** A least used disk of the nodes not used yet keeps the use of the rack fair. */
  lemma FairStep(rack: Rack, c: Counter, names: seq<NodeName>, p: Place, c': Counter, names': seq<NodeName>)
    requires ValidRacks([rack]) && Fair(rack, c, names) && Least(c, DisksOf(rack.name, rack.nodes, names), p)
    requires Counting(c, p) && c' == Inc(c, p) && names' == names + [p.node]
    ensures Fair(rack, c', names')
  {
    StillCounts(rack, c, names, p, c');
    forall a, b | a in NodesWithDisks(rack.nodes) && b in NodesWithDisks(rack.nodes) && a != b
      ensures a in c'.disks && b in c'.disks && Close(c', names', a, b)
    {
      FairPair(rack, c, names, p, c', names', a, b);
    }
  }

  lemma FairAgain(rack: Rack, c: Counter, names: seq<NodeName>)
    requires Fair(rack, c, names)
    ensures Fair(rack, c, [])
  {
    forall a, b | a in NodesWithDisks(rack.nodes) && b in NodesWithDisks(rack.nodes) && a != b
      ensures a in c.disks && b in c.disks && Close(c, [], a, b)
    {
      CloseAgain(c, names, a, b);
    }
  }

  lemma CloseAgain(c: Counter, names: seq<NodeName>, a: NodeName, b: NodeName)
    requires a in c.disks && b in c.disks && Close(c, names, a, b)
    ensures Close(c, [], a, b)
  {
    if b in names && a !in names {
      FewerIsCloser(|c.disks[a]|, |c.disks[b]|, Load(c, a), Load(c, b));
    }
  }

  /** Fewer replicas than nodes leave a node free. */
  lemma FreeLeft(rack: Rack, before: seq<Replica>)
    requires |before| < |NodesWithDisks(rack.nodes)|
    ensures DisksOf(rack.name, rack.nodes, NamesOf(before)) != []
  {
    var ns := NodesWithDisks(rack.nodes);
    NamesIn(before, ns);
    CountAtMost(before, ns);
    FreeNodeExists(rack, NamesOf(before));
  }

  lemma FairNext(rack: Rack, c: Counter, c': Counter, name: RackName, before: seq<Replica>, x: Replica,
                 reps: seq<Replica>)
    requires ValidRacks([rack]) && Fair(rack, c, NamesOf(before)) && |before| < |NodesWithDisks(rack.nodes)|
    requires Step([rack], c, c', name, before, x, []) && reps == before + [x]
    ensures Fair(rack, c', NamesOf(reps))
  {
    var k, p :| k in [rack] && k.name == name && Chosen(c, k, NamesOf(before), [], p) && p.Replica() == x
             && Counting(c, p) && c' == Inc(c, p);
    assert k == rack;
    FreeLeft(rack, before);
    Snoc(before, x, {});
    FairStep(rack, c, NamesOf(before), p, c', NamesOf(reps));
  }

  lemma {:induction false} FairSteps(rack: Rack, cs: seq<Counter>, plan: seq<RackName>, reps: seq<Replica>, i: nat)
    requires ValidRacks([rack]) && Steps([rack], cs, plan, reps, [], 0) && i <= |reps| <= |NodesWithDisks(rack.nodes)|
    requires Fair(rack, cs[0], [])
    ensures Fair(rack, cs[i], NamesOf(reps[..i]))
  {
    if i == 0 {
      assert NamesOf(reps[..0]) == [];
    } else {
      var k := i - 1;
      FairSteps(rack, cs, plan, reps, k);
      Unsnoc(reps[..i]);
      assert reps[..i][..k] == reps[..k];
      FairNext(rack, cs[k], cs[i], plan[k], reps[..k], reps[k], reps[..i]);
    }
  }

  /** A vdisk with at most as many replicas as the rack has nodes keeps the use of the rack fair. */
  lemma FairVDisk(rack: Rack, c: Counter, c': Counter, plan: seq<RackName>, reps: seq<Replica>)
    requires ValidRacks([rack]) && Fair(rack, c, []) && |reps| <= |NodesWithDisks(rack.nodes)|
    requires Traced([rack], c, c', plan, reps, [], 0)
    ensures Fair(rack, c', [])
  {
    var cs: seq<Counter> :| Steps([rack], cs, plan, reps, [], 0) && cs[0] == c && cs[|reps| - 0] == c';
    FairSteps(rack, cs, plan, reps, |reps|);
    FairAgain(rack, c', NamesOf(reps[..|reps|]));
  }

  lemma FairStart(rack: Rack, c: Counter)
    requires Counts(c, [rack]) && forall n, d | n in c.disks && d in c.disks[n] :: c.disks[n][d] == 0
    ensures Fair(rack, c, [])
  {
    forall a, b | a in NodesWithDisks(rack.nodes) && b in NodesWithDisks(rack.nodes) && a != b
      ensures a in c.disks && b in c.disks && Close(c, [], a, b)
    {
      NodeCounted(rack, c, a);
      NodeCounted(rack, c, b);
      CloseStart(c, a, b);
    }
  }

  lemma CloseStart(c: Counter, a: NodeName, b: NodeName)
    requires a in c.disks && b in c.disks && forall d | d in c.disks[a] :: c.disks[a][d] == 0
    ensures Close(c, [], a, b)
  {
    SumMapWithin(c.disks[a], 0, 0);
    assert Load(c, a) == 0;
  }

  /**
   How far the use of any two disks can differ: it is at most two more than the use of a disk on a
   node with no more disks, and at most the number of disks of the other's node times one more than
   its use.
   */
  ghost predicate EvenUse(places: seq<Place>, c: Counter) {
    Counted(c, places) && forall p, q | p in places && q in places :: EvenPair(c, p, q)
  }

  ghost predicate EvenPair(c: Counter, p: Place, q: Place)
    requires p.node in c.disks && p.disk in c.disks[p.node] && q.node in c.disks && q.disk in c.disks[q.node]
  {
    && (|c.disks[q.node]| <= |c.disks[p.node]| ==> Used(c, p) <= Used(c, q) + 2)
    && Used(c, p) <= |c.disks[q.node]| * (Used(c, q) + 1)
  }

  lemma EvenNumbers(da: nat, db: nat, a: nat, b: nat, u: nat, v: nat)
    requires 0 < db <= da && LoadsClose(da, db, a, b) && u > 0
    requires da * (u - 1) + 1 <= a && b <= db * (v + 1) - 1
    ensures u <= v + 2
  {
    if u >= v + 3 {
      MulOrder(da, v + 2, u - 1);
      MulOrder(db, da * (v + 2) + 1, a);
      MulOrder(da, b, db * (v + 1) - 1);
      Distribute(db, da * (v + 2), 1);
      Distribute(da, db * (v + 1), -1);
      Regroup(da, db, v + 1);
      assert false;
    }
  }

  lemma EvenTwo(c: Counter, p: Place, q: Place)
    requires Balanced(c) && Counted(c, [p, q]) && p.node != q.node && Close(c, [], p.node, q.node)
    requires p.node in c.disks && p.disk in c.disks[p.node] && q.node in c.disks && q.disk in c.disks[q.node]
    ensures EvenPair(c, p, q)
  {
    var ma, mb := c.disks[p.node], c.disks[q.node];
    LoadBounds(c, p);
    LoadBounds(c, q);
    if |mb| <= |ma| && Used(c, p) > 0 {
      EvenNumbers(|ma|, |mb|, Load(c, p.node), Load(c, q.node), Used(c, p), Used(c, q));
    }
  }

  /** The use of one disk bounds that of its node. */
  lemma LoadBounds(c: Counter, p: Place)
    requires Balanced(c) && p.node in c.disks && p.disk in c.disks[p.node]
    ensures |c.disks[p.node]| > 0 && Load(c, p.node) <= |c.disks[p.node]| * (Used(c, p) + 1) - 1
    ensures Used(c, p) > 0 ==> |c.disks[p.node]| * (Used(c, p) - 1) + 1 <= Load(c, p.node)
  {
    var m, u := c.disks[p.node], Used(c, p);
    SumMapWithOne(m, if u > 0 then u - 1 else 0, u + 1, p.disk);
    assert p.disk in m.Keys;
  }

  /** Fair use of the nodes is even use of the disks. */
  lemma FairIsEven(rack: Rack, c: Counter)
    requires Fair(rack, c, [])
    ensures EvenUse(DisksOf(rack.name, rack.nodes, []), c)
  {
    var places := DisksOf(rack.name, rack.nodes, []);
    RackCounted(c, [rack], rack, []);
    DisksOfContents(rack.name, rack.nodes, []);
    forall p, q | p in places && q in places ensures EvenPair(c, p, q) {
      if p.node == q.node {
        SameNodeEven(c, p, q);
      } else {
        EvenTwo(c, p, q);
      }
    }
  }

  lemma SameNodeEven(c: Counter, p: Place, q: Place)
    requires Balanced(c) && p.node == q.node && p.node in c.disks && p.disk in c.disks[p.node]
    requires q.disk in c.disks[q.node]
    ensures EvenPair(c, p, q)
  {
    MulOrder(Used(c, q) + 1, 1, |c.disks[q.node]|);
  }
}
