/**
 When the replicas of a vdisk are on pairwise distinct nodes. Within a rack nodes repeat only once
 all its nodes with disks are in use, so it comes down to how many replicas each rack is given, and
 which racks are used follows from the rack counters before the first replica is placed.
 */
module RackSpread {
  import opened Types
  import opened Topology
  import opened Ccg

  function NamesOf(reps: seq<Replica>): seq<NodeName> {
    seq(|reps|, i requires 0 <= i < |reps| => reps[i].node)
  }

  ghost function NodesWithDisks(nodes: seq<Node>): set<NodeName> {
    set n | n in nodes && n.disks != [] :: n.name
  }

  /** No rack has more replicas than nodes with disks. */
  ghost predicate RacksHold(racks: seq<Rack>, reps: seq<Replica>) {
    forall r | r in racks :: CountIn(reps, NodesWithDisks(r.nodes)) <= |NodesWithDisks(r.nodes)|
  }

  /** Every rack has as many nodes with disks as there are replicas. */
  ghost predicate Roomy(racks: seq<Rack>, replicas: nat) {
    forall r | r in racks :: replicas <= |NodesWithDisks(r.nodes)|
  }

  /** Replicas so far: on nodes of the racks, and distinct nodes exactly while no rack has too many. */
  ghost predicate Spread(racks: seq<Rack>, reps: seq<Replica>) {
    && (NoDup(NamesOf(reps)) <==> RacksHold(racks, reps))
    && (forall x | x in reps :: exists r | r in racks :: x.node in NodesWithDisks(r.nodes))
  }

  /**
   Pairwise distinct nodes exactly if no rack has more replicas than nodes with disks. It is enough
   that every rack has a node for each replica; with a single rack this is also necessary.
   */
  ghost predicate DistinctNodes(racks: seq<Rack>, reps: seq<Replica>) {
    && (NoDup(NamesOf(reps)) <==> RacksHold(racks, reps))
    && (Roomy(racks, |reps|) ==> NoDup(NamesOf(reps)))
    && (|racks| == 1 ==> (NoDup(NamesOf(reps)) <==> |reps| <= |NodesWithDisks(racks[0].nodes)|))
  }

  // ---- counting within a set of nodes ----

  lemma Snoc(reps: seq<Replica>, x: Replica, ns: set<NodeName>)
    ensures NamesOf(reps + [x]) == NamesOf(reps) + [x.node]
    ensures CountIn(reps + [x], ns) == CountIn(reps, ns) + if x.node in ns then 1 else 0
  {
    assert (reps + [x])[..|reps|] == reps;
  }

  lemma {:induction false} CountAtMost(reps: seq<Replica>, ns: set<NodeName>)
    ensures CountIn(reps, ns) <= |reps|
  {
    if reps != [] {
      CountAtMost(reps[..|reps| - 1], ns);
    }
  }

  /** The names in a set are at most as many as the replicas there, and as many if no name repeats. */
  lemma {:induction false} NamesIn(reps: seq<Replica>, ns: set<NodeName>)
    ensures |Elems(NamesOf(reps)) * ns| <= CountIn(reps, ns)
    ensures NoDup(NamesOf(reps)) ==> |Elems(NamesOf(reps)) * ns| == CountIn(reps, ns)
  {
    if reps == [] {
      assert Elems(NamesOf(reps)) * ns == {};
    } else {
      var init, x := reps[..|reps| - 1], reps[|reps| - 1];
      assert reps == init + [x];
      NamesIn(init, ns);
      Snoc(init, x, ns);
      NamesInOne(NamesOf(init), x.node, ns);
      if NoDup(NamesOf(reps)) {
        InitNoDup(NamesOf(init), x.node);
      }
    }
  }

  lemma InitNoDup(names: seq<NodeName>, x: NodeName)
    requires NoDup(names + [x])
    ensures NoDup(names) && x !in names
  {
    forall i, j | 0 <= i < j < |names| ensures names[i] != names[j] {
      assert (names + [x])[i] == names[i] && (names + [x])[j] == names[j];
    }
    forall i | 0 <= i < |names| ensures names[i] != x {
      assert (names + [x])[i] == names[i] && (names + [x])[|names|] == x;
    }
  }

  lemma NamesInOne(names: seq<NodeName>, x: NodeName, ns: set<NodeName>)
    ensures x !in ns || x in names ==> Elems(names + [x]) * ns == Elems(names) * ns
    ensures x in ns && x !in names ==> |Elems(names + [x]) * ns| == |Elems(names) * ns| + 1
  {
    if x in ns {
      assert Elems(names + [x]) * ns == Elems(names) * ns + {x};
    } else {
      assert Elems(names + [x]) * ns == Elems(names) * ns;
    }
  }

  /** While fewer names are banned in a rack than it has nodes with disks, some disk is still allowed. */
  lemma FreeNodeExists(rack: Rack, banned: seq<NodeName>)
    requires |Elems(banned) * NodesWithDisks(rack.nodes)| < |NodesWithDisks(rack.nodes)|
    ensures DisksOf(rack.name, rack.nodes, banned) != []
  {
    var k := NodesWithDisks(rack.nodes);
    assert k == Elems(banned) * k + (k - Elems(banned));
    var name :| name in k - Elems(banned);
    var n :| n in rack.nodes && n.disks != [] && n.name == name;
    var p := Place(rack.name, name, n.disks[0]);
    assert InNodes(p, rack.nodes);
    DisksOfContents(rack.name, rack.nodes, banned);
  }

  // ---- one more replica ----

  lemma CandidateInRack(rack: Rack, banned: seq<NodeName>, p: Place)
    requires p in Candidates(rack, banned)
    ensures p.rack == rack.name && p.node in NodesWithDisks(rack.nodes) && RackHas(rack, p.Replica())
    ensures DisksOf(rack.name, rack.nodes, banned) != [] ==> p.node !in banned
  {
    CandidatesAllowed(rack, banned, p);
    DisksOfContents(rack.name, rack.nodes, []);
    assert p == Place(rack.name, p.node, p.disk);
  }

  lemma HoldsBefore(racks: seq<Rack>, reps: seq<Replica>, x: Replica)
    requires RacksHold(racks, reps + [x])
    ensures RacksHold(racks, reps)
  {
    forall r | r in racks ensures CountIn(reps, NodesWithDisks(r.nodes)) <= |NodesWithDisks(r.nodes)| {
      Snoc(reps, x, NodesWithDisks(r.nodes));
    }
  }

  lemma FreshName(racks: seq<Rack>, rack: Rack, reps: seq<Replica>, p: Place)
    requires rack in racks && p in Candidates(rack, NamesOf(reps)) && RacksHold(racks, reps + [p.Replica()])
    ensures p.node !in NamesOf(reps)
  {
    var ns := NodesWithDisks(rack.nodes);
    CandidateInRack(rack, NamesOf(reps), p);
    Snoc(reps, p.Replica(), ns);
    NamesIn(reps, ns);
    FreeNodeExists(rack, NamesOf(reps));
  }

  lemma DistinctHold(racks: seq<Rack>, reps: seq<Replica>)
    requires NoDup(NamesOf(reps))
    ensures RacksHold(racks, reps)
  {
    forall r | r in racks ensures CountIn(reps, NodesWithDisks(r.nodes)) <= |NodesWithDisks(r.nodes)| {
      NamesIn(reps, NodesWithDisks(r.nodes));
      SubsetCardinality(Elems(NamesOf(reps)) * NodesWithDisks(r.nodes), NodesWithDisks(r.nodes));
    }
  }

  lemma SpreadNone(racks: seq<Rack>)
    ensures Spread(racks, [])
  {
    DistinctHold(racks, []);
  }

  /** A candidate of any rack keeps the replicas spread. */
  lemma SpreadOne(racks: seq<Rack>, rack: Rack, reps: seq<Replica>, p: Place)
    requires Spread(racks, reps) && rack in racks && p in Candidates(rack, NamesOf(reps))
    ensures Spread(racks, reps + [p.Replica()])
  {
    var x := p.Replica();
    CandidateInRack(rack, NamesOf(reps), p);
    Snoc(reps, x, {});
    if RacksHold(racks, reps + [x]) {
      HoldsBefore(racks, reps, x);
      FreshName(racks, rack, reps, p);
      NoDupAppend(NamesOf(reps), p.node);
    }
    if NoDup(NamesOf(reps + [x])) {
      DistinctHold(racks, reps + [x]);
    }
  }

  lemma RoomyHolds(racks: seq<Rack>, reps: seq<Replica>)
    requires Roomy(racks, |reps|)
    ensures RacksHold(racks, reps)
  {
    forall r | r in racks ensures CountIn(reps, NodesWithDisks(r.nodes)) <= |NodesWithDisks(r.nodes)| {
      CountAtMost(reps, NodesWithDisks(r.nodes));
    }
  }

  lemma SpreadExactly(racks: seq<Rack>, reps: seq<Replica>)
    requires Spread(racks, reps)
    ensures DistinctNodes(racks, reps)
  {
    if Roomy(racks, |reps|) {
      RoomyHolds(racks, reps);
    }
    if |racks| == 1 {
      assert racks == [racks[0]];
      CountInAll(reps, NodesWithDisks(racks[0].nodes));
    }
  }

  // ---- the racks of a vdisk, before it is placed ----

  ghost predicate RackHas(rack: Rack, rep: Replica) {
    Place(rack.name, rep.node, rep.disk) in DisksOf(rack.name, rack.nodes, [])
  }

  /** Each replica is in the rack the plan names. */
  ghost predicate Follows(racks: seq<Rack>, plan: seq<RackName>, reps: seq<Replica>) {
    |plan| == |reps| && forall i | 0 <= i < |reps| :: InNamedRack(racks, plan[i], reps[i])
  }

  ghost predicate InNamedRack(racks: seq<Rack>, name: RackName, rep: Replica) {
    exists r | r in racks :: r.name == name && RackHas(r, rep)
  }

  /** The plan gives no rack more replicas than it has nodes with disks. */
  ghost predicate PlanFits(racks: seq<Rack>, plan: seq<RackName>) {
    forall r | r in racks :: multiset(plan)[r.name] <= |NodesWithDisks(r.nodes)|
  }

  /** The disk was a candidate of the named rack when the replicas before it were placed. */
  ghost predicate PickedAfter(racks: seq<Rack>, name: RackName, before: seq<Replica>, x: Replica) {
    exists r | r in racks :: r.name == name && Place(name, x.node, x.disk) in Candidates(r, NamesOf(before))
  }

  /** Each replica was picked among the candidates of the rack the plan names. */
  ghost predicate Picked(racks: seq<Rack>, plan: seq<RackName>, reps: seq<Replica>) {
    && |plan| == |reps|
    && (reps == [] ||
        var n := |reps| - 1;
        Picked(racks, plan[..n], reps[..n]) && PickedAfter(racks, plan[n], reps[..n], reps[n]))
  }

  lemma PickedNext(racks: seq<Rack>, plan: seq<RackName>, reps: seq<Replica>, rack: Rack, p: Place)
    requires Picked(racks, plan, reps) && rack in racks && p in Candidates(rack, NamesOf(reps))
    ensures Picked(racks, plan + [p.rack], reps + [p.Replica()])
  {
    CandidateInRack(rack, NamesOf(reps), p);
    assert p == Place(rack.name, p.node, p.disk);
    assert PickedAfter(racks, rack.name, reps, p.Replica());
    assert (plan + [p.rack])[..|reps|] == plan && (reps + [p.Replica()])[..|reps|] == reps;
  }

  lemma SpreadLast(racks: seq<Rack>, name: RackName, before: seq<Replica>, x: Replica, reps: seq<Replica>)
    requires Spread(racks, before) && PickedAfter(racks, name, before, x) && reps == before + [x]
    ensures Spread(racks, reps)
  {
    var p := Place(name, x.node, x.disk);
    var r :| r in racks && r.name == name && p in Candidates(r, NamesOf(before));
    SpreadOne(racks, r, before, p);
  }

  lemma {:induction false} PickedSpread(racks: seq<Rack>, plan: seq<RackName>, reps: seq<Replica>)
    requires Picked(racks, plan, reps)
    ensures Spread(racks, reps)
  {
    if reps == [] {
      SpreadNone(racks);
    } else {
      var n := |reps| - 1;
      Unsnoc(reps);
      PickedSpread(racks, plan[..n], reps[..n]);
      SpreadLast(racks, plan[n], reps[..n], reps[n], reps);
    }
  }

  lemma {:induction false} PickedFollows(racks: seq<Rack>, plan: seq<RackName>, reps: seq<Replica>)
    requires Picked(racks, plan, reps)
    ensures Follows(racks, plan, reps)
  {
    if reps != [] {
      var n := |reps| - 1;
      PickedFollows(racks, plan[..n], reps[..n]);
      var r :| r in racks && r.name == plan[n]
            && Place(plan[n], reps[n].node, reps[n].disk) in Candidates(r, NamesOf(reps[..n]));
      CandidateInRack(r, NamesOf(reps[..n]), Place(plan[n], reps[n].node, reps[n].disk));
      assert InNamedRack(racks, plan[n], reps[n]);
      FollowsLast(racks, plan, reps);
    }
  }

  lemma FollowsLast(racks: seq<Rack>, plan: seq<RackName>, reps: seq<Replica>)
    requires |plan| == |reps| > 0 && Follows(racks, plan[..|reps| - 1], reps[..|reps| - 1])
    requires InNamedRack(racks, plan[|reps| - 1], reps[|reps| - 1])
    ensures Follows(racks, plan, reps)
  {
    var n := |reps| - 1;
    forall i | 0 <= i < |reps| ensures InNamedRack(racks, plan[i], reps[i]) {
      if i < n {
        assert plan[..n][i] == plan[i] && reps[..n][i] == reps[i];
      }
    }
  }

  /** Replicas placed along a plan, and the rack counters before and after it. */
  ghost predicate OnPlan(racks: seq<Rack>, counts: map<RackName, nat>, now: map<RackName, nat>, plan: seq<RackName>,
                         reps: seq<Replica>) {
    now == AfterPlan(counts, plan) && Picked(racks, plan, reps)
  }

  lemma OnPlanNext(racks: seq<Rack>, counts: map<RackName, nat>, now: map<RackName, nat>, plan: seq<RackName>,
                   reps: seq<Replica>, rack: Rack, p: Place, now': map<RackName, nat>)
    requires OnPlan(racks, counts, now, plan, reps) && rack in racks && p in Candidates(rack, NamesOf(reps))
    requires OneMore(now, p.rack, now')
    ensures OnPlan(racks, counts, now', plan + [p.rack], reps + [p.Replica()])
  {
    PickedNext(racks, plan, reps, rack, p);
    AfterNext(counts, plan, p.rack);
  }

  lemma InItsRack(racks: seq<Rack>, name: RackName, rep: Replica, r: Rack)
    requires ValidRacks(racks) && InNamedRack(racks, name, rep) && r in racks
    ensures rep.node in NodesWithDisks(r.nodes) <==> r.name == name
  {
    var k :| k in racks && k.name == name && RackHas(k, rep);
    DisksOfContents(k.name, k.nodes, []);
    var n :| n in k.nodes && n.name == rep.node && rep.disk in n.disks;
    if rep.node in NodesWithDisks(r.nodes) {
      var n' :| n' in r.nodes && n'.disks != [] && n'.name == rep.node;
      SameName(racks, k, n, r, n');
    }
    if r.name == name {
      SameRack(racks, r, k);
    }
  }

  lemma FollowsInit(racks: seq<Rack>, plan: seq<RackName>, reps: seq<Replica>)
    requires Follows(racks, plan, reps) && reps != []
    ensures Follows(racks, plan[..|reps| - 1], reps[..|reps| - 1])
    ensures InNamedRack(racks, plan[|reps| - 1], reps[|reps| - 1])
  {
  }

  lemma OneMoreInRack(reps: seq<Replica>, x: Replica, reps': seq<Replica>,
                      plan: seq<RackName>, name: RackName, plan': seq<RackName>, r: Rack)
    requires reps' == reps + [x] && plan' == plan + [name]
    requires CountIn(reps, NodesWithDisks(r.nodes)) == multiset(plan)[r.name]
    requires x.node in NodesWithDisks(r.nodes) <==> r.name == name
    ensures CountIn(reps', NodesWithDisks(r.nodes)) == multiset(plan')[r.name]
  {
    Snoc(reps, x, NodesWithDisks(r.nodes));
    assert multiset(plan + [name]) == multiset(plan) + multiset{name};
  }

  /** A rack has as many replicas as the plan names it. */
  lemma {:induction false} LoadIsPlanned(racks: seq<Rack>, plan: seq<RackName>, reps: seq<Replica>, r: Rack)
    requires ValidRacks(racks) && Follows(racks, plan, reps) && r in racks
    ensures CountIn(reps, NodesWithDisks(r.nodes)) == multiset(plan)[r.name]
  {
    if reps != [] {
      var n := |reps| - 1;
      FollowsInit(racks, plan, reps);
      LoadIsPlanned(racks, plan[..n], reps[..n], r);
      InItsRack(racks, plan[n], reps[n], r);
      Unsnoc(plan);
      Unsnoc(reps);
      OneMoreInRack(reps[..n], reps[n], reps, plan[..n], plan[n], plan, r);
    }
  }

  /** Replicas picked along a plan are on distinct nodes exactly if the plan fits. */
  lemma PlannedExactly(racks: seq<Rack>, plan: seq<RackName>, reps: seq<Replica>)
    requires ValidRacks(racks) && Picked(racks, plan, reps)
    ensures NoDup(NamesOf(reps)) <==> PlanFits(racks, plan)
    ensures DistinctNodes(racks, reps) && Follows(racks, plan, reps)
  {
    PickedSpread(racks, plan, reps);
    PickedFollows(racks, plan, reps);
    SpreadExactly(racks, reps);
    FollowsExactly(racks, plan, reps);
  }

  lemma FollowsExactly(racks: seq<Rack>, plan: seq<RackName>, reps: seq<Replica>)
    requires ValidRacks(racks) && Follows(racks, plan, reps)
    ensures RacksHold(racks, reps) <==> PlanFits(racks, plan)
  {
    forall r | r in racks ensures CountIn(reps, NodesWithDisks(r.nodes)) == multiset(plan)[r.name] {
      LoadIsPlanned(racks, plan, reps, r);
    }
  }

  /** Rack counters after replicas in the racks of a plan. */
  function AfterPlan(counts: map<RackName, nat>, plan: seq<RackName>): map<RackName, nat> {
    map r | r in counts :: counts[r] + multiset(plan)[r]
  }

  ghost predicate OneMore(counts: map<RackName, nat>, name: RackName, now: map<RackName, nat>) {
    name in counts && now == counts[name := counts[name] + 1]
  }

  lemma AfterNone(counts: map<RackName, nat>)
    ensures AfterPlan(counts, []) == counts
  {
  }

  lemma AfterNext(counts: map<RackName, nat>, plan: seq<RackName>, name: RackName)
    requires name in counts
    ensures AfterPlan(counts, plan + [name]) == AfterPlan(counts, plan)[name := AfterPlan(counts, plan)[name] + 1]
  {
    assert multiset(plan + [name]) == multiset(plan) + multiset{name};
  }

  ghost predicate Known(racks: seq<Rack>, counts: map<RackName, nat>) {
    racks != [] && forall r | r in racks :: r.name in counts
  }

  /** Racks of the first replicas of a new vdisk: the first least used one, except that the third repeats the first. */
  function NewPlan(racks: seq<Rack>, counts: map<RackName, nat>, n: nat): (plan: seq<RackName>)
    requires Known(racks, counts)
    ensures |plan| == n
  {
    if n == 0 then [] else
      var plan := NewPlan(racks, counts, n - 1);
      plan + [if n - 1 == REPLICA_IN_FIRST_RACK then plan[0] else FirstLeastRack(racks, AfterPlan(counts, plan)).name]
  }

  lemma {:induction false} NewPlanHead(racks: seq<Rack>, counts: map<RackName, nat>, n: nat)
    requires Known(racks, counts) && n > 0
    ensures NewPlan(racks, counts, n)[0] == FirstLeastRack(racks, counts).name
  {
    if n > 1 {
      NewPlanHead(racks, counts, n - 1);
    } else {
      AfterNone(counts);
    }
  }

  /** Replicas placed so far by `create_vdisk`, and the rack counters since it began. */
  ghost predicate Planned(racks: seq<Rack>, counts: map<RackName, nat>, now: map<RackName, nat>, reps: seq<Replica>) {
    Known(racks, counts) && OnPlan(racks, counts, now, NewPlan(racks, counts, |reps|), reps)
  }

  lemma PlannedNone(racks: seq<Rack>, counts: map<RackName, nat>)
    requires Known(racks, counts)
    ensures Planned(racks, counts, counts, [])
  {
    AfterNone(counts);
  }

  /** The rack of the replica after the first `n`, from the counters before and after these. */
  function NextPlanned(racks: seq<Rack>, counts: map<RackName, nat>, now: map<RackName, nat>, n: nat): (rack: Rack)
    requires Known(racks, counts) && Known(racks, now)
    ensures rack in racks
  {
    if n == REPLICA_IN_FIRST_RACK then FirstLeastRack(racks, counts) else FirstLeastRack(racks, now)
  }

  lemma NewPlanNext(racks: seq<Rack>, counts: map<RackName, nat>, now: map<RackName, nat>, n: nat, name: RackName)
    requires Known(racks, counts) && Known(racks, now) && now == AfterPlan(counts, NewPlan(racks, counts, n))
    requires name == NextPlanned(racks, counts, now, n).name
    ensures NewPlan(racks, counts, n + 1) == NewPlan(racks, counts, n) + [name]
  {
    if n == REPLICA_IN_FIRST_RACK {
      NewPlanHead(racks, counts, n);
    }
  }

  lemma PlannedNext(racks: seq<Rack>, counts: map<RackName, nat>, now: map<RackName, nat>, reps: seq<Replica>,
                    rack: Rack, p: Place, now': map<RackName, nat>, reps': seq<Replica>)
    requires Planned(racks, counts, now, reps) && Known(racks, now)
    requires rack == NextPlanned(racks, counts, now, |reps|) && p in Candidates(rack, NamesOf(reps))
    requires OneMore(now, p.rack, now') && reps' == reps + [p.Replica()]
    ensures Planned(racks, counts, now', reps')
  {
    CandidateInRack(rack, NamesOf(reps), p);
    NewPlanNext(racks, counts, now, |reps|, p.rack);
    OnPlanNext(racks, counts, now, NewPlan(racks, counts, |reps|), reps, rack, p, now');
  }

  lemma {:induction false} NewPlanThird(racks: seq<Rack>, counts: map<RackName, nat>, n: nat)
    requires Known(racks, counts) && n > REPLICA_IN_FIRST_RACK
    ensures NewPlan(racks, counts, n)[2] == NewPlan(racks, counts, n)[0]
  {
    var plan, before := NewPlan(racks, counts, n), NewPlan(racks, counts, n - 1);
    assert plan == before + [plan[n - 1]];
    if n > REPLICA_IN_FIRST_RACK + 1 {
      NewPlanThird(racks, counts, n - 1);
    }
  }

  /** The third replica is in the rack of the first. */
  ghost predicate ThirdJoinsFirst(racks: seq<Rack>, reps: seq<Replica>) {
    |reps| > 2 ==> exists rack | rack in racks :: RackHas(rack, reps[0]) && RackHas(rack, reps[2])
  }

  lemma ThirdFollows(racks: seq<Rack>, counts: map<RackName, nat>, reps: seq<Replica>)
    requires ValidRacks(racks) && Known(racks, counts) && Follows(racks, NewPlan(racks, counts, |reps|), reps)
    ensures ThirdJoinsFirst(racks, reps)
  {
    if |reps| > 2 {
      NewPlanThird(racks, counts, |reps|);
      var name := NewPlan(racks, counts, |reps|)[0];
      assert InNamedRack(racks, name, reps[0]) && InNamedRack(racks, name, reps[2]);
      SameNamedRack(racks, name, reps[0], reps[2]);
    }
  }

  lemma SameNamedRack(racks: seq<Rack>, name: RackName, x: Replica, y: Replica)
    requires ValidRacks(racks) && InNamedRack(racks, name, x) && InNamedRack(racks, name, y)
    ensures exists rack | rack in racks :: RackHas(rack, x) && RackHas(rack, y)
  {
    var r :| r in racks && r.name == name && RackHas(r, x);
    var k :| k in racks && k.name == name && RackHas(k, y);
    SameRack(racks, r, k);
  }

  // ---- the racks of a vdisk that is placed anew ----

  /** Racks that have a node of the vdisk. */
  function PreferredNames(racks: seq<Rack>, vdisk: VDisk): seq<RackName> {
    if racks == [] then []
    else PreferredNames(racks[..|racks| - 1], vdisk)
         + (if HasNodeOf(racks[|racks| - 1], vdisk) then [racks[|racks| - 1].name] else [])
  }

  predicate HasNodeOf(rack: Rack, vdisk: VDisk) {
    exists x | x in vdisk.replicas :: exists k | k in rack.nodes :: k.name == x.node
  }

  /** The rack of the first disk, and then least used racks, listed ones first. */
  function AnotherPlan(racks: seq<Rack>, counts: map<RackName, nat>, first: RackName, list: seq<RackName>, n: nat)
      : (plan: seq<RackName>)
    requires Known(racks, counts)
    ensures |plan| == n
  {
    if n == 0 then [] else
      var plan := AnotherPlan(racks, counts, first, list, n - 1);
      plan + [if n == 1 then first else ListedRack(racks, AfterPlan(counts, plan), list).name]
  }

  /** Replicas placed so far by `create_vdisk_from_another`, and the rack counters since it began. */
  ghost predicate Replanned(racks: seq<Rack>, counts: map<RackName, nat>, now: map<RackName, nat>, first: RackName,
                            list: seq<RackName>, reps: seq<Replica>) {
    Known(racks, counts) && OnPlan(racks, counts, now, AnotherPlan(racks, counts, first, list, |reps|), reps)
  }

  lemma ReplannedFirst(racks: seq<Rack>, counts: map<RackName, nat>, list: seq<RackName>, p: Place,
                       now: map<RackName, nat>, reps: seq<Replica>)
    requires Known(racks, counts) && InRacks(p, racks)
    requires OneMore(counts, p.rack, now) && reps == [] + [p.Replica()]
    ensures Replanned(racks, counts, now, p.rack, list, reps)
  {
    var rack :| rack in racks && rack.name == p.rack && InNodes(p, rack.nodes);
    DisksOfContents(rack.name, rack.nodes, []);
    assert NamesOf([]) == [];
    AfterNone(counts);
    OnPlanNext(racks, counts, counts, [], [], rack, p, now);
    assert AnotherPlan(racks, counts, p.rack, list, 1) == [] + [p.rack];
  }

  lemma AnotherPlanNext(racks: seq<Rack>, counts: map<RackName, nat>, now: map<RackName, nat>, first: RackName,
                        list: seq<RackName>, n: nat, name: RackName)
    requires Known(racks, counts) && Known(racks, now)
          && now == AfterPlan(counts, AnotherPlan(racks, counts, first, list, n))
    requires 1 <= n && name == ListedRack(racks, now, list).name
    ensures AnotherPlan(racks, counts, first, list, n + 1) == AnotherPlan(racks, counts, first, list, n) + [name]
  {
  }

  lemma ReplannedNext(racks: seq<Rack>, counts: map<RackName, nat>, now: map<RackName, nat>, first: RackName,
                      list: seq<RackName>, reps: seq<Replica>, rack: Rack, p: Place,
                      now': map<RackName, nat>, reps': seq<Replica>)
    requires Replanned(racks, counts, now, first, list, reps) && 1 <= |reps| && Known(racks, now)
    requires rack == ListedRack(racks, now, list) && p in Candidates(rack, NamesOf(reps))
    requires OneMore(now, p.rack, now') && reps' == reps + [p.Replica()]
    ensures Replanned(racks, counts, now', first, list, reps')
  {
    CandidateInRack(rack, NamesOf(reps), p);
    AnotherPlanNext(racks, counts, now, first, list, |reps|, p.rack);
    OnPlanNext(racks, counts, now, AnotherPlan(racks, counts, first, list, |reps|), reps, rack, p, now');
  }

  // ---- two racks and three replicas ----

  lemma LeastOfTwo(racks: seq<Rack>, counts: map<RackName, nat>)
    requires |racks| == 2 && Known(racks, counts)
    ensures FirstLeastRack(racks, counts)
         == if counts[racks[1].name] < counts[racks[0].name] then racks[1] else racks[0]
  {
    assert racks[..1] == [racks[0]];
  }

  lemma TwoRacksPlan(racks: seq<Rack>, counts: map<RackName, nat>, a: RackName, b: RackName)
    requires |racks| == 2 && Known(racks, counts) && racks[0].name == a && racks[1].name == b && a != b
    requires counts[a] == 0 && counts[b] == 0
    ensures NewPlan(racks, counts, 3) == [a, b, a]
  {
    AfterNone(counts);
    LeastOfTwo(racks, counts);
    assert NewPlan(racks, counts, 1) == [] + [a] == [a];
    LeastOfTwo(racks, AfterPlan(counts, [a]));
    assert NewPlan(racks, counts, 2) == [a] + [b] == [a, b];
    assert NewPlan(racks, counts, 3) == [a, b] + [a];
  }

  /**
   Enough nodes in total are not enough: in a new cluster of two racks, three replicas are on
   distinct nodes exactly if the first rack has two nodes with disks, however many the second has.
   */
  lemma TwoRacksExactly(racks: seq<Rack>, counts: map<RackName, nat>, a: RackName, b: RackName)
    requires |racks| == 2 && Known(racks, counts) && racks[0].name == a && racks[1].name == b && a != b
    requires counts[a] == 0 && counts[b] == 0
    ensures PlanFits(racks, NewPlan(racks, counts, 3))
       <==> 2 <= |NodesWithDisks(racks[0].nodes)| && 1 <= |NodesWithDisks(racks[1].nodes)|
  {
    TwoRacksPlan(racks, counts, a, b);
    ThreeNames(a, b);
    TwoFit(racks, [a, b, a]);
  }

  lemma ThreeNames(a: RackName, b: RackName)
    requires a != b
    ensures multiset([a, b, a])[a] == 2 && multiset([a, b, a])[b] == 1
  {
  }

  lemma TwoFit(racks: seq<Rack>, plan: seq<RackName>)
    requires |racks| == 2
    ensures PlanFits(racks, plan) <==>
              && multiset(plan)[racks[0].name] <= |NodesWithDisks(racks[0].nodes)|
              && multiset(plan)[racks[1].name] <= |NodesWithDisks(racks[1].nodes)|
  {
    assert racks[0] in racks && racks[1] in racks;
  }
}
