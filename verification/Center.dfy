/** The runs of the config generator: new clusters and expansions of existing ones. */
module Center {
  import opened Types
  import opened Topology
  import opened Ccg
  import opened RackSpread
  import opened Greedy
  import opened Arith

  // ---- bookkeeping of replicas ----

  /** Disk counters have moved by exactly the replicas placed. */
  ghost predicate Placed(c: Counter, c': Counter, reps: seq<Replica>) {
    && c.disks.Keys == c'.disks.Keys
    && forall n | n in c.disks ::
         && c.disks[n].Keys == c'.disks[n].Keys
         && forall d | d in c.disks[n] :: c'.disks[n][d] == c.disks[n][d] + multiset(reps)[Replica(n, d)]
  }

  lemma PlacedOne(c: Counter, c': Counter, reps: seq<Replica>, p: Place)
    requires Placed(c, c', reps)
    requires p.rack in c'.racks && p.node in c'.nodes && p.node in c'.disks && p.disk in c'.disks[p.node]
    ensures Placed(c, Inc(c', p), reps + [p.Replica()])
  {
    var c'' := Inc(c', p);
    assert multiset(reps + [p.Replica()]) == multiset(reps) + multiset{p.Replica()};
    assert c''.disks[p.node].Keys == c'.disks[p.node].Keys;
    forall n, d | n in c.disks && d in c.disks[n]
      ensures c''.disks[n][d] == c'.disks[n][d] + (if p.Replica() == Replica(n, d) then 1 else 0)
    {
    }
  }

  lemma PlacedChain(a: Counter, b: Counter, c: Counter, xs: seq<Replica>, ys: seq<Replica>)
    requires Placed(a, b, xs) && Placed(b, c, ys)
    ensures Placed(a, c, xs + ys)
  {
  }

  function AllReplicas(vdisks: seq<VDisk>): seq<Replica> {
    if vdisks == [] then [] else AllReplicas(vdisks[..|vdisks| - 1]) + vdisks[|vdisks| - 1].replicas
  }

  lemma VDiskPlaced(a: Counter, b: Counter, c: Counter, vdisks: seq<VDisk>, v: VDisk)
    requires Placed(a, b, AllReplicas(vdisks)) && Placed(b, c, v.replicas)
    ensures Placed(a, c, AllReplicas(vdisks + [v]))
  {
    PlacedChain(a, b, c, AllReplicas(vdisks), v.replicas);
    assert (vdisks + [v])[..|vdisks|] == vdisks;
  }

  // ---- even use of a single rack ----

  ghost function SumPlaces(places: seq<Place>, c: Counter): nat
    requires forall q | q in places :: q.node in c.disks && q.disk in c.disks[q.node]
  {
    if places == [] then 0 else SumPlaces(places[1..], c) + Used(c, places[0])
  }

  lemma {:induction false} SumPlacesInc(places: seq<Place>, c: Counter, p: Place)
    requires forall q | q in places :: q.node in c.disks && q.disk in c.disks[q.node]
    requires p.rack in c.racks && p.node in c.nodes && p.node in c.disks && p.disk in c.disks[p.node]
    requires NoDup(places) && forall q | q in places :: q.rack == p.rack
    ensures SumPlaces(places, Inc(c, p)) == SumPlaces(places, c) + if p in places then 1 else 0
  {
    if places != [] {
      SumPlacesInc(places[1..], c, p);
      assert forall q :: q in places <==> q == places[0] || q in places[1..];
      if places[0] == p {
        assert p !in places[1..];
      }
    }
  }

  lemma {:induction false} SumPlacesBounds(places: seq<Place>, c: Counter, lo: nat, hi: nat)
    requires forall q | q in places :: q.node in c.disks && q.disk in c.disks[q.node]
    requires forall q | q in places :: lo <= Used(c, q) <= hi
    ensures lo * |places| <= SumPlaces(places, c) <= hi * |places|
  {
    if places != [] {
      SumPlacesBounds(places[1..], c, lo, hi);
      Distribute(lo, |places[1..]|, 1);
      Distribute(hi, |places[1..]|, 1);
    }
  }

  /** One place strictly inside the bounds makes the bound of the sum strict. */
  lemma {:induction false} SumPlacesStrict(places: seq<Place>, c: Counter, lo: nat, hi: nat, p: Place)
    requires forall q | q in places :: q.node in c.disks && q.disk in c.disks[q.node]
    requires p in places && forall q | q in places :: lo <= Used(c, q) <= hi
    ensures Used(c, p) < hi ==> SumPlaces(places, c) < hi * |places|
    ensures Used(c, p) > lo ==> SumPlaces(places, c) > lo * |places|
  {
    Distribute(lo, |places[1..]|, 1);
    Distribute(hi, |places[1..]|, 1);
    if p == places[0] {
      SumPlacesBounds(places[1..], c, lo, hi);
    } else {
      SumPlacesStrict(places[1..], c, lo, hi, p);
    }
  }

  /** All disks differ by at most one. */
  ghost predicate Even(places: seq<Place>, c: Counter)
    requires forall q | q in places :: q.node in c.disks && q.disk in c.disks[q.node]
  {
    forall p, q | p in places && q in places :: Used(c, p) <= Used(c, q) + 1
  }

  /** Evenly used disks whose uses add up to k times their number are used k times each. */
  lemma EvenIsEqual(places: seq<Place>, c: Counter, k: nat)
    requires forall q | q in places :: q.node in c.disks && q.disk in c.disks[q.node]
    requires Even(places, c) && SumPlaces(places, c) == k * |places|
    ensures forall q | q in places :: Used(c, q) == k
  {
    forall q | q in places ensures Used(c, q) == k {
      if Used(c, q) < k {
        SumPlacesStrict(places, c, 0, k, q);
      } else if Used(c, q) > k {
        SumPlacesStrict(places, c, k, Used(c, q) + 1, q);
      }
    }
  }

  /** The first listed one among the least used disks of the cluster, or else the first least used. */
  ghost predicate FirstChosen(racks: seq<Rack>, c: Counter, list: seq<Replica>, x: Replica) {
    exists p :: ChosenAmong(c, AllDisks(racks), AllDisks(racks), list, p) && p.Replica() == x
  }

  /** Old vdisks placed anew, one after the other, and the counters moved by their replicas. */
  ghost predicate Rebuilt(racks: seq<Rack>, start: Counter, c: Counter, olds: seq<VDisk>, vdisks: seq<VDisk>) {
    Placed(start, c, AllReplicas(vdisks)) && RebuiltRun(racks, start, c, olds, vdisks)
  }

  ghost predicate RebuiltRun(racks: seq<Rack>, start: Counter, c: Counter, olds: seq<VDisk>, vdisks: seq<VDisk>) {
    exists cs: seq<Counter> :: AllRebuilt(racks, cs, olds, vdisks) && cs[0] == start && cs[|vdisks|] == c
  }

  /** Each vdisk is an old one placed anew, from the counters the one before it left. */
  ghost predicate AllRebuilt(racks: seq<Rack>, cs: seq<Counter>, olds: seq<VDisk>, vdisks: seq<VDisk>) {
    && |vdisks| <= |olds| && |cs| == |vdisks| + 1
    && forall i | 0 <= i < |vdisks| :: PlacedAnew(racks, cs[i], cs[i + 1], olds[i], vdisks[i])
  }

  /** Same id and replica count, except that an empty vdisk gets one replica; distinct nodes where possible. */
  ghost predicate RebuiltOne(racks: seq<Rack>, origin: VDisk, v: VDisk) {
    && v.id == origin.id
    && |v.replicas| == AtLeastOne(|origin.replicas|)
    && DistinctNodes(racks, v.replicas)
  }

  /** A new vdisk while its replicas are placed: they follow the plan and the counters moved with them. */
  ghost predicate Filling(racks: seq<Rack>, start: Counter, c: Counter, reps: seq<Replica>) {
    && Placed(start, c, reps) && Planned(racks, start.racks, c.racks, reps) && Known(racks, c.racks)
    && Greedily(racks, start, c, reps)
  }

  /** Each replica of a new vdisk is the first least used candidate at its turn, in the rack the plan names. */
  ghost predicate Greedily(racks: seq<Rack>, start: Counter, c: Counter, reps: seq<Replica>) {
    Known(racks, start.racks) && Traced(racks, start, c, NewPlan(racks, start.racks, |reps|), reps, [], 0)
  }

  lemma GreedilyNext(racks: seq<Rack>, start: Counter, c: Counter, rack: Rack, reps: seq<Replica>, p: Place,
                     c': Counter, reps': seq<Replica>)
    requires Greedily(racks, start, c, reps) && Known(racks, c.racks) && Planned(racks, start.racks, c.racks, reps)
    requires rack == NextPlanned(racks, start.racks, c.racks, |reps|) && Chosen(c, rack, NamesOf(reps), [], p)
    requires Counting(c, p) && c' == Inc(c, p) && reps' == reps + [p.Replica()]
    ensures Greedily(racks, start, c', reps')
  {
    NewPlanNext(racks, start.racks, c.racks, |reps|, rack.name);
    assert Step(racks, c, c', rack.name, reps, p.Replica(), []);
    TracedNext(racks, start, c, c', NewPlan(racks, start.racks, |reps|), NewPlan(racks, start.racks, |reps'|),
               reps, reps', [], 0);
  }

  lemma IncRacks(c: Counter, p: Place, c': Counter)
    requires Counting(c, p) && c' == Inc(c, p)
    ensures OneMore(c.racks, p.rack, c'.racks)
  {
  }

  lemma IncKnown(racks: seq<Rack>, c: Counter, p: Place, c': Counter)
    requires Known(racks, c.racks) && Counting(c, p) && c' == Inc(c, p)
    ensures Known(racks, c'.racks)
  {
  }

  lemma PlannedInc(racks: seq<Rack>, counts: map<RackName, nat>, c: Counter, reps: seq<Replica>, rack: Rack, p: Place,
                   c': Counter, reps': seq<Replica>)
    requires Planned(racks, counts, c.racks, reps) && Known(racks, c.racks)
    requires rack == NextPlanned(racks, counts, c.racks, |reps|) && p in Candidates(rack, NamesOf(reps))
    requires Counting(c, p) && c' == Inc(c, p) && reps' == reps + [p.Replica()]
    ensures Planned(racks, counts, c'.racks, reps')
  {
    IncRacks(c, p, c');
    PlannedNext(racks, counts, c.racks, reps, rack, p, c'.racks, reps');
  }

  lemma ReplannedInc(racks: seq<Rack>, counts: map<RackName, nat>, c: Counter, first: RackName, list: seq<RackName>,
                     reps: seq<Replica>, rack: Rack, p: Place, c': Counter, reps': seq<Replica>)
    requires Replanned(racks, counts, c.racks, first, list, reps) && 1 <= |reps| && Known(racks, c.racks)
    requires rack == ListedRack(racks, c.racks, list) && p in Candidates(rack, NamesOf(reps))
    requires Counting(c, p) && c' == Inc(c, p) && reps' == reps + [p.Replica()]
    ensures Replanned(racks, counts, c'.racks, first, list, reps')
  {
    IncRacks(c, p, c');
    ReplannedNext(racks, counts, c.racks, first, list, reps, rack, p, c'.racks, reps');
  }

  lemma FillingNext(racks: seq<Rack>, start: Counter, c: Counter, rack: Rack, reps: seq<Replica>, p: Place,
                    c': Counter, reps': seq<Replica>)
    requires Filling(racks, start, c, reps)
    requires rack == NextPlanned(racks, start.racks, c.racks, |reps|) && p in Candidates(rack, NamesOf(reps))
    requires Chosen(c, rack, NamesOf(reps), [], p)
    requires Counting(c, p) && c' == Inc(c, p) && reps' == reps + [p.Replica()] && Placed(start, c', reps')
    ensures Filling(racks, start, c', reps')
  {
    GreedilyNext(racks, start, c, rack, reps, p, c', reps');
    IncKnown(racks, c, p, c');
    PlannedInc(racks, start.racks, c, reps, rack, p, c', reps');
  }

  lemma FirstIsChosen(c: Counter, rack: Rack, reps: seq<Replica>, p: Place)
    requires FirstLeast(c, Candidates(rack, NamesOf(reps)), p)
    ensures Chosen(c, rack, NamesOf(reps), [], p)
  {
    assert forall q :: !ListedLeast(c, DisksOf(rack.name, rack.nodes, NamesOf(reps)), [], q);
  }

  lemma FillingNone(racks: seq<Rack>, c: Counter)
    requires Known(racks, c.racks)
    ensures Filling(racks, c, c, [])
  {
    PlannedNone(racks, c.racks);
    TracedNone(racks, c, NewPlan(racks, c.racks, 0), [], []);
  }

  /** What a filled vdisk promises. */
  lemma FilledExactly(racks: seq<Rack>, start: Counter, c: Counter, reps: seq<Replica>)
    requires ValidRacks(racks) && Filling(racks, start, c, reps)
    ensures DistinctNodes(racks, reps) && ThirdJoinsFirst(racks, reps) && NewExactly(racks, start.racks, reps)
  {
    PlannedExactly(racks, NewPlan(racks, start.racks, |reps|), reps);
    ThirdFollows(racks, start.racks, reps);
  }

  /** Distinct nodes exactly if the racks of a new vdisk, known from the rack counters, have nodes enough. */
  ghost predicate NewExactly(racks: seq<Rack>, counts: map<RackName, nat>, reps: seq<Replica>) {
    Known(racks, counts) && (NoDup(NamesOf(reps)) <==> PlanFits(racks, NewPlan(racks, counts, |reps|)))
  }

  /** The same for a vdisk placed anew; its racks also depend on the first disk and on the racks it was in. */
  ghost predicate AnotherExactly(racks: seq<Rack>, c: Counter, origin: VDisk, reps: seq<Replica>) {
    && Known(racks, c.racks) && Counted(c, AllDisks(racks)) && AllDisks(racks) != [] && reps != []
    && var p := PreferredPlace(c, AllDisks(racks), origin.replicas);
       var plan := AnotherPlan(racks, c.racks, p.rack, PreferredNames(racks, origin), |reps|);
       reps[0] == p.Replica() && (NoDup(NamesOf(reps)) <==> PlanFits(racks, plan))
  }

  /** A vdisk while it is placed anew, from its first disk on. */
  ghost predicate Refilling(racks: seq<Rack>, start: Counter, c: Counter, p: Place, list: seq<RackName>,
                            olds: seq<Replica>, reps: seq<Replica>) {
    && Placed(start, c, reps) && reps != [] && reps[0] == p.Replica()
    && Replanned(racks, start.racks, c.racks, p.rack, list, reps) && Known(racks, c.racks)
    && GreedilyAnew(racks, start, c, p, list, olds, reps)
  }

  /**
   After the first disk each replica is, at its turn, the first old disk among the least used allowed
   ones of the rack the plan names, or else its first least used candidate.
   */
  ghost predicate GreedilyAnew(racks: seq<Rack>, start: Counter, c: Counter, p: Place, list: seq<RackName>,
                               olds: seq<Replica>, reps: seq<Replica>) {
    && Known(racks, start.racks) && Counting(start, p)
    && Traced(racks, Inc(start, p), c, AnotherPlan(racks, start.racks, p.rack, list, |reps|), reps, olds, 1)
  }

  lemma GreedilyAnewNext(racks: seq<Rack>, start: Counter, c: Counter, first: Place, list: seq<RackName>,
                         olds: seq<Replica>, reps: seq<Replica>, rack: Rack, p: Place, c': Counter,
                         reps': seq<Replica>)
    requires Refilling(racks, start, c, first, list, olds, reps)
    requires rack == ListedRack(racks, c.racks, list) && Chosen(c, rack, NamesOf(reps), olds, p)
    requires Counting(c, p) && c' == Inc(c, p) && reps' == reps + [p.Replica()]
    ensures GreedilyAnew(racks, start, c', first, list, olds, reps')
  {
    AnotherPlanNext(racks, start.racks, c.racks, first.rack, list, |reps|, rack.name);
    assert Step(racks, c, c', rack.name, reps, p.Replica(), olds);
    TracedNext(racks, Inc(start, first), c, c', AnotherPlan(racks, start.racks, first.rack, list, |reps|),
               AnotherPlan(racks, start.racks, first.rack, list, |reps'|), reps, reps', olds, 1);
  }

  lemma RefillingFirst(racks: seq<Rack>, start: Counter, list: seq<RackName>, olds: seq<Replica>, p: Place, c: Counter,
                       reps: seq<Replica>)
    requires Known(racks, start.racks) && InRacks(p, racks)
    requires Counting(start, p) && c == Inc(start, p) && reps == [] + [p.Replica()] && Placed(start, c, reps)
    ensures Refilling(racks, start, c, p, list, olds, reps)
  {
    TracedNone(racks, c, AnotherPlan(racks, start.racks, p.rack, list, 1), reps, olds);
    IncKnown(racks, start, p, c);
    IncRacks(start, p, c);
    ReplannedFirst(racks, start.racks, list, p, c.racks, reps);
  }

  lemma RefillingNext(racks: seq<Rack>, start: Counter, c: Counter, first: Place, list: seq<RackName>,
                      olds: seq<Replica>, reps: seq<Replica>, rack: Rack, p: Place, c': Counter, reps': seq<Replica>)
    requires Refilling(racks, start, c, first, list, olds, reps)
    requires rack == ListedRack(racks, c.racks, list) && p in Candidates(rack, NamesOf(reps))
    requires Chosen(c, rack, NamesOf(reps), olds, p)
    requires Counting(c, p) && c' == Inc(c, p) && reps' == reps + [p.Replica()] && Placed(start, c', reps')
    ensures Refilling(racks, start, c', first, list, olds, reps')
  {
    GreedilyAnewNext(racks, start, c, first, list, olds, reps, rack, p, c', reps');
    IncKnown(racks, c, p, c');
    ReplannedInc(racks, start.racks, c, first.rack, list, reps, rack, p, c', reps');
  }

  /** What `create_vdisk_from_another` promises, from the counters before and after. */
  ghost predicate PlacedAnew(racks: seq<Rack>, start: Counter, c: Counter, origin: VDisk, v: VDisk) {
    && RebuiltOne(racks, origin, v) && Placed(start, c, v.replicas)
    && FirstChosen(racks, start, origin.replicas, v.replicas[0])
    && AnotherExactly(racks, start, origin, v.replicas)
    && GreedilyAnew(racks, start, c, PreferredPlace(start, AllDisks(racks), origin.replicas),
                    PreferredNames(racks, origin), origin.replicas, v.replicas)
  }

  lemma RefilledExactly(racks: seq<Rack>, start: Counter, c: Counter, p: Place, list: seq<RackName>, reps: seq<Replica>,
                        origin: VDisk)
    requires ValidRacks(racks) && Refilling(racks, start, c, p, list, origin.replicas, reps)
    requires |reps| == AtLeastOne(|origin.replicas|)
    requires Counted(start, AllDisks(racks)) && AllDisks(racks) != []
    requires p == PreferredPlace(start, AllDisks(racks), origin.replicas) && list == PreferredNames(racks, origin)
    requires ChosenAmong(start, AllDisks(racks), AllDisks(racks), origin.replicas, p)
    ensures PlacedAnew(racks, start, c, origin, VDisk(origin.id, reps))
  {
    PlannedExactly(racks, AnotherPlan(racks, start.racks, p.rack, list, |reps|), reps);
  }

  lemma RebuiltNext(racks: seq<Rack>, start: Counter, c: Counter, c': Counter, olds: seq<VDisk>, vdisks: seq<VDisk>,
                    v: VDisk, all: seq<VDisk>)
    requires Rebuilt(racks, start, c, olds, vdisks) && |vdisks| < |olds|
    requires PlacedAnew(racks, c, c', olds[|vdisks|], v) && all == vdisks + [v]
    ensures Rebuilt(racks, start, c', olds, all)
  {
    VDiskPlaced(start, c, c', vdisks, v);
    RebuiltRunNext(racks, start, c, c', olds, vdisks, v, all);
  }

  lemma RebuiltRunNext(racks: seq<Rack>, start: Counter, c: Counter, c': Counter, olds: seq<VDisk>, vdisks: seq<VDisk>,
                       v: VDisk, all: seq<VDisk>)
    requires RebuiltRun(racks, start, c, olds, vdisks) && |vdisks| < |olds|
    requires PlacedAnew(racks, c, c', olds[|vdisks|], v) && all == vdisks + [v]
    ensures RebuiltRun(racks, start, c', olds, all)
  {
    var cs: seq<Counter> :| AllRebuilt(racks, cs, olds, vdisks) && cs[0] == start && cs[|vdisks|] == c;
    AllRebuiltNext(racks, cs, c', olds, vdisks, v);
    var cs' := cs + [c'];
    assert AllRebuilt(racks, cs', olds, all) && cs'[0] == start && cs'[|all|] == c';
  }

  lemma AllRebuiltNext(racks: seq<Rack>, cs: seq<Counter>, c': Counter, olds: seq<VDisk>, vdisks: seq<VDisk>, v: VDisk)
    requires AllRebuilt(racks, cs, olds, vdisks) && |vdisks| < |olds|
    requires PlacedAnew(racks, cs[|vdisks|], c', olds[|vdisks|], v)
    ensures AllRebuilt(racks, cs + [c'], olds, vdisks + [v])
  {
    var all, cs' := vdisks + [v], cs + [c'];
    forall i | 0 <= i < |all| ensures PlacedAnew(racks, cs'[i], cs'[i + 1], olds[i], all[i]) {
      if i < |vdisks| {
        assert all[i] == vdisks[i] && cs'[i] == cs[i] && cs'[i + 1] == cs[i + 1];
      } else {
        assert all[i] == v;
      }
    }
  }

  lemma NoneRebuilt(racks: seq<Rack>, c: Counter, olds: seq<VDisk>)
    ensures Rebuilt(racks, c, c, olds, [])
  {
    var cs := [c];
    assert AllRebuilt(racks, cs, olds, []) && cs[0] == c;
  }

  /** Every rack has a disk. */
  ghost predicate Stocked(racks: seq<Rack>) {
    forall k | k in racks :: DisksOf(k.name, k.nodes, []) != []
  }

  class Center {
    const racks: seq<Rack>
    var counter: Counter

    /** Balance of disks within nodes and agreement of the counter levels, after every step of every run. */
    ghost predicate Valid()
      reads this
    {
      ValidRacks(racks) && racks != [] && Counts(counter, racks) && Sums(counter, racks) && Balanced(counter)
    }

    constructor (racks: seq<Rack>)
      requires ValidRacks(racks) && racks != []
      ensures Valid() && this.racks == racks && counter == ZeroCounter(racks)
      ensures forall n, d | n in counter.disks && d in counter.disks[n] :: counter.disks[n][d] == 0
    {
      this.racks := racks;
      counter := ZeroCounter(racks);
      ZeroCounts(racks, ZeroCounter(racks));
      ZeroSums(racks);
    }

    /** `push_replica_to_vdisk` together with the vdisk's own list. */
    method PushReplica(p: Place, reps: seq<Replica>, ghost start: Counter) returns (reps': seq<Replica>)
      requires Valid() && InRacks(p, racks) && LeastInNode(counter, p) && Placed(start, counter, reps)
      modifies this
      ensures Valid() && reps' == reps + [p.Replica()] && Placed(start, counter, reps')
      ensures p.rack in old(counter).racks && p.node in old(counter).nodes && counter == Inc(old(counter), p)
    {
      IncKeeps(counter, racks, p);
      PlacedOne(start, counter, reps, p);
      counter := Inc(counter, p);
      reps' := reps + [p.Replica()];
    }

    /** The rack of the next replica: the least used one, except that the third replica joins the first. */
    method RackForNext(n: nat, first: Rack, ghost start: map<RackName, nat>) returns (rack: Rack)
      requires Valid() && Known(racks, start) && first == FirstLeastRack(racks, start)
      ensures rack in racks
      ensures if n == REPLICA_IN_FIRST_RACK then rack == first else LeastRack(counter, racks, rack)
      ensures rack == NextPlanned(racks, start, counter.racks, n)
    {
      if n == REPLICA_IN_FIRST_RACK {
        rack := first;
      } else {
        rack := NextRack(counter, racks);
      }
    }

    /** One round of the loop of `create_vdisk`. */
    method PlaceNext(rack: Rack, reps: seq<Replica>, ghost start: Counter) returns (r: Option<seq<Replica>>)
      requires Valid() && rack in racks && Filling(racks, start, counter, reps)
      requires rack == NextPlanned(racks, start.racks, counter.racks, |reps|)
      modifies this
      ensures Valid()
      ensures Stocked(racks) ==> r.Some?
      ensures r.Some? ==> |r.value| == |reps| + 1 && Filling(racks, start, counter, r.value)
    {
      var next := NextDisk(counter, racks, rack, NamesOf(reps));
      if next.None? {
        return None;
      }
      ghost var before := counter;
      FirstIsChosen(counter, rack, reps, next.value);
      var reps' := PushReplica(next.value, reps, start);
      FillingNext(racks, start, before, rack, reps, next.value, counter, reps');
      r := Some(reps');
    }

    /** The same with the choice of the rack. */
    method PlaceOneMore(first: Rack, reps: seq<Replica>, ghost start: Counter) returns (r: Option<seq<Replica>>)
      requires Valid() && Filling(racks, start, counter, reps) && first == FirstLeastRack(racks, start.racks)
      modifies this
      ensures Valid()
      ensures Stocked(racks) ==> r.Some?
      ensures r.Some? ==> |r.value| == |reps| + 1 && Filling(racks, start, counter, r.value)
    {
      var rack := RackForNext(|reps|, first, start.racks);
      r := PlaceNext(rack, reps, start);
    }

    /** The loop of `create_vdisk`. */
    method PlaceRest(first: Rack, one: seq<Replica>, count: nat, ghost start: Counter) returns (r: Option<seq<Replica>>)
      requires Valid() && |one| == 1 && Filling(racks, start, counter, one)
            && first == FirstLeastRack(racks, start.racks)
      modifies this
      ensures Valid()
      ensures Stocked(racks) ==> r.Some?
      ensures r.Some? ==> |r.value| == AtLeastOne(count) && Filling(racks, start, counter, r.value)
    {
      var reps := one;
      while |reps| < count
        invariant Valid() && Filling(racks, start, counter, reps)
        invariant 1 <= |reps| && (|reps| <= count || |reps| == 1)
      {
        var next := PlaceOneMore(first, reps, start);
        if next.None? {
          return None;
        }
        reps := next.value;
      }
      r := Some(reps);
    }

    /** `create_vdisk`. At least one replica is placed even when none is asked for. */
    method CreateVDisk(id: nat, count: nat) returns (r: Option<VDisk>)
      requires Valid()
      modifies this
      ensures Valid()
      ensures Stocked(racks) ==> r.Some?
      ensures r.Some? ==>
                && r.value.id == id
                && |r.value.replicas| == AtLeastOne(count)
                && Placed(old(counter), counter, r.value.replicas)
      ensures r.Some? ==> DistinctNodes(racks, r.value.replicas) && ThirdJoinsFirst(racks, r.value.replicas)
      ensures r.Some? ==>
                && Planned(racks, old(counter).racks, counter.racks, r.value.replicas)
                && NewExactly(racks, old(counter).racks, r.value.replicas)
                && Greedily(racks, old(counter), counter, r.value.replicas)
      ensures r.Some? && count <= 1 ==> SinglePlacement(racks, old(counter), counter)
    {
      ghost var start := counter;
      var first := NextRack(counter, racks);
      FillingNone(racks, counter);
      var one := PlaceNext(first, [], start);
      if one.None? {
        return None;
      }
      var all := PlaceRest(first, one.value, count, start);
      if all.None? {
        return None;
      }
      FilledExactly(racks, start, counter, all.value);
      if count <= 1 {
        GreedilySingle(racks, start, counter, all.value);
      }
      r := Some(VDisk(id, all.value));
    }

    /** `next_rack_from_list`, or `next_rack` when no listed rack is among the least used. */
    method PreferredRack(list: seq<RackName>) returns (rack: Rack)
      requires Valid()
      ensures LeastRack(counter, racks, rack)
      ensures (exists r :: LeastRack(counter, racks, r) && r.name in list) ==> rack.name in list
      ensures rack == ListedRack(racks, counter.racks, list)
    {
      rack := NextRack(counter, racks);
      FirstListedMeaning(racks, counter.racks, counter.racks[rack.name], list);
      var listed := FindListed(racks, counter.racks, counter.racks[rack.name], list);
      if listed.Some? {
        rack := listed.value;
      }
    }

    /** A least used disk among the allowed ones of the rack, from the old vdisk if possible. */
    method PreferredDisk(rack: Rack, banned: seq<NodeName>, list: seq<Replica>) returns (r: Option<Place>)
      requires Valid() && rack in racks
      ensures r.Some? ==> InRacks(r.value, racks) && LeastInNode(counter, r.value)
      ensures r.Some? ==> Least(counter, Candidates(rack, banned), r.value) && r.value in Candidates(rack, banned)
      ensures r.Some? ==> Chosen(counter, rack, banned, list, r.value)
      ensures DisksOf(rack.name, rack.nodes, []) != [] ==> r.Some?
    {
      RackCounted(counter, racks, rack, banned);
      r := MinFromList(counter, DisksOf(rack.name, rack.nodes, banned), list);
      if r.None? {
        r := NextDisk(counter, racks, rack, banned);
      } else {
        LeastOfNode(counter, racks, rack, banned, r.value);
      }
    }

    method FirstFromAnother(list: seq<Replica>) returns (p: Place)
      requires Valid() && AllDisks(racks) != []
      ensures InRacks(p, racks) && LeastInNode(counter, p) && Least(counter, AllDisks(racks), p)
      ensures ChosenAmong(counter, AllDisks(racks), AllDisks(racks), list, p)
      ensures Counted(counter, AllDisks(racks)) && p == PreferredPlace(counter, AllDisks(racks), list)
    {
      AllDisksContents(racks);
      forall q | q in AllDisks(racks) ensures q.node in counter.disks && q.disk in counter.disks[q.node] {
        PlaceCounted(counter, racks, q);
      }
      var r := MinFromList(counter, AllDisks(racks), list);
      if r.None? {
        r := MinByKey(counter, AllDisks(racks));
      }
      PreferredIsChosen(counter, AllDisks(racks), list);
      LeastOfAll(counter, racks, r.value);
      p := r.value;
    }

    method PreferredRacks(origin: VDisk) returns (list: seq<RackName>)
      ensures forall n :: n in list <==> exists r | r in racks :: r.name == n && HasNodeOf(r, origin)
      ensures list == PreferredNames(racks, origin)
    {
      list := [];
      for i := 0 to |racks|
        invariant forall n :: n in list <==> exists j | 0 <= j < i :: racks[j].name == n && HasNodeOf(racks[j], origin)
        invariant list == PreferredNames(racks[..i], origin)
      {
        assert racks[..i + 1][..i] == racks[..i];
        if exists x | x in origin.replicas :: exists k | k in racks[i].nodes :: k.name == x.node {
          list := list + [racks[i].name];
        }
      }
      assert racks[..|racks|] == racks;
    }

    /** One round of the loop of `create_vdisk_from_another`. */
    method PlaceNextAnew(p: Place, preferred: seq<RackName>, list: seq<Replica>, reps: seq<Replica>,
                         ghost start: Counter)
      returns (r: Option<seq<Replica>>)
      requires Valid() && 1 <= |reps| && Refilling(racks, start, counter, p, preferred, list, reps)
      modifies this
      ensures Valid()
      ensures Stocked(racks) ==> r.Some?
      ensures r.Some? ==> |r.value| == |reps| + 1 && Refilling(racks, start, counter, p, preferred, list, r.value)
    {
      var rack := PreferredRack(preferred);
      var next := PreferredDisk(rack, NamesOf(reps), list);
      if next.None? {
        return None;
      }
      ghost var before := counter;
      var reps' := PushReplica(next.value, reps, start);
      RefillingNext(racks, start, before, p, preferred, list, reps, rack, next.value, counter, reps');
      r := Some(reps');
    }

    /** The loop of `create_vdisk_from_another`. */
    method PlaceRestAnew(p: Place, preferred: seq<RackName>, list: seq<Replica>, one: seq<Replica>,
                         ghost start: Counter)
      returns (r: Option<seq<Replica>>)
      requires Valid() && |one| == 1 && Refilling(racks, start, counter, p, preferred, list, one)
      modifies this
      ensures Valid()
      ensures Stocked(racks) ==> r.Some?
      ensures r.Some? ==>
                |r.value| == AtLeastOne(|list|) && Refilling(racks, start, counter, p, preferred, list, r.value)
    {
      var reps := one;
      while |reps| < |list|
        invariant Valid() && Refilling(racks, start, counter, p, preferred, list, reps)
        invariant 1 <= |reps| && (|reps| <= |list| || |reps| == 1)
      {
        var next := PlaceNextAnew(p, preferred, list, reps, start);
        if next.None? {
          return None;
        }
        reps := next.value;
      }
      r := Some(reps);
    }

    /** `create_vdisk_from_another`: same id and number of replicas, disks again least used in their nodes. */
    method CreateVDiskFromAnother(origin: VDisk) returns (r: Option<VDisk>)
      requires Valid() && AllDisks(racks) != []
      modifies this
      ensures Valid()
      ensures Stocked(racks) ==> r.Some?
      ensures r.Some? ==> PlacedAnew(racks, old(counter), counter, origin, r.value)
    {
      var p := FirstFromAnother(origin.replicas);
      var preferred := PreferredRacks(origin);
      var one := PushReplica(p, [], counter);
      RefillingFirst(racks, old(counter), preferred, origin.replicas, p, counter, one);
      var all := PlaceRestAnew(p, preferred, origin.replicas, one, old(counter));
      if all.None? {
        return None;
      }
      RefilledExactly(racks, old(counter), counter, p, preferred, all.value, origin);
      r := Some(VDisk(origin.id, all.value));
    }

    /** The loop of `simple_gen`. */
    method Generate(replicas: nat, count: nat) returns (r: Option<seq<VDisk>>)
      requires Valid()
      requires forall n, d | n in counter.disks && d in counter.disks[n] :: counter.disks[n][d] == 0
      modifies this
      ensures Valid()
      ensures Stocked(racks) ==> r.Some?
      ensures r.Some? ==> |r.value| == count && Progress(racks, old(counter), counter, replicas, r.value)
    {
      var vdisks: seq<VDisk> := [];
      ghost var start := counter;
      ProgressStart(racks, counter, replicas);
      while |vdisks| < count
        invariant Valid() && |vdisks| <= count
        invariant Progress(racks, start, counter, replicas, vdisks)
      {
        ghost var before := counter;
        var vdisk := CreateVDisk(|vdisks|, replicas);
        if vdisk.None? {
          return None;
        }
        StaysEven(racks, before, counter, replicas, |vdisks|);
        GeneratedNext(racks, start, before, counter, vdisks, vdisk.value, vdisks + [vdisk.value]);
        ProgressStep(racks, start, before, counter, replicas, vdisks, vdisk.value, vdisks + [vdisk.value]);
        vdisks := vdisks + [vdisk.value];
      }
      r := Some(vdisks);
    }

    /** The number of vdisks: the one asked for, or the least whose replicas give every disk its share. */
    method VDisksFor(replicas: nat, total: Option<nat>, perDisk: Option<nat>) returns (count: nat)
      requires if perDisk.Some? then replicas > 0 else total.Some?
      ensures perDisk.None? ==> count == total.value
      ensures perDisk.Some? ==> Covers(count, replicas, perDisk.value * |AllDisks(racks)|)
      ensures perDisk.Some? && replicas == 1 ==> count == perDisk.value * |AllDisks(racks)|
    {
      if perDisk.Some? {
        CeilMeaning(perDisk.value * |AllDisks(racks)|, replicas);
        count := Ceil(perDisk.value * |AllDisks(racks)|, replicas);
      } else {
        count := total.value;
      }
    }

    /**
     `simple_gen`. A disk's counter is the number of replicas it was given. With one rack, single
     replicas and a number of vdisks per disk, every disk gets exactly that number.
     */
    method SimpleGen(replicas: nat, total: Option<nat>, perDisk: Option<nat>) returns (r: Option<seq<VDisk>>)
      requires Valid()
      requires forall n, d | n in counter.disks && d in counter.disks[n] :: counter.disks[n][d] == 0
      requires if perDisk.Some? then replicas > 0 else total.Some?
      modifies this
      ensures Valid()
      ensures Stocked(racks) ==> r.Some?
      ensures r.Some? && perDisk.None? ==> |r.value| == total.value
      ensures r.Some? && perDisk.Some? ==> Covers(|r.value|, replicas, perDisk.value * |AllDisks(racks)|)
      ensures r.Some? ==> WellPlaced(racks, old(counter).racks, replicas, r.value)
      ensures r.Some? ==> CountsReplicas(counter, AllReplicas(r.value))
      ensures r.Some? && |racks| == 1 && replicas == 1 && perDisk.Some? && NoDup(AllDisks(racks)) ==>
                UsedExactly(AllDisks(racks), counter, perDisk.value)
      ensures r.Some? ==> Generated(racks, old(counter), counter, r.value)
      ensures r.Some? && |racks| == 1 && AtLeastOne(replicas) <= |NodesWithDisks(racks[0].nodes)| ==>
                EvenUse(AllDisks(racks), counter)
    {
      var count := VDisksFor(replicas, total, perDisk);
      r := Generate(replicas, count);
      if r.Some? {
        GeneratedCounts(racks, old(counter), counter, replicas, r.value);
        if |racks| == 1 && replicas == 1 && perDisk.Some? && NoDup(AllDisks(racks)) {
          GeneratedEvenly(racks, old(counter), counter, r.value, perDisk.value);
        }
        if |racks| == 1 && AtLeastOne(replicas) <= |NodesWithDisks(racks[0].nodes)| {
          GeneratedFairly(racks, old(counter), counter, replicas, r.value);
        }
      }
    }

    /** One round of the loop of `simple_expand`. */
    method ExpandNext(olds: seq<VDisk>, vdisks: seq<VDisk>, ghost start: Counter) returns (r: Option<seq<VDisk>>)
      requires Valid() && AllDisks(racks) != [] && |vdisks| < |olds| && Rebuilt(racks, start, counter, olds, vdisks)
      modifies this
      ensures Valid()
      ensures Stocked(racks) ==> r.Some?
      ensures r.Some? ==> |r.value| == |vdisks| + 1 && Rebuilt(racks, start, counter, olds, r.value)
    {
      ghost var before := counter;
      var vdisk := CreateVDiskFromAnother(olds[|vdisks|]);
      if vdisk.None? {
        return None;
      }
      var all := vdisks + [vdisk.value];
      RebuiltNext(racks, start, before, counter, olds, vdisks, vdisk.value, all);
      r := Some(all);
    }

    /** The loop of `simple_expand`: every old vdisk is placed anew under its id. */
    method SimpleExpand(olds: seq<VDisk>) returns (r: Option<seq<VDisk>>)
      requires Valid() && AllDisks(racks) != []
      modifies this
      ensures Valid()
      ensures Stocked(racks) ==> r.Some?
      ensures r.Some? ==> |r.value| == |olds| && Rebuilt(racks, old(counter), counter, olds, r.value)
    {
      var vdisks: seq<VDisk> := [];
      ghost var start := counter;
      NoneRebuilt(racks, counter, olds);
      for i := 0 to |olds|
        invariant Valid() && |vdisks| == i && Rebuilt(racks, start, counter, olds, vdisks)
      {
        var more := ExpandNext(olds, vdisks, start);
        if more.None? {
          return None;
        }
        vdisks := more.value;
      }
      r := Some(vdisks);
    }
  }

  function AtLeastOne(replicas: nat): nat {
    if replicas == 0 then 1 else replicas
  }

  /** Rack counters after `i` vdisks, from those before the first. */
  function GenCounts(racks: seq<Rack>, counts: map<RackName, nat>, replicas: nat, i: nat): (now: map<RackName, nat>)
    requires Known(racks, counts)
    ensures Known(racks, now)
  {
    if i == 0 then counts else
      var before := GenCounts(racks, counts, replicas, i - 1);
      AfterPlan(before, NewPlan(racks, before, AtLeastOne(replicas)))
  }

  /** Id, number of replicas and, decided by the rack counters, whether the nodes are distinct. */
  ghost predicate VDiskPlacedWell(racks: seq<Rack>, counts: map<RackName, nat>, replicas: nat, id: nat, v: VDisk) {
    && v.id == id
    && |v.replicas| == AtLeastOne(replicas)
    && DistinctNodes(racks, v.replicas) && ThirdJoinsFirst(racks, v.replicas)
    && NewExactly(racks, counts, v.replicas)
  }

  /** Ids count from 0, and every vdisk has the asked number of replicas, on distinct nodes exactly if its plan fits. */
  ghost predicate WellPlaced(racks: seq<Rack>, counts: map<RackName, nat>, replicas: nat, vdisks: seq<VDisk>) {
    && Known(racks, counts)
    && forall i | 0 <= i < |vdisks| ::
         VDiskPlacedWell(racks, GenCounts(racks, counts, replicas, i), replicas, i, vdisks[i])
  }

  /** One replica went to a disk that was least used in some rack. */
  ghost predicate SinglePlacement(racks: seq<Rack>, c: Counter, c': Counter) {
    exists rack, p | rack in racks :: FirstPlace(c, rack, p) && c' == Inc(c, p)
  }

  /** What holds between two vdisks of a generation. */
  ghost predicate Progress(racks: seq<Rack>, start: Counter, c: Counter, replicas: nat, vdisks: seq<VDisk>) {
    && Placed(start, c, AllReplicas(vdisks))
    && WellPlaced(racks, start.racks, replicas, vdisks)
    && c.racks == GenCounts(racks, start.racks, replicas, |vdisks|)
    && EvenSoFar(racks, c, replicas, |vdisks|)
    && Generated(racks, start, c, vdisks)
  }

  /** Each vdisk is placed greedily, from the counters the one before it left. */
  ghost predicate Generated(racks: seq<Rack>, start: Counter, c: Counter, vdisks: seq<VDisk>) {
    exists cs: seq<Counter> :: AllGreedy(racks, cs, vdisks) && cs[0] == start && cs[|vdisks|] == c
  }

  ghost predicate AllGreedy(racks: seq<Rack>, cs: seq<Counter>, vdisks: seq<VDisk>) {
    |cs| == |vdisks| + 1 && forall i | 0 <= i < |vdisks| :: Greedily(racks, cs[i], cs[i + 1], vdisks[i].replicas)
  }

  lemma GeneratedNone(racks: seq<Rack>, c: Counter)
    ensures Generated(racks, c, c, [])
  {
    var cs := [c];
    assert AllGreedy(racks, cs, []) && cs[0] == c;
  }

  lemma AllGreedyNext(racks: seq<Rack>, cs: seq<Counter>, c': Counter, vdisks: seq<VDisk>, v: VDisk, all: seq<VDisk>)
    requires AllGreedy(racks, cs, vdisks) && all == vdisks + [v]
    requires Greedily(racks, cs[|vdisks|], c', v.replicas)
    ensures AllGreedy(racks, cs + [c'], all)
  {
    var cs' := cs + [c'];
    forall i | 0 <= i < |all| ensures Greedily(racks, cs'[i], cs'[i + 1], all[i].replicas) {
      if i < |vdisks| {
        assert all[i] == vdisks[i] && cs'[i] == cs[i] && cs'[i + 1] == cs[i + 1];
      }
    }
  }

  lemma GeneratedNext(racks: seq<Rack>, start: Counter, c: Counter, c': Counter, vdisks: seq<VDisk>, v: VDisk,
                      all: seq<VDisk>)
    requires Generated(racks, start, c, vdisks) && Greedily(racks, c, c', v.replicas) && all == vdisks + [v]
    ensures Generated(racks, start, c', all)
  {
    var cs: seq<Counter> :| AllGreedy(racks, cs, vdisks) && cs[0] == start && cs[|vdisks|] == c;
    AllGreedyNext(racks, cs, c', vdisks, v, all);
  }

  lemma {:induction false} AllFair(racks: seq<Rack>, cs: seq<Counter>, replicas: nat, vdisks: seq<VDisk>, i: nat)
    requires |racks| == 1 && ValidRacks(racks) && replicas <= |NodesWithDisks(racks[0].nodes)|
    requires AllGreedy(racks, cs, vdisks) && (forall v | v in vdisks :: |v.replicas| == replicas) && i <= |vdisks|
    requires Fair(racks[0], cs[0], [])
    ensures Fair(racks[0], cs[i], [])
  {
    if i > 0 {
      AllFair(racks, cs, replicas, vdisks, i - 1);
      var reps := vdisks[i - 1].replicas;
      assert Greedily(racks, cs[i - 1], cs[i - 1 + 1], reps);
      assert racks == [racks[0]];
      FairVDisk(racks[0], cs[i - 1], cs[i], NewPlan(racks, cs[i - 1].racks, |reps|), reps);
    }
  }

  /**
   One rack and at most as many replicas as it has nodes with disks: at the end of a generation the
   use of any two disks differs only within the bounds of `EvenUse`.
   */
  lemma GeneratedFairly(racks: seq<Rack>, start: Counter, c: Counter, replicas: nat, vdisks: seq<VDisk>)
    requires |racks| == 1 && ValidRacks(racks) && AtLeastOne(replicas) <= |NodesWithDisks(racks[0].nodes)|
    requires Counts(start, racks)
    requires forall n, d | n in start.disks && d in start.disks[n] :: start.disks[n][d] == 0
    requires Generated(racks, start, c, vdisks) && WellPlaced(racks, start.racks, replicas, vdisks)
    ensures EvenUse(AllDisks(racks), c)
  {
    var cs: seq<Counter> :| AllGreedy(racks, cs, vdisks) && cs[0] == start && cs[|vdisks|] == c;
    OneRack(racks, racks[0]);
    FairStart(racks[0], start);
    AllFair(racks, cs, AtLeastOne(replicas), vdisks, |vdisks|);
    FairIsEven(racks[0], c);
  }

  lemma OneRack(racks: seq<Rack>, rack: Rack)
    requires |racks| == 1 && rack == racks[0]
    ensures racks == [rack] && AllDisks(racks) == DisksOf(rack.name, rack.nodes, [])
  {
    assert AllDisks(racks[1..]) == [];
  }

  /** Single replicas in one rack use its disks evenly. */
  ghost predicate EvenSoFar(racks: seq<Rack>, c: Counter, replicas: nat, k: nat) {
    |racks| == 1 && replicas == 1 && NoDup(AllDisks(racks)) ==> EvenRack(AllDisks(racks), c, k)
  }

  lemma GreedilySingle(racks: seq<Rack>, c: Counter, c': Counter, reps: seq<Replica>)
    requires Greedily(racks, c, c', reps) && |reps| == 1
    ensures SinglePlacement(racks, c, c')
  {
    var plan := NewPlan(racks, c.racks, 1);
    var cs: seq<Counter> :| Steps(racks, cs, plan, reps, [], 0) && cs[0] == c && cs[|reps| - 0] == c';
    assert Step(racks, cs[0], cs[0 + 1], plan[0 + 0], reps[..0 + 0], reps[0 + 0], []);
    SinglePlaced(racks, c, c', plan[0], reps[..0], reps[0]);
  }

  lemma SinglePlaced(racks: seq<Rack>, c: Counter, c': Counter, name: RackName, none: seq<Replica>, x: Replica)
    requires Step(racks, c, c', name, none, x, []) && none == []
    ensures SinglePlacement(racks, c, c')
  {
    var rack, p :| rack in racks && rack.name == name && Chosen(c, rack, NamesOf(none), [], p) && p.Replica() == x
                && Counting(c, p) && c' == Inc(c, p);
    assert NamesOf(none) == [];
    assert FirstPlace(c, rack, p);
  }

  lemma ProgressStart(racks: seq<Rack>, c: Counter, replicas: nat)
    requires racks != [] && Counts(c, racks) && forall n, d | n in c.disks && d in c.disks[n] :: c.disks[n][d] == 0
    ensures Progress(racks, c, c, replicas, [])
  {
    AllDisksContents(racks);
    forall q | q in AllDisks(racks) ensures q.node in c.disks && q.disk in c.disks[q.node] {
      PlaceCounted(c, racks, q);
    }
    SumPlacesZero(AllDisks(racks), c);
    GeneratedNone(racks, c);
  }

  lemma EvenInc(places: seq<Place>, c: Counter, p: Place, k: nat)
    requires NoDup(places) && EvenRack(places, c, k) && p in places
    requires p.rack in c.racks && p.node in c.nodes
    requires forall q | q in places :: q.rack == p.rack && Used(c, p) <= Used(c, q)
    ensures EvenRack(places, Inc(c, p), k + 1)
  {
    SumPlacesInc(places, c, p);
  }

  lemma EvenStep(racks: seq<Rack>, c: Counter, c': Counter, k: nat)
    requires |racks| == 1 && NoDup(AllDisks(racks)) && EvenRack(AllDisks(racks), c, k)
    requires SinglePlacement(racks, c, c')
    ensures EvenRack(AllDisks(racks), c', k + 1)
  {
    var rack, p :| rack in racks && FirstPlace(c, rack, p) && c' == Inc(c, p);
    var places := DisksOf(rack.name, rack.nodes, []);
    assert rack == racks[0] && AllDisks(racks[1..]) == [] && AllDisks(racks) == places;
    DisksOfContents(rack.name, rack.nodes, []);
    EvenInc(places, c, p, k);
  }

  /** A disk's counter is the number of replicas it was given. */
  ghost predicate CountsReplicas(c: Counter, reps: seq<Replica>) {
    forall n, d | n in c.disks && d in c.disks[n] :: c.disks[n][d] == multiset(reps)[Replica(n, d)]
  }

  lemma GeneratedCounts(racks: seq<Rack>, start: Counter, c: Counter, replicas: nat, vdisks: seq<VDisk>)
    requires Progress(racks, start, c, replicas, vdisks)
    requires forall n, d | n in start.disks && d in start.disks[n] :: start.disks[n][d] == 0
    ensures CountsReplicas(c, AllReplicas(vdisks))
  {
  }

  ghost predicate UsedExactly(places: seq<Place>, c: Counter, k: nat) {
    forall p | p in places :: p.node in c.disks && p.disk in c.disks[p.node] && Used(c, p) == k
  }

  lemma GeneratedEvenly(racks: seq<Rack>, start: Counter, c: Counter, vdisks: seq<VDisk>, k: nat)
    requires Progress(racks, start, c, 1, vdisks) && |racks| == 1 && NoDup(AllDisks(racks))
    requires |vdisks| == k * |AllDisks(racks)|
    ensures UsedExactly(AllDisks(racks), c, k)
  {
    EvenIsEqual(AllDisks(racks), c, k);
  }

  lemma WellPlacedNext(racks: seq<Rack>, counts: map<RackName, nat>, replicas: nat, vdisks: seq<VDisk>, v: VDisk)
    requires WellPlaced(racks, counts, replicas, vdisks)
    requires VDiskPlacedWell(racks, GenCounts(racks, counts, replicas, |vdisks|), replicas, |vdisks|, v)
    ensures WellPlaced(racks, counts, replicas, vdisks + [v])
  {
    var all := vdisks + [v];
    forall i | 0 <= i < |all|
      ensures VDiskPlacedWell(racks, GenCounts(racks, counts, replicas, i), replicas, i, all[i])
    {
      if i < |vdisks| {
        assert all[i] == vdisks[i];
      } else {
        assert all[i] == v;
      }
    }
  }

  lemma GenCountsNext(racks: seq<Rack>, counts: map<RackName, nat>, replicas: nat, i: nat,
                      now: map<RackName, nat>, now': map<RackName, nat>, reps: seq<Replica>)
    requires Known(racks, counts) && now == GenCounts(racks, counts, replicas, i)
    requires Planned(racks, now, now', reps) && |reps| == AtLeastOne(replicas)
    ensures now' == GenCounts(racks, counts, replicas, i + 1)
  {
  }

  lemma StaysEven(racks: seq<Rack>, c: Counter, c': Counter, replicas: nat, k: nat)
    requires EvenSoFar(racks, c, replicas, k) && (replicas <= 1 ==> SinglePlacement(racks, c, c'))
    ensures EvenSoFar(racks, c', replicas, k + 1)
  {
    if |racks| == 1 && replicas == 1 && NoDup(AllDisks(racks)) {
      EvenStep(racks, c, c', k);
    }
  }

  lemma ProgressStep(racks: seq<Rack>, start: Counter, c: Counter, c': Counter, replicas: nat, vdisks: seq<VDisk>,
                     v: VDisk, all: seq<VDisk>)
    requires Progress(racks, start, c, replicas, vdisks) && Placed(c, c', v.replicas) && all == vdisks + [v]
    requires VDiskPlacedWell(racks, c.racks, replicas, |vdisks|, v) && Planned(racks, c.racks, c'.racks, v.replicas)
    requires EvenSoFar(racks, c', replicas, |all|) && Generated(racks, start, c', all)
    ensures Progress(racks, start, c', replicas, all)
  {
    VDiskPlaced(start, c, c', vdisks, v);
    WellPlacedNext(racks, start.racks, replicas, vdisks, v);
    GenCountsNext(racks, start.racks, replicas, |vdisks|, c.racks, c'.racks, v.replicas);
  }

  function Ceil(a: nat, b: nat): nat
    requires b > 0
  {
    if a % b > 0 then a / b + 1 else a / b
  }

  /** As many vdisks as are needed for so many replicas, and not one more. */
  ghost predicate Covers(count: int, replicas: nat, needed: nat) {
    count * replicas >= needed > (count - 1) * replicas
  }

  lemma CeilMeaning(a: nat, b: nat)
    requires b > 0
    ensures Covers(Ceil(a, b), b, a)
    ensures b == 1 ==> Ceil(a, b) == a
  {
    assert a == b * (a / b) + a % b;
  }

  /** After `k` single replicas in one rack: uses add up to `k` and differ by at most one. */
  ghost predicate EvenRack(places: seq<Place>, c: Counter, k: nat) {
    && (forall q | q in places :: q.node in c.disks && q.disk in c.disks[q.node])
    && Even(places, c) && SumPlaces(places, c) == k
  }

  lemma {:induction false} SumPlacesZero(places: seq<Place>, c: Counter)
    requires forall q | q in places :: q.node in c.disks && q.disk in c.disks[q.node] && Used(c, q) == 0
    ensures SumPlaces(places, c) == 0
  {
    if places != [] {
      SumPlacesZero(places[1..], c);
    }
  }

  /** The first replica goes to a disk that is least used in its rack. */
  ghost predicate FirstPlace(c: Counter, rack: Rack, p: Place) {
    && p.rack in c.racks && p.node in c.nodes && p.node in c.disks && p.disk in c.disks[p.node]
    && Least(c, DisksOf(rack.name, rack.nodes, []), p)
  }

  // ---- all counters at zero ----

  function DisksNamed(racks: seq<Rack>, name: NodeName): set<DiskName> {
    set r, n, d | r in racks && n in r.nodes && n.name == name && d in n.disks :: d
  }

  function RackNames(racks: seq<Rack>): set<RackName> {
    set r | r in racks :: r.name
  }

  function NodeNames(racks: seq<Rack>): set<NodeName> {
    set r, n | r in racks && n in r.nodes :: n.name
  }

  function ZeroCounter(racks: seq<Rack>): Counter {
    Counter(
      map r | r in RackNames(racks) :: 0,
      map n | n in NodeNames(racks) :: 0,
      map n | n in NodeNames(racks) && DisksNamed(racks, n) != {} :: (map d | d in DisksNamed(racks, n) :: 0))
  }

  lemma {:induction false} SumMapZero(m: map<DiskName, nat>)
    requires forall k | k in m :: m[k] == 0
    ensures SumMap(m) == 0
    decreases |m|
  {
    if m != map[] {
      var k :| k in m && SumMap(m) == m[k] + SumMap(m - {k});
      SumMapZero(m - {k});
    }
  }

  lemma {:induction false} SumNodesZero(nodes: seq<Node>, used: map<NodeName, nat>)
    requires forall n | n in nodes :: n.name in used && used[n.name] == 0
    ensures SumNodes(nodes, used) == 0
  {
    if nodes != [] {
      SumNodesZero(nodes[1..], used);
    }
  }

  lemma DisksNamedExactly(racks: seq<Rack>, r: Rack, n: Node)
    requires ValidRacks(racks) && r in racks && n in r.nodes
    ensures n.name in NodeNames(racks) && DisksNamed(racks, n.name) == Elems(n.disks)
  {
    forall r', n' | r' in racks && n' in r'.nodes && n'.name == n.name ensures n' == n {
      SameName(racks, r, n, r', n');
    }
  }

  lemma ZeroCountsNode(racks: seq<Rack>, n: Node, c: Counter)
    requires c == ZeroCounter(racks) && n.name in NodeNames(racks) && DisksNamed(racks, n.name) == Elems(n.disks)
    ensures n.name in c.nodes && (n.disks != [] ==> n.name in c.disks)
    ensures n.name in c.disks ==> c.disks[n.name].Keys == Elems(n.disks)
  {
    if n.disks != [] {
      assert n.disks[0] in Elems(n.disks);
    }
  }

  lemma ZeroCounts(racks: seq<Rack>, c: Counter)
    requires ValidRacks(racks) && c == ZeroCounter(racks)
    ensures Counts(c, racks)
  {
    forall r, n | r in racks && n in r.nodes
      ensures n.name in c.nodes && (n.disks != [] ==> n.name in c.disks)
           && (n.name in c.disks ==> c.disks[n.name].Keys == Elems(n.disks))
    {
      DisksNamedExactly(racks, r, n);
      ZeroCountsNode(racks, n, c);
    }
    assert forall r | r in racks :: r.name in RackNames(racks);
  }

  lemma ZeroSums(racks: seq<Rack>)
    requires Counts(ZeroCounter(racks), racks)
    ensures Sums(ZeroCounter(racks), racks)
  {
    var c := ZeroCounter(racks);
    forall r | r in racks ensures SumNodes(r.nodes, c.nodes) == 0 {
      SumNodesZero(r.nodes, c.nodes);
    }
    forall n | n in c.disks ensures SumMap(c.disks[n]) == 0 {
      SumMapZero(c.disks[n]);
    }
  }

  // ---- enough nodes, and still one twice ----

  /** First rack, second rack, first rack; distinct nodes exactly if the first rack has two of them. */
  ghost predicate TwoRacksOutcome(racks: seq<Rack>, reps: seq<Replica>)
    requires |racks| == 2
  {
    && Follows(racks, [racks[0].name, racks[1].name, racks[0].name], reps)
    && (NoDup(NamesOf(reps)) <==> 2 <= |NodesWithDisks(racks[0].nodes)| && 1 <= |NodesWithDisks(racks[1].nodes)|)
  }

  /** A new cluster of two racks, and a vdisk of three replicas. */
  method ThreeInTwoRacks(racks: seq<Rack>) returns (v: VDisk)
    requires ValidRacks(racks) && |racks| == 2 && forall k | k in racks :: DisksOf(k.name, k.nodes, []) != []
    ensures |v.replicas| == 3 && TwoRacksOutcome(racks, v.replicas)
  {
    var center := new Center(racks);
    ghost var start := center.counter;
    var r := center.CreateVDisk(0, 3);
    v := r.value;
    TwoRacksResult(racks, start, center.counter, v.replicas);
  }

  lemma TwoRacksResult(racks: seq<Rack>, start: Counter, c: Counter, reps: seq<Replica>)
    requires ValidRacks(racks) && |racks| == 2 && start == ZeroCounter(racks) && |reps| == 3
    requires Planned(racks, start.racks, c.racks, reps) && NewExactly(racks, start.racks, reps)
    ensures TwoRacksOutcome(racks, reps)
  {
    var a, b := racks[0].name, racks[1].name;
    ZeroRack(racks, racks[0]);
    ZeroRack(racks, racks[1]);
    TwoRacksPlan(racks, start.racks, a, b);
    TwoRacksExactly(racks, start.racks, a, b);
    PickedFollows(racks, [a, b, a], reps);
  }

  lemma ZeroRack(racks: seq<Rack>, r: Rack)
    requires r in racks
    ensures r.name in ZeroCounter(racks).racks && ZeroCounter(racks).racks[r.name] == 0
  {
  }

  /** One node in the first rack, three in the second. */
  function LopsidedRacks(): seq<Rack> {
    [Rack("A", [Node("a", ["d"])]), Rack("B", [Node("b1", ["d"]), Node("b2", ["d"]), Node("b3", ["d"])])]
  }

  /** Four nodes with disks, and a new vdisk of three replicas lists the same replica twice. */
  lemma LopsidedTwice(reps: seq<Replica>)
    requires Follows(LopsidedRacks(), ["A", "B", "A"], reps)
    ensures |NodesWithDisks(LopsidedRacks()[0].nodes)| + |NodesWithDisks(LopsidedRacks()[1].nodes)| == 4
    ensures reps[0] == reps[2] == Replica("a", "d")
  {
    LopsidedNodes(LopsidedRacks()[0].nodes, LopsidedRacks()[1].nodes);
    assert InNamedRack(LopsidedRacks(), "A", reps[0]) && InNamedRack(LopsidedRacks(), "A", reps[2]);
    OnlyDisk(LopsidedRacks(), reps[0]);
    OnlyDisk(LopsidedRacks(), reps[2]);
  }

  lemma LopsidedNodes(one: seq<Node>, three: seq<Node>)
    requires one == LopsidedRacks()[0].nodes && three == LopsidedRacks()[1].nodes
    ensures NodesWithDisks(one) == {"a"} && NodesWithDisks(three) == {"b1", "b2", "b3"}
  {
    assert one[0] in one && three[0] in three && three[1] in three && three[2] in three;
  }

  /** The input is one a caller may give. */
  lemma LopsidedValid(racks: seq<Rack>)
    requires racks == LopsidedRacks()
    ensures ValidRacks(racks)
  {
  }

  lemma LopsidedHasDisks(racks: seq<Rack>)
    requires racks == LopsidedRacks()
    ensures forall k | k in racks :: DisksOf(k.name, k.nodes, []) != []
  {
  }

  lemma OnlyDisk(racks: seq<Rack>, x: Replica)
    requires racks == LopsidedRacks() && InNamedRack(racks, "A", x)
    ensures x == Replica("a", "d")
  {
    DisksOfContents("A", racks[0].nodes, []);
  }

  method LopsidedVDisk() returns (v: VDisk)
    ensures |v.replicas| == 3 && v.replicas[0] == v.replicas[2] == Replica("a", "d")
  {
    var racks := LopsidedRacks();
    LopsidedValid(racks);
    LopsidedHasDisks(racks);
    v := ThreeInTwoRacks(racks);
    LopsidedTwice(v.replicas);
  }
}
