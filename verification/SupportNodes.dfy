/**
 Choice of support nodes: nodes that keep data for targets which cannot. Nodes are their positions
 in the cluster config. Connection flags are read while other tasks change them, so a flag is a
 function of the number of the read and of the node; `t` numbers the reads.
 */
module SupportNodes {
  import opened Types
  import opened Arith
  import opened Counting

  type Flags = (nat, nat) -> bool

  /** The snapshot in which exactly the nodes of `up` are connected during every read. */
  ghost predicate Stable(flags: Flags, up: set<nat>) {
    forall t: nat, i: nat :: flags(t, i) <==> i in up
  }

  /** Connected non-target nodes among the first `n`, in order. */
  function Available(n: nat, targets: set<nat>, up: set<nat>): seq<nat> {
    if n == 0 then []
    else Available(n - 1, targets, up) + (if n - 1 in up && n - 1 !in targets then [n - 1] else [])
  }

  lemma {:induction false} AvailableContents(n: nat, targets: set<nat>, up: set<nat>)
    ensures forall i :: i in Available(n, targets, up) <==> 0 <= i < n && i in up && i !in targets
  {
    if n > 0 {
      AvailableContents(n - 1, targets, up);
    }
  }

  lemma {:induction false} AvailablePrefix(k: nat, n: nat, targets: set<nat>, up: set<nat>)
    requires k <= n
    ensures Available(k, targets, up) <= Available(n, targets, up)
  {
    if k < n {
      AvailablePrefix(k, n - 1, targets, up);
    }
  }

  /** Skips `offset` available nodes; reports the next one, or how many there were. */
  method OnePass(n: nat, targets: set<nat>, offset: nat, flags: Flags, t: nat, ghost up: set<nat>)
    returns (index: Option<nat>, avail: nat, t': nat)
    ensures index.Some? ==> index.value < n && index.value !in targets && avail == offset + 1
    ensures index.None? ==> avail <= offset
    ensures t <= t'
    ensures Stable(flags, up) ==>
              var a := Available(n, targets, up);
              if offset < |a| then index == Some(a[offset]) else index == None && avail == |a|
  {
    avail, t' := 0, t;
    for i := 0 to n
      invariant avail <= offset && t <= t'
      invariant Stable(flags, up) ==> avail == |Available(i, targets, up)|
    {
      var connected := flags(t', i);
      t' := t' + 1;
      if connected && i !in targets {
        if avail == offset {
          AvailablePrefix(i + 1, n, targets, up);
          return Some(i), avail + 1, t';
        }
        avail := avail + 1;
      }
    }
    index := None;
  }

  /** Position, among `a` available of `m` non-target nodes, that a given offset selects. */
  function Pos(m: nat, a: nat, offset: nat): nat
    requires 0 < a <= m
  {
    if offset % m < a then offset % m else offset % a
  }

  /** Start index for the support nodes; ends however the flags change in the meantime. */
  method FindOffset(n: nat, targets: set<nat>, offset: nat, flags: Flags, t: nat, ghost up: set<nat>)
    returns (index: nat, t': nat)
    requires n > 0
    ensures index < n
    ensures Stable(flags, up) && |targets| < n && 0 < |Available(n, targets, up)| <= n - |targets| ==>
              index == Available(n, targets, up)[Pos(n - |targets|, |Available(n, targets, up)|, offset)]
  {
    if |targets| >= n {
      return offset % n, t;
    }
    ghost var a := Available(n, targets, up);
    var found: Option<nat>, avail: nat, t1: nat := OnePass(n, targets, offset % (n - |targets|), flags, t, up);
    t' := t1;
    if found.None? && avail > 0 {
      var curr := offset % avail;
      while found.None? && avail > 0
        invariant found.Some? ==> found.value < n
        invariant found.None? ==> 0 <= curr
        invariant Stable(flags, up) && 0 < |a| <= n - |targets| ==>
                    if found.None? then avail == |a| && curr == offset % |a| && offset % (n - |targets|) >= |a|
                    else found == Some(a[Pos(n - |targets|, |a|, offset)])
        decreases if found.None? && avail > 0 then curr + 1 else 0
      {
        found, avail, t' := OnePass(n, targets, curr, flags, t', up);
        curr := if curr > avail then curr - avail else 0;
      }
    }
    index := match found case Some(i) => i case None => offset % n;
  }

  // ---- the selection ----

  function Rotated(i: nat, start: nat, n: nat): nat
    requires n > 0
  {
    (i + start) % n
  }

  lemma RotatedValue(i: nat, start: nat, n: nat)
    requires i < n && start < n
    ensures Rotated(i, start, n) == if i + start < n then i + start else i + start - n
  {
    if i + start < n {
      ModUnique(i + start, n, 0, i + start);
    } else {
      ModUnique(i + start, n, 1, i + start - n);
    }
  }

  lemma RotationCovers(k: nat, start: nat, n: nat) returns (i: nat)
    requires k < n && start < n
    ensures i < n && Rotated(i, start, n) == k
  {
    i := if k >= start then k - start else k + n - start;
    RotatedValue(i, start, n);
  }

  lemma RotationInjective(j: nat, i: nat, start: nat, n: nat)
    requires j < i < n && start < n
    ensures Rotated(j, start, n) != Rotated(i, start, n)
  {
    RotatedValue(i, start, n);
    RotatedValue(j, start, n);
  }

  ghost function Below(n: nat): (r: set<nat>)
    ensures forall i: nat :: i in r <==> i < n
    ensures |r| == n
  {
    if n == 0 then {} else Below(n - 1) + {n - 1}
  }

  ghost predicate Selection(n: nat, targets: set<nat>, sup: seq<nat>) {
    NoDup(sup) && forall i | i in sup :: i < n && i !in targets
  }

  lemma SelectionBound(n: nat, targets: set<nat>, sup: seq<nat>)
    requires targets <= Below(n) && Selection(n, targets, sup)
    ensures |sup| <= n - |targets|
    ensures (forall i: nat | i < n && i !in targets :: i in sup) ==> |sup| == n - |targets|
  {
    NoDupCardinality(sup);
    assert |Below(n) - targets| == n - |targets| by {
      assert Below(n) == (Below(n) - targets) + targets;
    }
    assert Elems(sup) <= Below(n) - targets;
    SubsetCardinality(Elems(sup), Below(n) - targets);
    if forall i: nat | i < n && i !in targets :: i in sup {
      assert Elems(sup) == Below(n) - targets;
    }
  }

  /** First pass: connected non-target nodes from `start` on, until there are `count`. */
  method ConnectedPass(n: nat, targets: set<nat>, count: nat, start: nat, flags: Flags, t: nat, ghost up: set<nat>)
    returns (sup: seq<nat>)
    requires 0 < count && start < n
    ensures Selection(n, targets, sup) && |sup| <= count
    ensures Stable(flags, up) ==> forall i | i in sup :: i in up
    ensures Stable(flags, up) && |sup| < count ==> forall i: nat | i < n && i in up && i !in targets :: i in sup
    ensures Stable(flags, up) && start in up && start !in targets ==> |sup| > 0 && sup[0] == start
  {
    sup := [];
    var t' := t;
    RotatedValue(0, start, n);
    for i := 0 to n
      invariant Selection(n, targets, sup) && |sup| < count && (i == 0 ==> sup == [])
      invariant forall x | x in sup :: exists j :: 0 <= j < i && x == Rotated(j, start, n)
      invariant Stable(flags, up) ==> forall x | x in sup :: x in up
      invariant Stable(flags, up) ==>
                  forall j | 0 <= j < i :: Rotated(j, start, n) in up && Rotated(j, start, n) !in targets ==>
                    Rotated(j, start, n) in sup
      invariant Stable(flags, up) && start in up && start !in targets && i > 0 ==> |sup| > 0 && sup[0] == start
    {
      var node := Rotated(i, start, n);
      var connected := flags(t', node);
      t' := t' + 1;
      if connected && node !in targets {
        forall j | 0 <= j < i ensures Rotated(j, start, n) != node {
          RotationInjective(j, i, start, n);
        }
        NoDupAppend(sup, node);
        assert forall x :: x in sup + [node] <==> x in sup || x == node;
        sup := sup + [node];
        if |sup| >= count {
          return;
        }
      }
    }
    if Stable(flags, up) {
      forall k: nat | k < n && k in up && k !in targets ensures k in sup {
        var j := RotationCovers(k, start, n);
      }
    }
  }

  /** Second pass: any non-target node from `start` on that is not chosen yet. */
  method FillPass(n: nat, targets: set<nat>, count: nat, start: nat, first: seq<nat>) returns (sup: seq<nat>)
    requires targets <= Below(n) && start < n
    requires Selection(n, targets, first) && |first| < count
    ensures Selection(n, targets, sup) && first <= sup
    ensures |sup| == if count <= n - |targets| then count else n - |targets|
  {
    sup := first;
    for i := 0 to n
      invariant Selection(n, targets, sup) && first <= sup && |sup| < count
      invariant forall j | 0 <= j < i :: Rotated(j, start, n) in sup || Rotated(j, start, n) in targets
    {
      var node := Rotated(i, start, n);
      if node !in sup && node !in targets {
        NoDupAppend(sup, node);
        sup := sup + [node];
        if |sup| >= count {
          SelectionBound(n, targets, sup);
          return;
        }
      }
    }
    forall k: nat | k < n && k !in targets ensures k in sup {
      var j := RotationCovers(k, start, n);
    }
    SelectionBound(n, targets, sup);
  }

  /**
   `get_support_nodes` with the offset it drew. Whatever the flags do, it returns as many distinct
   non-target nodes as asked for and existing. Under stable flags it prefers connected nodes and
   starts at the node the offset stands for.
   */
  method SupportFrom(n: nat, targets: set<nat>, count: nat, offset: nat, flags: Flags, t: nat, ghost up: set<nat>)
    returns (sup: seq<nat>)
    requires targets <= Below(n)
    ensures Selection(n, targets, sup)
    ensures |sup| == if count <= n - |targets| then count else n - |targets|
    ensures Stable(flags, up) && (exists i: nat | i < n :: i in up && i !in targets && i !in sup) ==>
              forall i | i in sup :: i in up
    ensures Stable(flags, up) && 0 < count && 0 < |Available(n, targets, up)| <= n - |targets| ==>
              |sup| > 0 && sup[0] == Available(n, targets, up)[Pos(n - |targets|, |Available(n, targets, up)|, offset)]
  {
    SelectionBound(n, targets, []);
    AvailableContents(n, targets, up);
    if count == 0 || |targets| >= n {
      return [];
    }
    var start, t' := FindOffset(n, targets, offset, flags, t, up);
    sup := ConnectedPass(n, targets, count, start, flags, t', up);
    SelectionBound(n, targets, sup);
    if |sup| < count && |sup| + |targets| < n {
      sup := FillPass(n, targets, count, start, sup);
    }
  }

  lemma AvailableBound(n: nat, targets: set<nat>, up: set<nat>)
    requires targets <= Below(n)
    ensures |Available(n, targets, up)| <= n - |targets|
  {
    AvailableContents(n, targets, up);
    AvailableIncreasing(n, targets, up);
    SelectionBound(n, targets, Available(n, targets, up));
  }

  lemma {:induction false} AvailableIncreasing(n: nat, targets: set<nat>, up: set<nat>)
    ensures forall i, j | 0 <= i < j < |Available(n, targets, up)| ::
              Available(n, targets, up)[i] < Available(n, targets, up)[j]
  {
    if n > 0 {
      AvailableIncreasing(n - 1, targets, up);
      AvailableContents(n - 1, targets, up);
      var a := Available(n - 1, targets, up);
      assert forall i | 0 <= i < |a| :: a[i] in a;
    }
  }

  // ---- fairness ----

  ghost function Selects(m: nat, a: nat, j: nat): int -> bool
    requires 0 < a <= m
  {
    o => o >= 0 && Pos(m, a, o) == j
  }

  lemma SelectsInBlock(m: nat, a: nat, j: nat, q: nat, o: int)
    requires 0 < a <= m && j < a && q * m <= o < q * m + m
    ensures o < q * m + a ==> (Selects(m, a, j)(o) <==> o == q * m + j)
    ensures o >= q * m + a ==> Selects(m, a, j)(o) == Residue(a, j)(o)
  {
    assert 0 <= q * m;
    ModUnique(o, m, q, o - q * m);
  }

  /** The first `a` offsets of a block go through the positions once, the rest follows the residues. */
  lemma BlockSelects(m: nat, a: nat, j: nat, q: nat, from: nat)
    requires 0 < a <= m && j < a && from == q * m
    ensures forall o | from <= o < from + a :: Selects(m, a, j)(o) <==> o == from + j
    ensures forall o | from + a <= o < from + m :: Selects(m, a, j)(o) == Residue(a, j)(o)
  {
    forall o | from <= o < from + m
      ensures o < from + a ==> (Selects(m, a, j)(o) <==> o == from + j)
      ensures o >= from + a ==> Selects(m, a, j)(o) == Residue(a, j)(o)
    {
      SelectsInBlock(m, a, j, q, o);
    }
  }

  /** In a block of `m` offsets that starts at a multiple of `m`, positions come up as often as residues mod `a`. */
  lemma BlockMatchesResidues(m: nat, a: nat, j: nat, q: nat, from: nat)
    requires 0 < a <= m && j < a && from == q * m
    ensures Count(Selects(m, a, j), from, m) == Count(Residue(a, j), from, m)
  {
    var f, g := Selects(m, a, j), Residue(a, j);
    BlockSelects(m, a, j, q, from);
    CountSplit(f, from, a, m - a);
    CountSplit(g, from, a, m - a);
    CountPoint(f, from + j, from, a);
    CountResidueOnce(a, j, from);
    CountSame(f, g, from + a, m - a);
  }

  lemma {:induction false} BlocksMatchResidues(m: nat, a: nat, j: nat, k: nat)
    requires 0 < a <= m && j < a
    ensures Count(Selects(m, a, j), 0, k * m) == Count(Residue(a, j), 0, k * m)
  {
    if k > 0 {
      BlocksMatchResidues(m, a, j, k - 1);
      assert k * m == (k - 1) * m + m;
      CountSplit(Selects(m, a, j), 0, (k - 1) * m, m);
      CountSplit(Residue(a, j), 0, (k - 1) * m, m);
      BlockMatchesResidues(m, a, j, k - 1, (k - 1) * m);
    }
  }

  /**
   Over any m * a consecutive offsets, each of the `a` available among `m` non-target nodes is the
   starting node exactly `m` times.
   */
  lemma RoundRobinIsFair(m: nat, a: nat, j: nat, from: nat)
    requires 0 < a <= m && j < a
    ensures Count(Selects(m, a, j), from, m * a) == m
  {
    var f := Selects(m, a, j);
    forall o: int | 0 <= o ensures f(o) == f(o + m * a) {
      ModShift(o, m, a);
      ModShift(o, a, m);
      assert a * m == m * a;
    }
    CountPeriod(f, m * a, from);
    BlocksMatchResidues(m, a, j, a);
    CountResidue(a, j, 0, m);
    assert a * m == m * a;
  }

  /** The choices at consecutive offsets take a position as often as the offsets select it. */
  lemma {:induction false} FirstsCount(m: nat, avail: seq<nat>, from: nat, firsts: seq<nat>, j: nat)
    requires 0 < |avail| <= m && j < |avail| && forall x, y | 0 <= x < y < |avail| :: avail[x] < avail[y]
    requires forall k | 0 <= k < |firsts| :: firsts[k] == avail[Pos(m, |avail|, from + k)]
    ensures multiset(firsts)[avail[j]] == Count(Selects(m, |avail|, j), from, |firsts|)
  {
    if firsts != [] {
      var k := |firsts| - 1;
      FirstsCount(m, avail, from, firsts[..k], j);
      assert firsts == firsts[..k] + [firsts[k]];
      assert firsts[k] == avail[j] <==> Pos(m, |avail|, from + k) == j;
    }
  }

  lemma FirstsAreFair(m: nat, avail: seq<nat>, from: nat, firsts: seq<nat>)
    requires 0 < |avail| <= m && forall x, y | 0 <= x < y < |avail| :: avail[x] < avail[y]
    requires |firsts| == m * |avail| && forall k | 0 <= k < |firsts| :: firsts[k] == avail[Pos(m, |avail|, from + k)]
    ensures forall x | x in avail :: multiset(firsts)[x] == m
  {
    forall x | x in avail ensures multiset(firsts)[x] == m {
      var j :| 0 <= j < |avail| && avail[j] == x;
      FirstsCount(m, avail, from, firsts, j);
      RoundRobinIsFair(m, |avail|, j, from);
    }
  }

  // ---- the mapper's counter ----

  class Virtual {
    const n: nat
    var supportNodesOffset: nat

    constructor (n: nat)
      ensures this.n == n && supportNodesOffset == 0
    {
      this.n := n;
      supportNodesOffset := 0;
    }

    /** Every call that has to choose moves the round-robin counter by one; no other call does. */
    method GetSupportNodes(targets: set<nat>, count: nat, flags: Flags, ghost up: set<nat>) returns (sup: seq<nat>)
      requires targets <= Below(n)
      modifies this
      ensures supportNodesOffset == old(supportNodesOffset) + if count == 0 || |targets| >= n then 0 else 1
      ensures Selection(n, targets, sup)
      ensures |sup| == if count <= n - |targets| then count else n - |targets|
      ensures Stable(flags, up) && (exists i: nat | i < n :: i in up && i !in targets && i !in sup) ==>
                forall i | i in sup :: i in up
      ensures Stable(flags, up) && 0 < count && 0 < |Available(n, targets, up)| ==>
                var avail := Available(n, targets, up);
                && |avail| <= n - |targets|
                && |sup| > 0
                && sup[0] == avail[Pos(n - |targets|, |avail|, old(supportNodesOffset))]
    {
      AvailableBound(n, targets, up);
      sup := SupportFrom(n, targets, count, supportNodesOffset, flags, 0, up);
      if count != 0 && |targets| < n {
        supportNodesOffset := supportNodesOffset + 1;
      }
    }

    /** The first node of each of `calls` consecutive choices, with the flags at rest. */
    method FirstChoices(targets: set<nat>, count: nat, flags: Flags, up: set<nat>, calls: nat)
      returns (firsts: seq<nat>)
      requires targets <= Below(n) && 0 < count && Stable(flags, up) && |Available(n, targets, up)| > 0
      modifies this
      ensures supportNodesOffset == old(supportNodesOffset) + calls && |firsts| == calls
      ensures |Available(n, targets, up)| <= n - |targets|
      ensures forall k | 0 <= k < calls ::
                var avail := Available(n, targets, up);
                firsts[k] == avail[Pos(n - |targets|, |avail|, old(supportNodesOffset) + k)]
      ensures calls == (n - |targets|) * |Available(n, targets, up)| ==>
                forall x | x in Available(n, targets, up) :: multiset(firsts)[x] == n - |targets|
    {
      AvailableBound(n, targets, up);
      firsts := [];
      ghost var from, avail := supportNodesOffset, Available(n, targets, up);
      for k := 0 to calls
        invariant supportNodesOffset == from + k && |firsts| == k
        invariant forall i | 0 <= i < k :: firsts[i] == avail[Pos(n - |targets|, |avail|, from + i)]
      {
        var sup := GetSupportNodes(targets, count, flags, up);
        firsts := firsts + [sup[0]];
      }
      if calls == (n - |targets|) * |avail| {
        AvailableIncreasing(n, targets, up);
        FirstsAreFair(n - |targets|, avail, from, firsts);
      }
    }
  }
}
