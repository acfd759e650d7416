/** Counting the integers of an interval that satisfy a predicate. */
module Counting {
  import opened Arith

  ghost function Count(f: int -> bool, from: int, len: nat): nat {
    if len == 0 then 0 else Count(f, from, len - 1) + (if f(from + len - 1) then 1 else 0)
  }

  lemma {:induction false} CountSplit(f: int -> bool, from: int, a: nat, b: nat)
    ensures Count(f, from, a + b) == Count(f, from, a) + Count(f, from + a, b)
  {
    if b > 0 {
      CountSplit(f, from, a, b - 1);
    }
  }

  lemma {:induction false} CountSame(f: int -> bool, g: int -> bool, from: int, len: nat)
    requires forall o | from <= o < from + len :: f(o) == g(o)
    ensures Count(f, from, len) == Count(g, from, len)
  {
    if len > 0 {
      CountSame(f, g, from, len - 1);
    }
  }

  lemma {:induction false} CountNone(f: int -> bool, from: int, len: nat)
    requires forall o | from <= o < from + len :: !f(o)
    ensures Count(f, from, len) == 0
  {
    if len > 0 {
      CountNone(f, from, len - 1);
    }
  }

  /** Exactly one integer of an interval equals a given member of it. */
  lemma {:induction false} CountPoint(f: int -> bool, x: int, from: int, len: nat)
    requires from <= x < from + len
    requires forall o | from <= o < from + len :: f(o) <==> o == x
    ensures Count(f, from, len) == 1
  {
    if x == from + len - 1 {
      CountNone(f, from, len - 1);
    } else {
      CountPoint(f, x, from, len - 1);
    }
  }

  /** A window as long as a period counts the same wherever it starts. */
  lemma {:induction false} CountPeriod(f: int -> bool, period: nat, from: nat)
    requires forall o: int | 0 <= o :: f(o) == f(o + period)
    ensures Count(f, from, period) == Count(f, 0, period)
  {
    if from > 0 {
      CountPeriod(f, period, from - 1);
      CountSplit(f, from - 1, 1, period);
      CountSplit(f, from - 1, period, 1);
      assert Count(f, from - 1, 1) == Count(f, from - 1, 0) + (if f(from - 1) then 1 else 0);
      assert Count(f, from - 1 + period, 1) == Count(f, from - 1 + period, 0) + (if f(from - 1 + period) then 1 else 0);
    }
  }

  ghost function Residue(a: int, j: int): int -> bool
    requires a > 0
  {
    o => o % a == j
  }

  lemma CountResidueOnce(a: nat, j: nat, from: nat)
    requires j < a
    ensures Count(Residue(a, j), from, a) == 1
  {
    var f := Residue(a, j);
    forall o: int | 0 <= o ensures f(o) == f(o + a) {
      ModShift(o, a, 1);
    }
    CountPeriod(f, a, from);
    forall o | 0 <= o < a ensures f(o) <==> o == j {
      ModUnique(o, a, 0, o);
    }
    CountPoint(f, j, 0, a);
  }

  lemma {:induction false} CountResidue(a: nat, j: nat, from: nat, k: nat)
    requires j < a
    ensures Count(Residue(a, j), from, k * a) == k
  {
    if k > 0 {
      CountResidue(a, j, from, k - 1);
      assert k * a == (k - 1) * a + a;
      CountSplit(Residue(a, j), from, (k - 1) * a, a);
      CountResidueOnce(a, j, from + (k - 1) * a);
    }
  }
}
