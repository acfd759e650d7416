/** Arithmetic of little-endian byte strings and residues. */
module Arith {
  import opened Types

  /** Unsigned 64-bit arithmetic is arithmetic modulo this. */
  const U64 := 0x1_0000_0000_0000_0000

  function Pow256(n: nat): (p: nat)
    ensures p > 0
  {
    if n == 0 then 1 else 256 * Pow256(n - 1)
  }

  /** The integer a byte string stands for, least significant byte first. */
  function LittleEndian(bytes: seq<Byte>): nat {
    if bytes == [] then 0 else bytes[0] + 256 * LittleEndian(bytes[1..])
  }

  lemma {:induction false} LittleEndianConcat(a: seq<Byte>, b: seq<Byte>)
    ensures LittleEndian(a + b) == LittleEndian(a) + Pow256(|a|) * LittleEndian(b)
  {
    if a == [] {
      assert a + b == b;
    } else {
      LittleEndianConcat(a[1..], b);
      assert (a + b)[1..] == a[1..] + b;
      calc {
        LittleEndian(a + b);
        a[0] + 256 * (LittleEndian(a[1..]) + Pow256(|a| - 1) * LittleEndian(b));
        LittleEndian(a) + 256 * (Pow256(|a| - 1) * LittleEndian(b));
      == { MulAssoc(256, Pow256(|a| - 1), LittleEndian(b)); }
        LittleEndian(a) + Pow256(|a|) * LittleEndian(b);
      }
    }
  }

  lemma LittleEndianOne(x: Byte)
    ensures LittleEndian([x]) == x
  {
    assert [x][1..] == [];
  }

  lemma LittleEndianSnoc(a: seq<Byte>, x: Byte)
    ensures LittleEndian(a + [x]) == LittleEndian(a) + Pow256(|a|) * x
  {
    LittleEndianConcat(a, [x]);
    LittleEndianOne(x);
  }

  lemma {:induction false} LittleEndianBound(a: seq<Byte>)
    ensures LittleEndian(a) < Pow256(|a|)
  {
    if a != [] {
      LittleEndianBound(a[1..]);
    }
  }

  lemma Distribute(a: int, b: int, c: int)
    ensures a * (b + c) == a * b + a * c && (b + c) * a == b * a + c * a
  {
  }

  lemma MulAssoc(a: int, b: int, c: int)
    ensures a * (b * c) == (a * b) * c
  {
  }

  lemma ModShift(z: int, n: int, k: int)
    requires n > 0
    ensures (z + n * k) % n == z % n
  {
    var q, r := z / n, z % n;
    assert z + n * k == n * (q + k) + r;
    ModUnique(z + n * k, n, q + k, r);
  }

  lemma MulAtLeast(n: int, k: int)
    requires n > 0
    ensures k >= 1 ==> n * k >= n
    ensures k <= -1 ==> n * k <= -n
  {
  }

  lemma ModUnique(z: int, n: int, q: int, r: int)
    requires n > 0 && z == n * q + r && 0 <= r < n
    ensures z % n == r && z / n == q
  {
    var q', r' := z / n, z % n;
    assert n * q - n * q' == n * (q - q');
    MulAtLeast(n, q - q');
  }

  lemma SameResidue(a: int, b: int, n: int)
    requires n > 0 && a % n == b % n
    ensures a == b + n * (a / n - b / n)
  {
    assert a == n * (a / n) + a % n && b == n * (b / n) + b % n;
  }

  /** One step of a residue fold may use any representatives of its accumulators. */
  lemma ModLinear(a: int, p: int, b: int, rem: int, mult: int, n: int)
    requires n > 0 && rem % n == a % n && mult % n == p % n
    ensures (rem + mult * b) % n == (a + p * b) % n
  {
    var x, y := a / n - rem / n, p / n - mult / n;
    SameResidue(a, rem, n);
    SameResidue(p, mult, n);
    Distribute(b, mult, n * y);
    MulAssoc(n, y, b);
    Distribute(n, x, y * b);
    ModShift(rem + mult * b, n, x + y * b);
  }

  lemma FoldBound(rem: nat, mult: nat, b: Byte, n: nat)
    requires rem < n && (mult < n || mult == 1)
    ensures rem + mult * b < 256 * n && mult * 256 <= 256 * n
  {
    var top := if n == 1 then 1 else n - 1;
    assert mult <= top;
    assert mult * b <= top * 255;
  }

  lemma ModMod(z: int, n: int)
    requires n > 0
    ensures 0 <= z % n < n && (z % n) % n == z % n
  {
    ModUnique(z % n, n, 0, z % n);
  }

  lemma FoldArith(a: nat, p: nat, rem: nat, mult: nat, b: Byte, n: nat)
    requires n > 0 && rem == a % n && mult % n == p % n && (mult < n || mult == 1)
    ensures (rem + mult * b) % n == (a + p * b) % n
    ensures ((mult * 256) % n) % n == (256 * p) % n && 0 <= (mult * 256) % n < n
    ensures rem + mult * b < 256 * n && mult * 256 <= 256 * n
  {
    ModMod(a, n);
    ModLinear(a, p, b, rem, mult, n);
    ModLinear(0, p, 256, 0, mult, n);
    ModMod(mult * 256, n);
    FoldBound(rem, mult, b, n);
  }
}
