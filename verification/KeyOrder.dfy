/** Key comparison: by machine words from the top where the size allows it, otherwise by bytes. */
module KeyOrder {
  import opened Types
  import opened Arith

  datatype Ordering = Less | Equal | Greater

  const WORD := 8

  function Compare(a: int, b: int): Ordering {
    if a < b then Less else if a == b then Equal else Greater
  }

  /** The order of keys: that of the little-endian integers they spell. */
  function KeyCompare(x: Key, y: Key): Ordering {
    Compare(LittleEndian(x), LittleEndian(y))
  }

  lemma {:induction false} LittleEndianInjective(x: Key, y: Key)
    requires |x| == |y| && LittleEndian(x) == LittleEndian(y)
    ensures x == y
  {
    if x != [] {
      var a, b := LittleEndian(x[1..]), LittleEndian(y[1..]);
      assert x[0] + 256 * a == y[0] + 256 * b;
      LittleEndianInjective(x[1..], y[1..]);
      assert x == [x[0]] + x[1..] && y == [y[0]] + y[1..];
    }
  }

  /** Keys of one length form a total order in which only identical keys are equal. */
  lemma KeyOrderIsTotal(x: Key, y: Key, z: Key)
    requires |x| == |y| == |z|
    ensures KeyCompare(x, y) == Equal <==> x == y
    ensures KeyCompare(x, y) == Less <==> KeyCompare(y, x) == Greater
    ensures KeyCompare(x, y) != Greater && KeyCompare(y, z) != Greater ==> KeyCompare(x, z) != Greater
  {
    if LittleEndian(x) == LittleEndian(y) {
      LittleEndianInjective(x, y);
    }
  }

  lemma ChunkDominates(p: nat, a: nat, b: nat, u: nat, v: nat)
    requires a < p && u < v
    ensures a + p * u < b + p * v
  {
    assert p * (u + 1) <= p * v;
    assert p * (u + 1) == p * u + p;
  }

  /** With equal bytes above a chunk, the chunk decides. */
  lemma ChunkDecides(x: Key, y: Key, lo: nat, hi: nat)
    requires |x| == |y| && lo <= hi <= |x| && x[hi..] == y[hi..]
    ensures LittleEndian(x[lo..hi]) < LittleEndian(y[lo..hi]) ==> LittleEndian(x) < LittleEndian(y)
  {
    Chunked(x, lo, hi);
    Chunked(y, lo, hi);
    LittleEndianBound(x[..lo]);
    if LittleEndian(x[lo..hi]) < LittleEndian(y[lo..hi]) {
      ChunkDominates(Pow256(lo), LittleEndian(x[..lo]), LittleEndian(y[..lo]), LittleEndian(x[lo..hi]),
                     LittleEndian(y[lo..hi]));
    }
  }

  lemma Chunked(x: Key, lo: nat, hi: nat)
    requires lo <= hi <= |x|
    ensures LittleEndian(x)
         == LittleEndian(x[..lo]) + Pow256(lo) * LittleEndian(x[lo..hi]) + Pow256(hi) * LittleEndian(x[hi..])
  {
    assert x == x[..hi] + x[hi..] && x[..hi] == x[..lo] + x[lo..hi];
    LittleEndianConcat(x[..hi], x[hi..]);
    LittleEndianConcat(x[..lo], x[lo..hi]);
  }

  method CompareByBytes(x: Key, y: Key) returns (r: Ordering)
    requires |x| == |y|
    ensures r == KeyCompare(x, y)
  {
    var i := |x|;
    while i > 0
      invariant 0 <= i <= |x| && x[i..] == y[i..]
    {
      i := i - 1;
      assert x[i..] == [x[i]] + x[i + 1..] && y[i..] == [y[i]] + y[i + 1..];
      assert LittleEndian(x[i..i + 1]) == x[i] + 256 * LittleEndian(x[i..i + 1][1..]);
      assert LittleEndian(y[i..i + 1]) == y[i] + 256 * LittleEndian(y[i..i + 1][1..]);
      ChunkDecides(x, y, i, i + 1);
      ChunkDecides(y, x, i, i + 1);
      if x[i] != y[i] {
        return Compare(x[i], y[i]);
      }
    }
    assert x[0..] == x && y[0..] == y;
    r := Equal;
  }

  method CompareByWords(x: Key, y: Key) returns (r: Ordering)
    requires |x| == |y| && |x| % WORD == 0
    ensures r == KeyCompare(x, y)
  {
    var i := |x| / WORD;
    while i > 0
      invariant 0 <= i * WORD <= |x| && x[i * WORD..] == y[i * WORD..]
    {
      i := i - 1;
      var lo, hi := i * WORD, (i + 1) * WORD;
      var xPart, yPart := LittleEndian(x[lo..hi]), LittleEndian(y[lo..hi]);
      ChunkDecides(x, y, lo, hi);
      ChunkDecides(y, x, lo, hi);
      if xPart != yPart {
        return Compare(xPart, yPart);
      }
      LittleEndianInjective(x[lo..hi], y[lo..hi]);
      assert x[lo..] == x[lo..hi] + x[hi..] && y[lo..] == y[lo..hi] + y[hi..];
    }
    assert x[0..] == x && y[0..] == y;
    r := Equal;
  }

  /** `le_cmp_keys` of the storage: one word, several words, or bytes. */
  method LeCmpKeys(x: Key, y: Key) returns (r: Ordering)
    requires |x| == |y|
    ensures r == KeyCompare(x, y)
    ensures r == Equal <==> x == y
  {
    KeyOrderIsTotal(x, y, y);
    if |x| == WORD {
      r := Compare(LittleEndian(x), LittleEndian(y));
    } else if |x| % WORD == 0 {
      r := CompareByWords(x, y);
    } else {
      r := CompareByBytes(x, y);
    }
  }

  /** The recovery tool's version, without the single-word case; it orders keys the same way. */
  method LeCmpKeysSized(n: nat, x: Key, y: Key) returns (r: Ordering)
    requires |x| == |y| == n
    ensures r == KeyCompare(x, y)
  {
    if n % WORD == 0 {
      r := CompareByWords(x, y);
    } else {
      r := CompareByBytes(x, y);
    }
  }
}
