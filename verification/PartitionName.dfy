/** Directory names of partitions: a timestamp, an underscore and a short text hash of the owner. */
module PartitionName {
  import opened Types
  import opened Arith

  datatype Name = Name(timestamp: nat, hash: string)

  // ---- printing ----

  function Digit(d: nat): char
    requires d < 10
  {
    (48 + d) as char
  }

  function Decimal(n: nat): string {
    if n < 10 then [Digit(n)] else Decimal(n / 10) + [Digit(n % 10)]
  }

  function Print(n: Name): string {
    Decimal(n.timestamp) + ['_'] + n.hash
  }

  // ---- parsing ----

  predicate IsDigit(c: char) {
    '0' <= c <= '9'
  }

  /** Value of a string of digits. */
  function DigitsValue(s: string): Option<nat> {
    if s == [] then Some(0)
    else if !IsDigit(s[|s| - 1]) then None
    else match DigitsValue(s[..|s| - 1])
         case None => None
         case Some(v) => Some(10 * v + (s[|s| - 1] as nat - 48))
  }

  /** `str::parse::<u64>`: an optional plus sign, at least one digit, and a value that fits. */
  function ParseU64(s: string): Option<nat> {
    var digits := if s != [] && s[0] == '+' then s[1..] else s;
    if digits == [] then None
    else match DigitsValue(digits)
         case None => None
         case Some(v) => if v < U64 then Some(v) else None
  }

  /** Position of the first underscore, or the length of the string. */
  function FirstUnderscore(s: string): (i: nat)
    ensures i <= |s| && '_' !in s[..i] && (i < |s| ==> s[i] == '_')
  {
    if s == [] || s[0] == '_' then 0
    else
      var i := FirstUnderscore(s[1..]) + 1;
      assert s[..i] == [s[0]] + s[1..][..i - 1];
      i
  }

  /** `try_from_string`: the first two pieces between underscores; further pieces are ignored. */
  function TryFromString(s: string): Option<Name> {
    var i := FirstUnderscore(s);
    var rest := if i < |s| then s[i + 1..] else [];
    match ParseU64(s[..i])
    case None => None
    case Some(t) => Some(Name(t, rest[..FirstUnderscore(rest)]))
  }

  // ---- round trip ----

  lemma DigitShape(d: nat)
    requires d < 10
    ensures IsDigit(Digit(d)) && Digit(d) as nat - 48 == d && Digit(d) != '+' && Digit(d) != '_'
  {
  }

  lemma DigitsSnoc(s: string, d: nat)
    requires d < 10
    ensures DigitsValue(s + [Digit(d)]) == match DigitsValue(s) case None => None case Some(v) => Some(10 * v + d)
  {
    DigitShape(d);
    assert (s + [Digit(d)])[..|s|] == s;
  }

  lemma {:induction false} DecimalRoundTrip(n: nat)
    ensures Decimal(n) != [] && Decimal(n)[0] != '+' && '_' !in Decimal(n)
    ensures DigitsValue(Decimal(n)) == Some(n)
  {
    DigitShape(n % 10);
    if n < 10 {
      DigitsSnoc([], n);
      assert Decimal(n) == [] + [Digit(n)];
    } else {
      DecimalRoundTrip(n / 10);
      DigitsSnoc(Decimal(n / 10), n % 10);
    }
  }

  lemma FirstUnderscoreUnique(s: string, i: nat)
    requires i <= |s| && '_' !in s[..i] && (i < |s| ==> s[i] == '_')
    ensures FirstUnderscore(s) == i
  {
  }

  /** A printed name is read back exactly if its timestamp fits 64 bits and its hash has no underscore. */
  lemma NameRoundTrip(n: Name)
    ensures TryFromString(Print(n)) == Some(n) <==> n.timestamp < U64 && '_' !in n.hash
  {
    var d, s := Decimal(n.timestamp), Print(n);
    DecimalRoundTrip(n.timestamp);
    assert s[..|d|] == d && s[|d|] == '_' && s[|d| + 1..] == n.hash;
    FirstUnderscoreUnique(s, |d|);
    assert ParseU64(d) == if n.timestamp < U64 then Some(n.timestamp) else None;
    var k := FirstUnderscore(n.hash);
    if '_' !in n.hash {
      FirstUnderscoreUnique(n.hash, |n.hash|);
      assert n.hash[..k] == n.hash;
    } else {
      assert n.hash[..k] != n.hash;
    }
  }

  // ---- the hash alphabet ----

  predicate Allowed(code: nat) {
    || 47 < code < 58
    || 64 < code < 91
    || 96 < code < 123
    || code == 45
    || code == 43
  }

  /** The `i`-th allowed character code. */
  function Code(i: nat): (c: nat)
    requires i < 64
    ensures Allowed(c)
  {
    if i == 0 then 43 else if i == 1 then 45 else if i < 12 then 46 + i else if i < 38 then 53 + i else 59 + i
  }

  /** Number of allowed codes below a given one. */
  function Rank(code: nat): (r: nat)
    ensures r <= 64
  {
    if code <= 43 then 0
    else if code <= 45 then 1
    else if code <= 48 then 2
    else if code <= 58 then code - 46
    else if code <= 65 then 12
    else if code <= 91 then code - 53
    else if code <= 97 then 38
    else if code <= 123 then code - 59
    else 64
  }

  /** The table filled by filtering all byte values has 64 entries: every 6-bit index is in range. */
  method AsciiTranslation() returns (table: seq<nat>)
    ensures |table| == 64 && forall i | 0 <= i < 64 :: table[i] == Code(i)
    ensures forall c: nat | c < 256 :: c in table <==> Allowed(c)
    ensures forall i, j | 0 <= i < j < 64 :: table[i] < table[j]
  {
    table := [];
    for c := 0 to 256
      invariant |table| == Rank(c) && forall i | 0 <= i < |table| :: table[i] == Code(i)
      invariant forall x: nat | x < c :: x in table <==> Allowed(x)
      invariant forall x | x in table :: x < c
    {
      if Allowed(c) {
        table := table + [c];
      }
    }
  }

  // ---- six bits at a time ----

  predicate SixBits(g: seq<nat>) {
    forall i | 0 <= i < |g| :: g[i] < 64
  }

  /** Six-bit groups of up to three bytes; a missing byte counts as zero. */
  function Group(bytes: seq<Byte>): (g: seq<nat>)
    requires 0 < |bytes| <= 3
    ensures |g| == |bytes| + 1 && SixBits(g)
  {
    var b0 := bytes[0];
    var b1 := if |bytes| > 1 then bytes[1] else 0;
    var b2 := if |bytes| > 2 then bytes[2] else 0;
    [b0 / 4, b0 % 4 * 16 + b1 / 16]
    + (if |bytes| > 1 then [b1 % 16 + b2 / 64 * 16] else [])
    + (if |bytes| > 2 then [b2 % 64] else [])
  }

  function Sixes(bytes: seq<Byte>): (g: seq<nat>)
    ensures SixBits(g)
  {
    if bytes == [] then []
    else if |bytes| <= 3 then Group(bytes)
    else Group(bytes[..3]) + Sixes(bytes[3..])
  }

  /** The lowest `n` bits, highest first. */
  function Bits(v: nat, n: nat): (b: seq<bool>)
    ensures |b| == n
  {
    if n == 0 then [] else Bits(v / 2, n - 1) + [v % 2 == 1]
  }

  function Pow2(k: nat): (p: nat)
    ensures p > 0
  {
    if k == 0 then 1 else 2 * Pow2(k - 1)
  }

  /** The bits of a number put together from two are the bits of both. */
  lemma {:induction false} BitsJoin(hi: nat, lo: nat, n: nat, k: nat)
    requires lo < Pow2(k)
    ensures Bits(hi * Pow2(k) + lo, n + k) == Bits(hi, n) + Bits(lo, k)
  {
    var v := hi * Pow2(k) + lo;
    if k > 0 {
      HalfOfJoin(hi, lo, Pow2(k - 1));
      BitsJoin(hi, lo / 2, n, k - 1);
      assert Bits(v, n + k) == Bits(hi, n) + Bits(lo / 2, k - 1) + [lo % 2 == 1];
    } else {
      assert v == hi && Bits(lo, 0) == [];
    }
  }

  lemma HalfOfJoin(hi: nat, lo: nat, p: nat)
    ensures (hi * (2 * p) + lo) / 2 == hi * p + lo / 2 && (hi * (2 * p) + lo) % 2 == lo % 2
  {
    assert hi * (2 * p) == 2 * (hi * p);
  }

  /** All bits of a sequence of six-bit groups, in order. */
  function AllBits(g: seq<nat>): seq<bool> {
    if g == [] then [] else Bits(g[0], 6) + AllBits(g[1..])
  }

  lemma {:induction false} AllBitsConcat(a: seq<nat>, b: seq<nat>)
    ensures AllBits(a + b) == AllBits(a) + AllBits(b)
  {
    if a == [] {
      assert a + b == b;
    } else {
      AllBitsConcat(a[1..], b);
      assert (a + b)[1..] == a[1..] + b;
    }
  }

  /**
   The bits of up to three bytes in the order of the hash: the third group takes the first two bits
   of the third byte before the last four of the second.
   */
  function ChunkBits(bytes: seq<Byte>): seq<bool>
    requires 0 < |bytes| <= 3
  {
    var second := Bits(if |bytes| > 1 then bytes[1] else 0, 8);
    var third := Bits(if |bytes| > 2 then bytes[2] else 0, 8);
    Bits(bytes[0], 8) + second[..4]
    + (if |bytes| > 1 then third[..2] + second[4..] else [])
    + (if |bytes| > 2 then third[2..] else [])
  }

  function HashBits(bytes: seq<Byte>): seq<bool> {
    if bytes == [] then []
    else if |bytes| <= 3 then ChunkBits(bytes)
    else ChunkBits(bytes[..3]) + HashBits(bytes[3..])
  }

  /** A byte cut in two. */
  lemma ByteBits(b: Byte, hi: nat, lo: nat, n: nat, k: nat, p: nat)
    requires n + k == 8 && p == Pow2(k) && lo < p && b == hi * p + lo
    ensures Bits(b, 8)[..n] == Bits(hi, n) && Bits(b, 8)[n..] == Bits(lo, k)
  {
    BitsJoin(hi, lo, n, k);
  }

  lemma SixBitsJoin(hi: nat, lo: nat, v: nat)
    requires lo < 16 && v == hi * 16 + lo
    ensures Bits(v, 6) == Bits(hi, 2) + Bits(lo, 4)
  {
    SmallPowers();
    BitsJoin(hi, lo, 2, 4);
  }

  lemma SmallPowers()
    ensures Pow2(2) == 4 && Pow2(4) == 16 && Pow2(6) == 64
  {
    assert Pow2(1) == 2 && Pow2(3) == 8 && Pow2(5) == 32;
  }

  /** A byte as six and two bits, as two halves, and as two and six bits. */
  lemma Cuts(b: Byte)
    ensures Bits(b, 8)[..6] == Bits(b / 4, 6) && Bits(b, 8)[6..] == Bits(b % 4, 2)
    ensures Bits(b, 8)[..4] == Bits(b / 16, 4) && Bits(b, 8)[4..] == Bits(b % 16, 4)
    ensures Bits(b, 8)[..2] == Bits(b / 64, 2) && Bits(b, 8)[2..] == Bits(b % 64, 6)
  {
    SmallPowers();
    ByteBits(b, b / 4, b % 4, 6, 2, 4);
    ByteBits(b, b / 16, b % 16, 4, 4, 16);
    ByteBits(b, b / 64, b % 64, 2, 6, 64);
  }

  lemma FirstTwoGroups(b0: Byte, b1: Byte)
    ensures Bits(b0 / 4, 6) + Bits(b0 % 4 * 16 + b1 / 16, 6) == Bits(b0, 8) + Bits(b1, 8)[..4]
  {
    Cuts(b0);
    Cuts(b1);
    SixBitsJoin(b0 % 4, b1 / 16, b0 % 4 * 16 + b1 / 16);
    Rejoin(Bits(b0, 8), Bits(b1, 8)[..4]);
  }

  lemma Rejoin(a: seq<bool>, b: seq<bool>)
    requires |a| == 8
    ensures a[..6] + (a[6..] + b) == a + b
  {
  }

  lemma ThirdGroup(b1: Byte, b2: Byte, lo: nat, hi: nat, v: nat)
    requires lo == b1 % 16 && hi == b2 / 64 && v == hi * 16 + lo
    ensures Bits(v, 6) == Bits(b2, 8)[..2] + Bits(b1, 8)[4..]
  {
    LowHalf(b1, lo);
    HighPair(b2, hi);
    Swapped(Bits(b1, 8), Bits(b2, 8), lo, hi, v);
  }

  lemma Swapped(x: seq<bool>, y: seq<bool>, lo: nat, hi: nat, v: nat)
    requires |x| == 8 && |y| == 8 && x[4..] == Bits(lo, 4) && y[..2] == Bits(hi, 2) && lo < 16 && v == hi * 16 + lo
    ensures Bits(v, 6) == y[..2] + x[4..]
  {
    SixBitsJoin(hi, lo, v);
  }

  lemma LowHalf(b: Byte, lo: nat)
    requires lo == b % 16
    ensures Bits(b, 8)[4..] == Bits(lo, 4) && lo < 16
  {
    Cuts(b);
  }

  lemma HighPair(b: Byte, hi: nat)
    requires hi == b / 64
    ensures Bits(b, 8)[..2] == Bits(hi, 2)
  {
    Cuts(b);
  }

  lemma OneGroup(x: nat)
    ensures AllBits([x]) == Bits(x, 6)
  {
    assert [x][1..] == [];
  }

  lemma TwoGroups(x: nat, y: nat)
    ensures AllBits([x, y]) == Bits(x, 6) + Bits(y, 6)
  {
    assert [x, y] == [x] + [y];
    AllBitsConcat([x], [y]);
    OneGroup(x);
    OneGroup(y);
  }

  lemma ThreeParts(a: seq<nat>, b: seq<nat>, c: seq<nat>, g: seq<nat>)
    requires g == a + b + c
    ensures AllBits(g) == AllBits(a) + AllBits(b) + AllBits(c)
  {
    AllBitsConcat(a + b, c);
    AllBitsConcat(a, b);
  }

  lemma FrontBits(b0: Byte, b1: Byte)
    ensures AllBits([b0 / 4, b0 % 4 * 16 + b1 / 16]) == Bits(b0, 8) + Bits(b1, 8)[..4]
  {
    TwoGroups(b0 / 4, b0 % 4 * 16 + b1 / 16);
    FirstTwoGroups(b0, b1);
  }

  lemma MiddleBits(b1: Byte, b2: Byte)
    ensures AllBits([b1 % 16 + b2 / 64 * 16]) == Bits(b2, 8)[..2] + Bits(b1, 8)[4..]
  {
    OneGroup(b1 % 16 + b2 / 64 * 16);
    ThirdGroup(b1, b2, b1 % 16, b2 / 64, b1 % 16 + b2 / 64 * 16);
  }

  lemma LastBits(b2: Byte)
    ensures AllBits([b2 % 64]) == Bits(b2, 8)[2..]
  {
    OneGroup(b2 % 64);
    Cuts(b2);
  }

  lemma GroupBits(bytes: seq<Byte>)
    requires 0 < |bytes| <= 3
    ensures AllBits(Group(bytes)) == ChunkBits(bytes)
  {
    var b0 := bytes[0];
    var b1: Byte := if |bytes| > 1 then bytes[1] else 0;
    var b2: Byte := if |bytes| > 2 then bytes[2] else 0;
    ThreeParts([b0 / 4, b0 % 4 * 16 + b1 / 16], if |bytes| > 1 then [b1 % 16 + b2 / 64 * 16] else [],
               if |bytes| > 2 then [b2 % 64] else [], Group(bytes));
    FrontBits(b0, b1);
    MiddleBits(b1, b2);
    LastBits(b2);
  }

  /** The six-bit groups put together are the bits of the digest in the order of the hash; none is lost or repeated. */
  lemma {:induction false} SixesBits(bytes: seq<Byte>)
    ensures AllBits(Sixes(bytes)) == HashBits(bytes)
  {
    if 0 < |bytes| <= 3 {
      GroupBits(bytes);
    } else if |bytes| > 3 {
      GroupBits(bytes[..3]);
      SixesBits(bytes[3..]);
      AllBitsConcat(Group(bytes[..3]), Sixes(bytes[3..]));
    }
  }

  lemma HalvesUnique(q: nat, r: nat, q': nat, r': nat)
    requires r < 16 && r' < 16 && q * 16 + r == q' * 16 + r'
    ensures q == q' && r == r'
  {
  }

  lemma GroupInjective(a: seq<Byte>, b: seq<Byte>)
    requires 0 < |a| == |b| <= 3 && Group(a) == Group(b)
    ensures a == b
  {
    var g, h := Group(a), Group(b);
    var a1, b1 := if |a| > 1 then a[1] else 0, if |b| > 1 then b[1] else 0;
    var a2, b2 := if |a| > 2 then a[2] else 0, if |b| > 2 then b[2] else 0;
    assert a[0] / 4 == g[0] && b[0] / 4 == h[0] && a[0] % 4 * 16 + a1 / 16 == g[1] && b[0] % 4 * 16 + b1 / 16 == h[1];
    assert |a| > 1 ==> a1 % 16 + a2 / 64 * 16 == g[2] && b1 % 16 + b2 / 64 * 16 == h[2];
    assert |a| > 2 ==> a2 % 64 == g[3] && b2 % 64 == h[3];
    HalvesUnique(a[0] % 4, a1 / 16, b[0] % 4, b1 / 16);
    if |a| > 1 {
      HalvesUnique(a2 / 64, a1 % 16, b2 / 64, b1 % 16);
    }
  }

  /** Before truncation the hash text determines the bytes it encodes. */
  lemma {:induction false} SixesInjective(a: seq<Byte>, b: seq<Byte>)
    requires |a| == |b| && Sixes(a) == Sixes(b)
    ensures a == b
  {
    if 0 < |a| <= 3 {
      GroupInjective(a, b);
    } else if |a| > 3 {
      assert Sixes(a)[..4] == Group(a[..3]) && Sixes(b)[..4] == Group(b[..3]);
      assert Sixes(a)[4..] == Sixes(a[3..]) && Sixes(b)[4..] == Sixes(b[3..]);
      GroupInjective(a[..3], b[..3]);
      SixesInjective(a[3..], b[3..]);
      assert a == a[..3] + a[3..] && b == b[..3] + b[3..];
    }
  }

  function Symbol(x: nat): (c: char)
    requires x < 64
    ensures Allowed(c as nat) && c != '_'
  {
    Code(x) as char
  }

  function Text(sixes: seq<nat>): (t: string)
    requires SixBits(sixes)
    ensures |t| == |sixes| && '_' !in t
  {
    seq(|sixes|, i requires 0 <= i < |sixes| => Symbol(sixes[i]))
  }

  /** The untruncated hash text of digests of one length determines the digest. */
  lemma HashTextInjective(a: seq<Byte>, b: seq<Byte>)
    requires |a| == |b| && Text(Sixes(a)) == Text(Sixes(b))
    ensures a == b
  {
    var x, y := Sixes(a), Sixes(b);
    assert |x| == |Text(x)| == |Text(y)| == |y|;
    forall i | 0 <= i < |x| ensures x[i] == y[i] {
      assert Text(x)[i] == Symbol(x[i]) && Text(y)[i] == Symbol(y[i]);
    }
    assert x == y;
    SixesInjective(a, b);
  }

  function DropUpTo(s: seq<Byte>, i: nat): seq<Byte> {
    if i <= |s| then s[i..] else []
  }

  lemma SixesStep(s: seq<Byte>, i: nat)
    requires i < |s|
    ensures Sixes(DropUpTo(s, i)) == Group(s[i..if i + 3 <= |s| then i + 3 else |s|]) + Sixes(DropUpTo(s, i + 3))
  {
    var tail := s[i..];
    if |tail| > 3 {
      assert tail[..3] == s[i..i + 3] && tail[3..] == s[i + 3..];
    } else {
      assert tail == s[i..|s|] && DropUpTo(s, i + 3) == [];
    }
  }

  /** The text of the first groups, as many as asked for and existing; every character is that of its group. */
  function Truncated(sixes: seq<nat>, chars: nat): (hash: string)
    requires SixBits(sixes)
    ensures |hash| == (if chars <= |sixes| then chars else |sixes|) && '_' !in hash
    ensures forall i | 0 <= i < |hash| :: hash[i] as nat == Code(sixes[i])
  {
    Text(sixes)[..if chars <= |sixes| then chars else |sixes|]
  }

  /** `get_owner_node_hash`, on the digest of the owner's identifier. */
  method OwnerNodeHash(digest: seq<Byte>, chars: nat) returns (hash: string)
    ensures hash == Truncated(Sixes(digest), chars) && '_' !in hash
  {
    var sixes: seq<nat> := [];
    var i: nat := 0;
    assert DropUpTo(digest, 0) == digest;
    while i < |digest|
      invariant sixes + Sixes(DropUpTo(digest, i)) == Sixes(digest)
    {
      SixesStep(digest, i);
      sixes := sixes + Group(digest[i..if i + 3 <= |digest| then i + 3 else |digest|]);
      i := i + 3;
    }
    assert sixes == Sixes(digest);
    hash := Truncated(sixes, chars);
  }

  /** Every directory name the group creates is read back as it was meant. */
  lemma CreatedNamesRoundTrip(timestamp: nat, digest: seq<Byte>, chars: nat)
    requires timestamp < U64 && chars <= |Sixes(digest)|
    ensures var n := Name(timestamp, Text(Sixes(digest))[..chars]); TryFromString(Print(n)) == Some(n)
  {
    NameRoundTrip(Name(timestamp, Text(Sixes(digest))[..chars]));
  }
}
