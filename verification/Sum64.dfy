/** Folding an MD5 digest into a 64-bit number, on integers with the shifts, the or and the
    width written out. */
module Sum64 {

  const TWO_64 := 0x1_0000_0000_0000_0000

  predicate IsByte(b: int) { 0 <= b < 256 }

  /** Sixteen bytes: an MD5 digest. */
  type Digest = d: seq<nat> | |d| == 16 && forall i :: 0 <= i < 16 ==> IsByte(d[i])
    witness [0, 0, 0, 0, 0, 0, 0, 0, 0, 0, 0, 0, 0, 0, 0, 0]

  function Pow256(n: nat): nat { if n == 0 then 1 else 256 * Pow256(n - 1) }

  /** uint64(b) << (8 * bytes): shifts of 64 or more vanish, and what leaves the width is lost. */
  function ShiftLeft(b: nat, bytes: nat): nat { (b * Pow256(bytes)) % TWO_64 }

  /** Bitwise or. */
  function Or(a: nat, b: nat): nat {
    if a == 0 then b
    else if b == 0 then a
    else 2 * Or(a / 2, b / 2) + (if a % 2 == 1 || b % 2 == 1 then 1 else 0)
  }

  /** The big-endian number of some bytes. */
  function BigEndian(bytes: seq<nat>): nat {
    if bytes == [] then 0 else 256 * BigEndian(bytes[..|bytes| - 1]) + bytes[|bytes| - 1]
  }

  function Pow2(k: nat): (p: nat)
    ensures p > 0
  {
    if k == 0 then 1 else 2 * Pow2(k - 1)
  }

  /** Or adds when the bits are apart: the first a multiple of 2^k, the second below it. */
  lemma {:induction false} OrAddsApart(a: nat, b: nat, k: nat)
    requires a % Pow2(k) == 0 && b < Pow2(k)
    ensures Or(a, b) == a + b
  {
    if a != 0 && b != 0 {
      var half := Pow2(k - 1);
      var q := a / Pow2(k);
      assert a == q * (2 * half);
      assert a / 2 == q * half && a % 2 == 0 by {
        assert a == 2 * (q * half);
      }
      ModMultiple(q, half);
      assert b / 2 < half;
      OrAddsApart(a / 2, b / 2, k - 1);
    }
  }

  lemma ModMultiple(q: nat, m: nat)
    requires m > 0
    ensures (q * m) % m == 0
  {
    assert q * m == m * q + 0;
    DivModUnique(q * m, m, q, 0);
  }

  lemma DivModUnique(x: int, m: int, q: int, r: int)
    requires m > 0 && 0 <= r < m && x == m * q + r
    ensures x / m == q && x % m == r
  {
    var q', r' := x / m, x % m;
    assert x == m * q' + r';
    if q' < q {
      NextMultiple(m, q', q);
    } else if q < q' {
      NextMultiple(m, q, q');
    }
  }

  lemma NextMultiple(m: int, a: int, b: int)
    requires m > 0 && a < b
    ensures m * a + m <= m * b
  {
    assert m * (b - a - 1) >= 0;
    assert m * b == m * a + m + m * (b - a - 1);
  }

  lemma {:induction false} Pow2Is256(n: nat)
    ensures Pow2(8 * n) == Pow256(n) > 0
  {
    if n > 0 {
      Pow2Is256(n - 1);
      var m := 8 * (n - 1);
      assert Pow2(m + 1) == 2 * Pow2(m) && Pow2(m + 2) == 4 * Pow2(m);
      assert Pow2(m + 3) == 8 * Pow2(m) && Pow2(m + 4) == 16 * Pow2(m);
      assert Pow2(m + 5) == 32 * Pow2(m) && Pow2(m + 6) == 64 * Pow2(m);
      assert Pow2(m + 7) == 128 * Pow2(m) && Pow2(m + 8) == 256 * Pow2(m);
    }
  }

  lemma {:induction false} BigEndianBound(bytes: seq<nat>)
    requires forall i :: 0 <= i < |bytes| ==> IsByte(bytes[i])
    ensures BigEndian(bytes) < Pow256(|bytes|)
  {
    if bytes != [] {
      BigEndianBound(bytes[..|bytes| - 1]);
    }
  }

  lemma {:induction false} BigEndianSplit(a: seq<nat>, b: seq<nat>)
    ensures BigEndian(a + b) == BigEndian(a) * Pow256(|b|) + BigEndian(b)
  {
    if b == [] {
      assert a + b == a;
    } else {
      var init := b[..|b| - 1];
      assert (a + b)[..|a + b| - 1] == a + init;
      BigEndianSplit(a, init);
      var p := Pow256(|init|);
      assert 256 * (BigEndian(a) * p) == BigEndian(a) * (256 * p);
    }
  }

  /** The first eight bytes do not count: the 128-bit number modulo 2^64 is the number of the
      last eight bytes. */
  lemma LowHalf(d: Digest)
    ensures BigEndian(d) % TWO_64 == BigEndian(d[8..])
  {
    assert d == d[..8] + d[8..];
    BigEndianSplit(d[..8], d[8..]);
    BigEndianBound(d[8..]);
    Pow256Of8();
    DivModUnique(BigEndian(d), TWO_64, BigEndian(d[..8]), BigEndian(d[8..]));
  }

  lemma Pow256Of8()
    ensures Pow256(8) == TWO_64
  {
    assert Pow256(2) == 0x1_0000;
    assert Pow256(4) == 0x1_0000_0000;
    assert Pow256(6) == 0x1_0000_0000_0000;
  }

  lemma {:induction false} ShiftVanishes(b: nat, bytes: nat)
    requires bytes >= 8
    ensures ShiftLeft(b, bytes) == 0
  {
    Pow256Splits(bytes - 8);
    ModMultiple(b * Pow256(bytes - 8), TWO_64);
    assert b * Pow256(bytes) == (b * Pow256(bytes - 8)) * TWO_64 by {
      assert b * (Pow256(bytes - 8) * TWO_64) == (b * Pow256(bytes - 8)) * TWO_64;
    }
  }

  lemma {:induction false} Pow256Splits(n: nat)
    ensures Pow256(n + 8) == Pow256(n) * TWO_64
  {
    if n == 0 {
      Pow256Of8();
    } else {
      Pow256Splits(n - 1);
    }
  }

  lemma {:induction false} Pow256Grows(m: nat, n: nat)
    requires m <= n
    ensures 0 < Pow256(m) <= Pow256(n)
    decreases n
  {
    if m < n {
      Pow256Grows(m, n - 1);
    } else if m > 0 {
      Pow256Grows(m - 1, n - 1);
    }
  }

  lemma ShiftFits(b: nat, bytes: nat)
    requires IsByte(b) && bytes < 8
    ensures ShiftLeft(b, bytes) == b * Pow256(bytes)
    ensures b * Pow256(bytes) < Pow256(bytes + 1) <= TWO_64
  {
    Pow256Grows(bytes + 1, 8);
    Pow256Of8();
    var p := Pow256(bytes);
    assert b * p < 256 * p by { assert (256 - b) * p > 0; }
  }

  /** What the loop has computed after the bytes before index i: the bytes of the low half seen
      so far, shifted to their places. */
  function Partial(d: Digest, i: nat): nat
    requires i <= 16
  {
    if i <= 8 then 0 else BigEndian(d[8..i]) * Pow256(16 - i)
  }

  lemma Distribute(hi: nat, b: nat, p: nat)
    ensures hi * (256 * p) + b * p == (256 * hi + b) * p
  {
  }

  lemma OrOfMultiple(hi: nat, low: nat, n: nat)
    requires low < Pow256(n)
    ensures Or(hi * Pow256(n), low) == hi * Pow256(n) + low
  {
    Pow2Is256(n);
    ModMultiple(hi, Pow256(n));
    OrAddsApart(hi * Pow256(n), low, 8 * n);
  }

  /** Or-ing one more byte below the bytes already in place. */
  lemma OrByte(hi: nat, b: nat, bytes: nat)
    requires IsByte(b) && bytes < 8
    ensures Or(hi * Pow256(bytes + 1), b * Pow256(bytes)) == (256 * hi + b) * Pow256(bytes)
  {
    ShiftFits(b, bytes);
    OrOfMultiple(hi, b * Pow256(bytes), bytes + 1);
    Distribute(hi, b, Pow256(bytes));
  }

  lemma PartialStep(d: Digest, i: nat)
    requires i < 16
    ensures Or(Partial(d, i), ShiftLeft(d[i], 15 - i)) == Partial(d, i + 1)
  {
    if i < 8 {
      ShiftVanishes(d[i], 15 - i);
    } else {
      ShiftFits(d[i], 15 - i);
      assert d[8..i + 1][..i - 8] == d[8..i];
      assert BigEndian(d[8..i + 1]) == 256 * BigEndian(d[8..i]) + d[i];
      OrByte(BigEndian(d[8..i]), d[i], 15 - i);
      if i == 8 {
        assert d[8..8] == [];
      }
    }
  }

  /** sum64: the digest modulo 2^64, that is, its last eight bytes in big-endian order. */
  method Sum(d: Digest) returns (s: nat)
    ensures s == BigEndian(d) % TWO_64
    ensures s == BigEndian(d[8..])
  {
    s := 0;
    for i := 0 to 16
      invariant s == Partial(d, i)
    {
      PartialStep(d, i);
      s := Or(s, ShiftLeft(d[i], 15 - i));
    }
    assert d[8..16] == d[8..];
    assert Pow256(0) == 1;
    LowHalf(d);
  }

  /** The shard a digest selects. */
  function Shard(d: Digest, shards: nat): (sn: nat)
    requires shards >= 1
    ensures sn < shards
  {
    (BigEndian(d) % TWO_64) % shards
  }

  // ----- which shard -----

  /** The last n bytes of a number. */
  function ToBytes(v: nat, n: nat): (bytes: seq<nat>)
    ensures |bytes| == n && forall i :: 0 <= i < n ==> IsByte(bytes[i])
  {
    if n == 0 then [] else ToBytes(v / 256, n - 1) + [v % 256]
  }

  lemma {:induction false} ToBytesReadsBack(v: nat, n: nat)
    requires v < Pow256(n)
    ensures BigEndian(ToBytes(v, n)) == v
  {
    if n > 0 {
      ToBytesReadsBack(v / 256, n - 1);
      var bytes := ToBytes(v, n);
      assert bytes[..|bytes| - 1] == ToBytes(v / 256, n - 1);
    }
  }

  /** Every 64-bit number is the sum of some digest. */
  lemma EverySumOccurs(v: nat) returns (d: Digest)
    requires v < TWO_64
    ensures BigEndian(d[8..]) == v
  {
    Pow256Of8();
    var low := ToBytes(v, 8);
    d := [0, 0, 0, 0, 0, 0, 0, 0] + low;
    assert d[8..] == low;
    ToBytesReadsBack(v, 8);
  }
}
