/** Naturals as bits, least significant first: what quotients, remainders and sums do to them. */
module Bits {

  function Pow2(n: nat): (p: nat)
    ensures p >= 1
  {
    if n == 0 then 1 else 2 * Pow2(n - 1)
  }

  lemma {:induction false} PowerSum(m: nat, n: nat)
    ensures Pow2(m + n) == Pow2(m) * Pow2(n)
  {
    if m > 0 { PowerSum(m - 1, n); }
  }

  lemma SmallPowers()
    ensures Pow2(0) == 1 && Pow2(1) == 2 && Pow2(2) == 4 && Pow2(3) == 8 && Pow2(4) == 16
    ensures Pow2(6) == 0x40 && Pow2(7) == 0x80 && Pow2(8) == 0x100 && Pow2(9) == 0x200 && Pow2(10) == 0x400
  {
    assert Pow2(5) == 32;
  }

  lemma Powers()
    ensures Pow2(14) == 0x4000 && Pow2(16) == 0x1_0000 && Pow2(20) == 0x10_0000 && Pow2(30) == 0x4000_0000
    ensures Pow2(34) == 0x4_0000_0000 && Pow2(38) == 0x40_0000_0000 && Pow2(44) == 0x1000_0000_0000
  {
    SmallPowers();
    PowerSum(4, 10);
    PowerSum(8, 8);
    PowerSum(10, 10);
    PowerSum(10, 20);
    PowerSum(4, 30);
    PowerSum(4, 34);
    PowerSum(14, 30);
  }

  /** The n low bits of a. */
  function BitsOf(a: nat, n: nat): (b: seq<bool>)
    ensures |b| == n
  {
    if n == 0 then [] else [a % 2 == 1] + BitsOf(a / 2, n - 1)
  }

  function Inverted(b: seq<bool>): (r: seq<bool>)
    ensures |r| == |b|
  {
    seq(|b|, i requires 0 <= i < |b| => !b[i])
  }

  lemma HalfSum(lo: nat, q: nat)
    ensures (lo + 2 * q) % 2 == lo % 2 && (lo + 2 * q) / 2 == lo / 2 + q
  {
  }

  /** A shift left and an OR, as a sum, put the bits of hi above those of lo. */
  lemma {:induction false} Join(lo: nat, m: nat, hi: nat, n: nat)
    requires lo < Pow2(m)
    ensures BitsOf(lo + Pow2(m) * hi, m + n) == BitsOf(lo, m) + BitsOf(hi, n)
  {
    if m > 0 {
      var q := Pow2(m - 1) * hi;
      assert lo + Pow2(m) * hi == lo + 2 * q;
      HalfSum(lo, q);
      Join(lo / 2, m - 1, hi, n);
      calc {
        BitsOf(lo + 2 * q, m + n);
        [lo % 2 == 1] + BitsOf(lo / 2 + q, m + n - 1);
        [lo % 2 == 1] + (BitsOf(lo / 2, m - 1) + BitsOf(hi, n));
        BitsOf(lo, m) + BitsOf(hi, n);
      }
    } else {
      assert BitsOf(hi, n) == [] + BitsOf(hi, n);
    }
  }

  function Quotient(a: nat, p: nat): nat
    requires p > 0
  {
    a / p
  }

  function Remainder(a: nat, p: nat): (r: nat)
    requires p > 0
    ensures r < p
  {
    a % p
  }

  lemma Divide(a: nat, p: nat)
    requires p > 0
    ensures a == Remainder(a, p) + p * Quotient(a, p)
  {
  }

  /** The m low bits of a are those of its remainder, and the bits above are those of its quotient. */
  lemma Cut(a: nat, m: nat, n: nat)
    ensures BitsOf(a, m + n) == BitsOf(Remainder(a, Pow2(m)), m) + BitsOf(Quotient(a, Pow2(m)), n)
  {
    hide BitsOf, Pow2, Quotient, Remainder;
    Divide(a, Pow2(m));
    Join(Remainder(a, Pow2(m)), m, Quotient(a, Pow2(m)), n);
  }

  /** A field: shifted down by m and masked to n bits. */
  lemma Field(a: nat, m: nat, n: nat, total: nat)
    requires m + n <= total
    ensures BitsOf(Remainder(Quotient(a, Pow2(m)), Pow2(n)), n) == BitsOf(a, total)[m..m + n]
  {
    hide BitsOf, Pow2, Quotient, Remainder;
    var hi, rest := Quotient(a, Pow2(m)), total - m - n;
    Cut(a, m, n + rest);
    Cut(hi, n, rest);
  }

  /** Exclusive or with all ones. */
  lemma {:induction false} Complement(v: nat, n: nat)
    requires v < Pow2(n)
    ensures BitsOf(Pow2(n) - 1 - v, n) == Inverted(BitsOf(v, n))
  {
    if n > 0 {
      Complement(v / 2, n - 1);
      assert (Pow2(n) - 1 - v) / 2 == Pow2(n - 1) - 1 - v / 2;
    }
  }
}
