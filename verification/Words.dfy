/** Machine words and bytes as bounded naturals.  A shift and mask that selects a contiguous
    field is a quotient and a remainder by powers of two; an OR of fields that cannot overlap is their sum. */
module Words {

  const TWO_38: nat := 0x40_0000_0000
  const TWO_34: nat := 0x4_0000_0000
  const TWO_32: nat := 0x1_0000_0000
  const TWO_64: nat := 0x1_0000_0000_0000_0000

  type Byte = b: nat | b < 0x100
  type Word32 = w: nat | w < 0x1_0000_0000
  type Word64 = w: nat | w < 0x1_0000_0000_0000_0000

  datatype Option<+T> = None | Some(value: T)

  /** {0, ..., n-1} */
  ghost function Below(n: nat): (r: set<nat>)
    ensures forall i: nat :: i in r <==> i < n
  {
    if n == 0 then {} else Below(n - 1) + {n - 1}
  }

  function Min(a: int, b: int): int { if a <= b then a else b }
  function Max(a: int, b: int): int { if a >= b then a else b }

  /** A larger multiple of p is larger by p at least. */
  lemma OneMoreMultiple(d: nat, q: nat, p: nat)
    requires d > q
    ensures d * p >= q * p + p
  {
    assert d * p == (q + 1) * p + (d - q - 1) * p;
  }

  /** There is only one quotient and one remainder. */
  lemma SameQuotient(p: nat, d: nat, e: nat, q: nat, r: nat)
    requires e < p && r < p && d * p + e == q * p + r
    ensures d == q && e == r
  {
    if d > q {
      OneMoreMultiple(d, q, p);
    } else if d < q {
      OneMoreMultiple(q, d, p);
    }
  }

  lemma Division(x: nat, p: nat)
    requires p > 0
    ensures x / p >= 0 && x == x / p * p + x % p && 0 <= x % p < p
  {
  }

  /** Quotient and remainder from a decomposition. */
  lemma Divided(x: nat, p: nat, q: nat, r: nat)
    requires r < p && x == q * p + r
    ensures x / p == q && x % p == r
  {
    Division(x, p);
    SameQuotient(p, x / p, x % p, q, r);
  }
}
