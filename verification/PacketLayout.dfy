/** The masks and shifts of publishRawData against the bits themselves: which bit of the raw word
    ends up where in the published one. */
module PacketLayout {
  import opened Words
  import opened Bits
  import opened Packets
  import opened Rollover
  import opened RawPackets
  import ByteOrder
  import Clusters
  import Tpx3Files

  lemma FieldBits(w: nat, m: nat, pm: nat, n: nat, pn: nat, total: nat)
    requires pm == Pow2(m) && pn == Pow2(n) && m + n <= total
    ensures BitsOf(w / pm % pn, n) == BitsOf(w, total)[m..m + n]
  {
    Field(w, m, n, total);
    hide BitsOf, Pow2;
  }

  lemma JoinBits(lo: nat, m: nat, pm: nat, hi: nat, n: nat)
    requires pm == Pow2(m) && lo < pm
    ensures BitsOf(lo + pm * hi, m + n) == BitsOf(lo, m) + BitsOf(hi, n)
  {
    hide BitsOf, Pow2;
    Join(lo, m, hi, n);
  }

  /** From the least significant bit: time, ToT, y, x. */
  lemma PackBits(p: Clusters.Click)
    requires InRange(p)
    ensures BitsOf(Pack(p), 64) == BitsOf(p.t, 38) + BitsOf(p.tot, 10) + BitsOf(p.y, 8) + BitsOf(p.x, 8)
  {
    hide BitsOf, Pow2;
    SmallPowers();
    Powers();
    var yx := p.y + 0x100 * p.x;
    var rest := p.tot + 0x400 * yx;
    assert Pack(p) == p.t + TWO_38 * rest;
    JoinBits(p.t, 38, TWO_38, rest, 26);
    JoinBits(p.tot, 10, 0x400, yx, 16);
    JoinBits(p.y, 8, 0x100, p.x, 8);
    assert BitsOf(p.tot, 10) + (BitsOf(p.y, 8) + BitsOf(p.x, 8)) == BitsOf(p.tot, 10) + BitsOf(p.y, 8) + BitsOf(p.x, 8);
  }

  /** x: address bits 0-1 and 3-8; y: address bits 2 and 9-15. */
  lemma AddrBits(a: nat)
    requires a < 0x1_0000
    ensures var b := BitsOf(a, 16);
      BitsOf(AddrX(a), 8) == b[0..2] + b[3..9] && BitsOf(AddrY(a), 8) == b[2..3] + b[9..16]
  {
    hide BitsOf, Pow2;
    SmallPowers();
    Powers();
    FieldBits(a, 0, 1, 2, 4, 16);
    FieldBits(a, 3, 8, 6, 64, 16);
    JoinBits(a % 4, 2, 4, a / 8 % 64, 6);
    FieldBits(a, 2, 4, 1, 2, 16);
    FieldBits(a, 9, 512, 7, 128, 16);
    JoinBits(a / 4 % 2, 1, 2, a / 512 % 128, 7);
  }

  /** The fields of the raw word. */
  lemma RawBits(w: Word64)
    ensures var b := BitsOf(w, 64);
      && BitsOf(RawStime(w), 16) == b[0..16] && BitsOf(w / 0x1_0000 % 16, 4) == b[16..20]
      && BitsOf(RawTot(w), 10) == b[20..30] && BitsOf(RawToa(w), 14) == b[30..44] && BitsOf(Addr(w), 16) == b[44..60]
  {
    hide BitsOf, Pow2;
    SmallPowers();
    Powers();
    FieldBits(w, 0, 1, 16, 0x1_0000, 64);
    FieldBits(w, 16, 0x1_0000, 4, 16, 64);
    FieldBits(w, 20, 0x10_0000, 10, 0x400, 64);
    FieldBits(w, 30, 0x4000_0000, 14, 0x4000, 64);
    FieldBits(w, 44, TWO_44, 16, 0x1_0000, 64);
  }

  /** The 34-bit time: the fine time inverted, then the coarse time, then the slow counter. */
  lemma FullToaBits(w: Word64)
    ensures var b := BitsOf(w, 64); BitsOf(FullToa(w), 34) == Inverted(b[16..20]) + b[30..44] + b[0..16]
  {
    hide BitsOf, Pow2;
    SmallPowers();
    Powers();
    RawBits(w);
    Complement(w / 0x1_0000 % 16, 4);
    var upper := RawToa(w) + 0x4000 * RawStime(w);
    assert FullToa(w) == RawFtoa(w) + 16 * upper;
    JoinBits(RawFtoa(w), 4, 16, upper, 30);
    JoinBits(RawToa(w), 14, 0x4000, RawStime(w), 16);
    var b := BitsOf(w, 64);
    assert Inverted(b[16..20]) + (b[30..44] + b[0..16]) == Inverted(b[16..20]) + b[30..44] + b[0..16];
  }

  lemma StampBits(s: Toa, full: nat)
    requires RawPackets.Valid(s) && full < PERIOD
    ensures BitsOf(Stamp(s, full), 38) == BitsOf(full, 34) + BitsOf(Next(s, full).counter, 4)
  {
    hide BitsOf, Pow2;
    SmallPowers();
    Powers();
    JoinBits(full, 34, PERIOD, Next(s, full).counter, 4);
  }

  /** The whole published word, bit by bit, from the raw word's bits and the rollover counter. */
  lemma PublishedBits(s: Toa, w: Word64)
    requires RawPackets.Valid(s)
    ensures InRange(Published(s, w))
    ensures var b, counter := BitsOf(w, 64), Next(s, FullToa(w)).counter;
      var time, tot := Inverted(b[16..20]) + b[30..44] + b[0..16] + BitsOf(counter, 4), b[20..30];
      var x, y := b[44..46] + b[47..53], b[46..47] + b[53..60];
      BitsOf(Pack(Published(s, w)), 64) == time + tot + y + x
  {
    hide BitsOf, Pack, Addr, AddrX, AddrY, RawTot, RawToa, RawFtoa, RawStime, FullToa, Stamp, Next, Inverted;
    PublishedInRange(s, w);
    RawBounds(w);
    PackBits(Published(s, w));
    StampBits(s, FullToa(w));
    FullToaBits(w);
    RawBits(w);
    AddrBits(Addr(w));
    var b := BitsOf(w, 64);
    SubField(b, 44, 60, 0, 2);
    SubField(b, 44, 60, 3, 9);
    SubField(b, 44, 60, 2, 3);
    SubField(b, 44, 60, 9, 16);
  }

  lemma SubField(b: seq<bool>, lo: nat, hi: nat, i: nat, j: nat)
    requires i <= j && lo + j <= hi <= |b|
    ensures b[lo..hi][i..j] == b[lo + i..lo + j]
  {
    var c := b[lo..hi];
    assert forall k | 0 <= k < j - i :: c[i..j][k] == c[i + k] == b[lo + (i + k)] == b[lo + i..lo + j][k];
  }

  // ----- down to the bytes of the datagram -----

  lemma FourBytes(b: seq<Byte>)
    requires |b| == 4
    ensures BitsOf(ByteOrder.FromBytes4(b), 32) == BitsOf(b[0], 8) + BitsOf(b[1], 8) + BitsOf(b[2], 8) + BitsOf(b[3], 8)
  {
    hide BitsOf, Pow2;
    SmallPowers();
    var upper: nat := b[2] as int + 0x100 * b[3] as int;
    var rest: nat := b[1] as int + 0x100 * upper;
    assert ByteOrder.FromBytes4(b) == b[0] as int + 0x100 * rest;
    JoinBits(b[0], 8, 0x100, rest, 24);
    JoinBits(b[1], 8, 0x100, upper, 16);
    JoinBits(b[2], 8, 0x100, b[3], 8);
    assert BitsOf(b[0], 8) + (BitsOf(b[1], 8) + (BitsOf(b[2], 8) + BitsOf(b[3], 8)))
      == BitsOf(b[0], 8) + BitsOf(b[1], 8) + BitsOf(b[2], 8) + BitsOf(b[3], 8);
  }

  /** The bits of a raw word are those of its eight bytes in the order in which they were received. */
  lemma StoredBits(b: seq<Byte>)
    requires |b| == 8
    ensures BitsOf(Tpx3Files.FromStored(b), 64)
      == BitsOf(b[0], 8) + BitsOf(b[1], 8) + BitsOf(b[2], 8) + BitsOf(b[3], 8)
         + BitsOf(b[4], 8) + BitsOf(b[5], 8) + BitsOf(b[6], 8) + BitsOf(b[7], 8)
  {
    hide BitsOf, Pow2;
    SmallPowers();
    Powers();
    PowerSum(16, 16);
    var lo, hi := ByteOrder.FromBytes4(b[..4]), ByteOrder.FromBytes4(b[4..]);
    FourBytes(b[..4]);
    FourBytes(b[4..]);
    JoinBits(lo, 32, TWO_32, hi, 32);
    BitsConcat(BitsOf(lo, 32), BitsOf(b[4], 8), BitsOf(b[5], 8), BitsOf(b[6], 8), BitsOf(b[7], 8));
  }

  lemma BitsConcat(a: seq<bool>, b: seq<bool>, c: seq<bool>, d: seq<bool>, e: seq<bool>)
    ensures a + (b + c + d + e) == a + b + c + d + e
  {
  }
}
