/** Decoding of raw Timepix3 pixel packets and the word that publishRawData makes of them. */
module RawPackets {
  import opened Words
  import opened Packets
  import opened Rollover
  import Clusters

  const TWO_60: nat := 0x1000_0000_0000_0000
  const TWO_44: nat := 0x1000_0000_0000

  predicate IsClick(w: Word64) { w / TWO_60 == 0xB }

  function Addr(w: Word64): nat { w / TWO_44 % 0x1_0000 }

  /** ((addr >> 1) & 0xFC) | (addr & 3): address bits 3-8 above bits 0-1. */
  function AddrX(a: nat): nat { a / 8 % 64 * 4 + a % 4 }

  /** ((addr >> 8) & 0xFE) | ((addr >> 2) & 1): address bits 9-15 above bit 2. */
  function AddrY(a: nat): nat { a / 512 % 128 * 2 + a / 4 % 2 }

  function RawTot(w: Word64): nat { w / 0x10_0000 % 0x400 }
  function RawToa(w: Word64): nat { w / 0x4000_0000 % 0x4000 }
  function RawFtoa(w: Word64): nat { 15 - w / 0x1_0000 % 16 }  // 4 bits xor 0xF
  function RawStime(w: Word64): nat { w % 0x1_0000 }

  function FullToa(w: Word64): nat { RawStime(w) * 0x4_0000 + RawToa(w) * 16 + RawFtoa(w) }

  /** The click that is published for a raw word. */
  function Published(s: Toa, w: Word64): Clusters.Click {
    Clusters.Click(AddrX(Addr(w)), AddrY(Addr(w)), Stamp(s, FullToa(w)), RawTot(w))
  }

  ghost predicate Valid(s: Toa) { s.counter < 16 }

  lemma RawBounds(w: Word64)
    ensures Addr(w) < 0x1_0000 && RawToa(w) < 0x4000 && 0 <= RawFtoa(w) < 16 && RawStime(w) < 0x1_0000 && RawTot(w) < 0x400
  {
  }

  lemma AddrBounds(a: nat)
    ensures AddrX(a) < 0x100 && AddrY(a) < 0x100
  {
  }

  lemma PublishedInRange(s: Toa, w: Word64)
    requires Valid(s)
    ensures FullToa(w) < PERIOD && InRange(Published(s, w)) && Valid(Next(s, FullToa(w)))
  {
    hide Addr, AddrX, AddrY, RawTot, RawToa, RawFtoa, RawStime;
    RawBounds(w);
    AddrBounds(Addr(w));
  }

  // ----- nothing of the raw word is lost -----

  function AddrOf(x: nat, y: nat): nat {
    x / 4 * 8 + x % 4 + y / 2 * 512 + y % 2 * 4
  }

  /** An address split at bits 0-1, 2, 3-8 and 9-15. */
  lemma AddrParts(high: nat, mid: nat, bit: nat, low: nat)
    requires high < 128 && mid < 64 && bit < 2 && low < 4
    ensures var a, x, y := high * 512 + mid * 8 + bit * 4 + low, mid * 4 + low, high * 2 + bit;
      AddrX(a) == x && AddrY(a) == y && AddrOf(x, y) == a
  {
    var a, x, y := high * 512 + mid * 8 + bit * 4 + low, mid * 4 + low, high * 2 + bit;
    Divided(a, 512, high, mid * 8 + bit * 4 + low);
    Divided(a, 8, high * 64 + mid, bit * 4 + low);
    Divided(high * 64 + mid, 64, high, mid);
    Divided(a, 4, (high * 64 + mid) * 2 + bit, low);
    Divided((high * 64 + mid) * 2 + bit, 2, high * 64 + mid, bit);
    Divided(x, 4, mid, low);
    Divided(y, 2, high, bit);
  }

  /** The 16 address bits and the pairs (x, y) below 256 correspond one to one. */
  lemma AddrToPixel(a: nat)
    requires a < 0x1_0000
    ensures AddrX(a) < 0x100 && AddrY(a) < 0x100 && AddrOf(AddrX(a), AddrY(a)) == a
  {
    Decomposed(a);
    AddrParts(a / 512, a / 8 % 64, a / 4 % 2, a % 4);
  }

  lemma Decomposed(a: nat)
    requires a < 0x1_0000
    ensures a == a / 512 * 512 + a / 8 % 64 * 8 + a / 4 % 2 * 4 + a % 4 && a / 512 < 128
  {
    assert a == a / 4 * 4 + a % 4;
    assert a / 4 == a / 8 * 2 + a / 4 % 2;
    assert a / 8 == a / 512 * 64 + a / 8 % 64;
  }

  lemma PixelToAddr(x: nat, y: nat)
    requires x < 0x100 && y < 0x100
    ensures AddrOf(x, y) < 0x1_0000 && AddrX(AddrOf(x, y)) == x && AddrY(AddrOf(x, y)) == y
  {
    AddrParts(y / 2, x / 4, y % 2, x % 4);
  }

  /** The low 60 bits of the raw word, from the published one. */
  function Recover(p: Word64): nat {
    var full := Time(p) % PERIOD;
    AddrOf(X(p), Y(p)) * TWO_44 + full / 16 % 0x4000 * 0x4000_0000 + Tot(p) * 0x10_0000
    + (15 - full % 16) * 0x1_0000 + full / 0x4_0000
  }

  lemma RawFields(w: Word64)
    ensures w % TWO_60 == Addr(w) * TWO_44 + RawToa(w) * 0x4000_0000 + RawTot(w) * 0x10_0000
      + (15 - RawFtoa(w)) * 0x1_0000 + RawStime(w)
  {
    assert w / 0x1_0000 == w / 0x10_0000 * 16 + w / 0x1_0000 % 16;
    assert w / 0x10_0000 == w / 0x4000_0000 * 0x400 + w / 0x10_0000 % 0x400;
    assert w / 0x4000_0000 == w / TWO_44 * 0x4000 + w / 0x4000_0000 % 0x4000;
    assert w / TWO_44 == w / TWO_60 * 0x1_0000 + w / TWO_44 % 0x1_0000;
    assert w == w / TWO_60 * TWO_60 + w % TWO_60;
  }

  lemma FullFields(counter: nat, stime: nat, toa: nat, ftoa: nat)
    requires ftoa < 16 && toa < 0x4000 && stime < 0x1_0000
    ensures var full := stime * 0x4_0000 + toa * 16 + ftoa;
      && (counter * PERIOD + full) % PERIOD == full
      && full / 16 % 0x4000 == toa && full % 16 == ftoa && full / 0x4_0000 == stime
  {
    var full := stime * 0x4_0000 + toa * 16 + ftoa;
    assert full < PERIOD;
    assert full / 16 == stime * 0x4000 + toa;
  }

  lemma RecoverPacked(p: Clusters.Click, a: nat, counter: nat, stime: nat, toa: nat, ftoa: nat)
    requires InRange(p) && AddrOf(p.x, p.y) == a && ftoa < 16 && toa < 0x4000 && stime < 0x1_0000
    requires p.t == counter * PERIOD + (stime * 0x4_0000 + toa * 16 + ftoa)
    ensures Recover(Pack(p)) == a * TWO_44 + toa * 0x4000_0000 + p.tot * 0x10_0000 + (15 - ftoa) * 0x1_0000 + stime
  {
    hide AddrOf, Pack, X, Y, Time, Tot;
    PackDecode(p);
    FullFields(counter, stime, toa, ftoa);
  }

  /** The published word is lossless: its accessors read the fields that were packed and the
      low 60 bits of the raw word can be computed from it. */
  lemma PublishLossless(s: Toa, w: Word64)
    requires Valid(s)
    ensures InRange(Published(s, w)) && Decode(Pack(Published(s, w))) == Published(s, w)
    ensures Recover(Pack(Published(s, w))) == w % TWO_60
  {
    hide AddrX, AddrY, AddrOf, RawTot, RawToa, RawFtoa, RawStime, Addr, Decode, Pack, Recover, Next;
    PublishedInRange(s, w);
    PackDecode(Published(s, w));
    RawBounds(w);
    AddrToPixel(Addr(w));
    RawFields(w);
    RecoverPacked(Published(s, w), Addr(w), Next(s, FullToa(w)).counter, RawStime(w), RawToa(w), RawFtoa(w));
  }

  // ----- publishing a chunk -----

  /** What one word adds to the output, and the state after it: non-click words are skipped. */
  function Emit(s: Toa, w: Word64): seq<Word64>
    requires Valid(s)
  {
    if IsClick(w) then PublishedInRange(s, w); [Pack(Published(s, w))] else []
  }

  function Advance(s: Toa, w: Word64): (r: Toa)
    requires Valid(s)
    ensures Valid(r)
  {
    if IsClick(w) then Next(s, FullToa(w)) else s
  }

  /** The loop of publishRawData. */
  function Publish(s: Toa, ws: seq<Word64>): (r: (Toa, seq<Word64>))
    requires Valid(s)
    ensures Valid(r.0)
  {
    if ws == [] then (s, [])
    else
      var n := |ws| - 1;
      var r := Publish(s, ws[..n]);
      (Advance(r.0, ws[n]), r.1 + Emit(r.0, ws[n]))
  }

  /** Chunk boundaries are invisible: one chunk after another is their concatenation. */
  lemma {:induction false} PublishConcat(s: Toa, a: seq<Word64>, b: seq<Word64>)
    requires Valid(s)
    ensures var r, q := Publish(s, a), Publish(Publish(s, a).0, b);
      Publish(s, a + b) == (q.0, r.1 + q.1)
  {
    hide Emit, Advance;
    if b == [] {
      assert a + b == a;
      assert Publish(s, a).1 + [] == Publish(s, a).1;
    } else {
      var n := |b| - 1;
      PublishConcat(s, a, b[..n]);
      assert (a + b)[..|a + b| - 1] == a + b[..n];
      var r, q := Publish(s, a), Publish(Publish(s, a).0, b[..n]);
      assert (r.1 + q.1) + Emit(q.0, b[n]) == r.1 + (q.1 + Emit(q.0, b[n]));
    }
  }

  /** The click words, in order. */
  function ClicksOf(ws: seq<Word64>): seq<Word64> {
    if ws == [] then []
    else
      var n := |ws| - 1;
      ClicksOf(ws[..n]) + if IsClick(ws[n]) then [ws[n]] else []
  }

  /** One word is published for each click word, in order, and keeps its low 60 bits. */
  lemma {:induction false} PublishKeepsClicks(s: Toa, ws: seq<Word64>)
    requires Valid(s)
    ensures |Publish(s, ws).1| == |ClicksOf(ws)|
    ensures forall i | 0 <= i < |ClicksOf(ws)| :: Recover(Publish(s, ws).1[i]) == ClicksOf(ws)[i] % TWO_60
  {
    hide Next, Published, Pack, Recover, IsClick, InRange;
    if ws != [] {
      var n := |ws| - 1;
      PublishKeepsClicks(s, ws[..n]);
      PublishLossless(Publish(s, ws[..n]).0, ws[n]);
    }
  }
}
