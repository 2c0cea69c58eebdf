/** The 64-bit packet that the UDP thread publishes and the clustering and histogram threads read. */
module Packets {
  import opened Words
  import opened Clusters

  const TWO_48: nat := 0x1_0000_0000_0000
  const TWO_56: nat := 0x100_0000_0000_0000

  function X(w: Word64): nat { (w / TWO_56) % 0x100 }
  function Y(w: Word64): nat { (w / TWO_48) % 0x100 }
  function Time(w: Word64): nat { w % TWO_38 }
  function Tot(w: Word64): nat { (w / TWO_38) % 0x400 }

  function Decode(w: Word64): Click { Click(X(w), Y(w), Time(w), Tot(w)) }

  predicate InRange(p: Click) {
    p.x < 0x100 && p.y < 0x100 && p.tot < 0x400 && p.t < TWO_38
  }

  /** x << 56 | y << 48 | tot << 38 | t, for fields that fit. */
  function Pack(p: Click): Word64
    requires InRange(p)
  {
    p.x * TWO_56 + p.y * TWO_48 + p.tot * TWO_38 + p.t
  }

  /** The accessors read back the packed fields and packing loses nothing: the two are inverse. */
  lemma PackDecode(p: Click)
    requires InRange(p)
    ensures Decode(Pack(p)) == p
  {
    var w := Pack(p);
    assert w / TWO_56 == p.x;
    assert w / TWO_48 == p.x * 0x100 + p.y;
    assert w / TWO_38 == (p.x * 0x100 + p.y) * 0x400 + p.tot;
  }

  lemma DecodePack(w: Word64)
    ensures InRange(Decode(w)) && Pack(Decode(w)) == w
  {
    assert w / TWO_56 < 0x100;
    assert w / TWO_48 == (w / TWO_56) * 0x100 + Y(w);
    assert w / TWO_38 == (w / TWO_48) * 0x400 + Tot(w);
  }

  /** static_cast of a double to uint64_t; outside the target's range C++ leaves the result open (`undef`). */
  function CastU64(d: Double, undef: Word64): Word64 {
    if d.Num? && 0.0 <= d.r < TWO_64 as real then d.r.Floor else undef
  }

  /** Cluster::toRawValue */
  function ToRaw(c: Cluster, undef: Word64): Word64 {
    (CastU64(c.x.mean, undef) % 0x100) * TWO_56 + (CastU64(c.y.mean, undef) % 0x100) * TWO_48
    + CastU64(c.t.mean, undef) % TWO_38
  }

  lemma BoundsStep(lo: int, hi: int, total: int, sum: int, c: int, w: nat)
    requires lo <= c <= hi && lo * total <= sum <= hi * total
    ensures lo * (total + w) <= sum + c * w <= hi * (total + w)
  {
  }

  lemma {:induction false} WeightedSumBounds(a: Axis, hits: seq<Hit>, lo: int, hi: int)
    requires forall h | h in hits :: lo <= Coord(a, h.click) <= hi
    ensures lo * TotSum(hits) <= WeightedSum(a, hits) <= hi * TotSum(hits)
  {
    if hits != [] {
      var n := |hits| - 1;
      assert hits[n] in hits && forall h | h in hits[..n] :: h in hits;
      WeightedSumBounds(a, hits[..n], lo, hi);
      BoundsStep(lo, hi, TotSum(hits[..n]), WeightedSum(a, hits[..n]), Coord(a, hits[n].click), hits[n].click.tot);
    }
  }

  lemma QuotientBetween(r: real, total: int, sum: int, lo: int, hi: int)
    requires total > 0 && r * total as real == sum as real && lo * total <= sum <= hi * total
    ensures lo as real <= r <= hi as real
  {
    var t := total as real;
    assert (lo * total) as real == lo as real * t && (hi * total) as real == hi as real * t;
    assert lo as real * t <= r * t <= hi as real * t;
  }

  /** A mean that is a number lies between the extreme hits: within the box shrunk back by the separation. */
  lemma MeanBetween(a: Axis, t: Tracked, s: Settings)
    requires Exact(t, s) && t.c.Along(a).mean.Num?
    ensures var e := t.c.Along(a);
      (e.lo + Sep(a, s)) as real <= e.mean.r <= (e.hi - Sep(a, s)) as real
  {
    hide TotSum, WeightedSum, Cluster.Along, Sep;
    assert ExactAlong(a, t, s);
    var e := t.c.Along(a);
    TotSumBounds(t.hits);
    if TotSum(t.hits) == 0 {
      assert t.hits[0] in t.hits;
    } else {
      WeightedSumBounds(a, t.hits, e.lo + Sep(a, s), e.hi - Sep(a, s));
      QuotientBetween(e.mean.r, TotSum(t.hits), WeightedSum(a, t.hits), e.lo + Sep(a, s), e.hi - Sep(a, s));
    }
  }

  /** With weight in every hit the means are numbers. */
  lemma WeightyMean(a: Axis, t: Tracked, s: Settings)
    requires Exact(t, s) && AllWeighty(t.hits)
    ensures t.c.Along(a).mean.Num?
  {
    assert ExactAlong(a, t, s);
  }

  /** The field that a mean becomes under a mask of its axis. */
  function FieldOf(d: Double, undef: Word64, mask: nat): nat
    requires mask > 0
  {
    CastU64(d, undef) % mask
  }

  lemma MeanInRange(a: Axis, t: Tracked, s: Settings)
    requires Exact(t, s) && t.c.Along(a).mean.Num? && forall h | h in t.hits :: InRange(h.click)
    ensures var m := t.c.Along(a).mean; 0.0 <= m.r && m.r.Floor < if a.AxisT? then TWO_38 else 0x100
  {
    MeanBetween(a, t, s);
    assert ExactAlong(a, t, s);
    hide Exact, MeanOf, TotSum, WeightedSum, Sep, Cluster.Along;
    var h :| h in t.hits && Coord(a, h.click) == t.c.Along(a).hi - Sep(a, s);
    var g :| g in t.hits && Coord(a, g.click) == t.c.Along(a).lo + Sep(a, s);
  }

  lemma AxisField(a: Axis, t: Tracked, s: Settings, undef: Word64)
    requires Exact(t, s) && forall h | h in t.hits :: InRange(h.click)
    ensures var m, mask := t.c.Along(a).mean, if a.AxisT? then TWO_38 else 0x100;
      FieldOf(m, undef, mask) == if m.Num? then m.r.Floor else undef % mask
  {
    var m := t.c.Along(a).mean;
    if m.Num? { MeanInRange(a, t, s); }
    hide Exact, Cluster.Along;
  }

  /** No mask of toRawValue drops a bit: the emitted word reads back the floor of each mean that is a number. */
  lemma EmittedWord(t: Tracked, s: Settings, undef: Word64)
    requires Exact(t, s) && forall h | h in t.hits :: InRange(h.click)
    ensures var c, p := t.c, Decode(ToRaw(t.c, undef));
      && p.x == (if c.x.mean.Num? then c.x.mean.r.Floor else undef % 0x100)
      && p.y == (if c.y.mean.Num? then c.y.mean.r.Floor else undef % 0x100)
      && p.t == (if c.t.mean.Num? then c.t.mean.r.Floor else undef % TWO_38)
      && p.tot == 0
  {
    AxisField(AxisX, t, s, undef);
    AxisField(AxisY, t, s, undef);
    AxisField(AxisT, t, s, undef);
    var c := t.c;
    hide Exact, InRange, CastU64;
    EmittedFields(FieldOf(c.x.mean, undef, 0x100), FieldOf(c.y.mean, undef, 0x100), FieldOf(c.t.mean, undef, TWO_38));
  }

  lemma EmittedFields(x: nat, y: nat, t: nat)
    requires x < 0x100 && y < 0x100 && t < TWO_38
    ensures var w := x * TWO_56 + y * TWO_48 + t; w < TWO_64 && Decode(w) == Click(x, y, t, 0)
  {
    PackDecode(Click(x, y, t, 0));
  }
}
