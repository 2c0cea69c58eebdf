/** The clustering algorithm of ClusteringManager.cpp on values: single clusters, the merge scan
    and the expiry sweep.  Every cluster carries the list of hits it absorbed, which the
    program does not store; the program's fields are the `Cluster` part only. */
module Clusters {
  import opened Words

  /** A double without rounding: a real, or the NaN that 0.0 / 0.0 gives. */
  datatype Double = NaN | Num(r: real)

  datatype Click = Click(x: nat, y: nat, t: nat, tot: nat)

  datatype Settings = Settings(xySep: int, tSep: int, maxTSep: nat)

  /** Separations a caller would choose: not negative, and C++ `int`s. */
  predicate Sane(s: Settings) {
    0 <= s.xySep < 0x8000_0000 && 0 <= s.tSep < 0x8000_0000 && s.maxTSep < 0x8000_0000
  }

  datatype Axis = AxisX | AxisY | AxisT

  function Coord(a: Axis, p: Click): nat {
    match a case AxisX => p.x case AxisY => p.y case AxisT => p.t
  }

  function Sep(a: Axis, s: Settings): int {
    if a.AxisT? then s.tSep else s.xySep
  }

  /** (m * w + v * u) / (w + u) */
  function WeightedMean(m: Double, w: real, v: Double, u: real): Double {
    if m.NaN? || v.NaN? || w + u == 0.0 then NaN else Num((m.r * w + v.r * u) / (w + u))
  }

  /** One axis of a cluster: the running mean and the padded side of the bounding box. */
  datatype Extent = Extent(mean: Double, lo: int, hi: int) {
    predicate Covers(v: int) { lo <= v && hi >= v }

    function Grow(total: real, v: nat, w: nat, sep: int): Extent {
      Extent(WeightedMean(mean, total, Num(v as real), w as real), Min(lo, v - sep), Max(hi, v + sep))
    }

    function Join(total: real, e: Extent, eTotal: real): Extent {
      Extent(WeightedMean(mean, total, e.mean, eTotal), Min(lo, e.lo), Max(hi, e.hi))
    }
  }

  datatype Cluster = Cluster(x: Extent, y: Extent, t: Extent, total: real) {
    function Along(a: Axis): Extent {
      match a case AxisX => x case AxisY => y case AxisT => t
    }

    predicate Contains(p: Click) {
      x.Covers(p.x) && y.Covers(p.y) && t.Covers(p.t)
    }

    function WithClick(p: Click, s: Settings): Cluster {
      Cluster(x.Grow(total, p.x, p.tot, s.xySep), y.Grow(total, p.y, p.tot, s.xySep),
              t.Grow(total, p.t, p.tot, s.tSep), total + p.tot as real)
    }

    function WithCluster(c: Cluster): Cluster {
      Cluster(x.Join(total, c.x, c.total), y.Join(total, c.y, c.total),
              t.Join(total, c.t, c.total), total + c.total)
    }

    /** `click.t() > tmax + max_t_separation`: the signed sum meets a `size_t`, so both sides are unsigned. */
    predicate Expired(t0: nat, s: Settings) {
      t0 > (t.hi + s.maxTSep) % TWO_64
    }
  }

  function NewExtent(v: nat, sep: int): Extent { Extent(Num(v as real), v - sep, v + sep) }

  function NewCluster(p: Click, s: Settings): Cluster {
    Cluster(NewExtent(p.x, s.xySep), NewExtent(p.y, s.xySep), NewExtent(p.t, s.tSep), p.tot as real)
  }

  /** A click together with its position in the stream. */
  datatype Hit = Hit(id: nat, click: Click)

  /** A cluster and what went into it: a click counts once per cluster it was added to. */
  datatype Tracked = Tracked(c: Cluster, hits: seq<Hit>) {
    function Add(h: Hit, s: Settings): Tracked { Tracked(c.WithClick(h.click, s), hits + [h]) }
    function Merge(o: Tracked): Tracked { Tracked(c.WithCluster(o.c), hits + o.hits) }
    function Ids(): set<nat> { set h | h in hits :: h.id }
  }

  function NewTracked(h: Hit, s: Settings): Tracked { Tracked(NewCluster(h.click, s), [h]) }

  /** ClusterList::remove: swap with the last element and pop. */
  function Remove<A>(xs: seq<A>, i: nat): (r: seq<A>)
    requires i < |xs|
    ensures |r| == |xs| - 1
    ensures forall j | 0 <= j < |r| :: r[j] == if j == i then xs[|xs| - 1] else xs[j]
    ensures multiset(xs) == multiset(r) + multiset{xs[i]}
  {
    var n := |xs| - 1;
    assert xs == xs[..n] + [xs[n]];
    assert i < n ==> xs[..n] == xs[..i] + [xs[i]] + xs[i + 1..n];
    assert i < n ==> xs[i := xs[n]][..n] == xs[..i] + [xs[n]] + xs[i + 1..n];
    if |xs| > 1 then xs[i := xs[n]][..n] else []
  }

  // ----- exact summaries -----

  function TotSum(hits: seq<Hit>): int {
    if hits == [] then 0 else TotSum(hits[..|hits| - 1]) + hits[|hits| - 1].click.tot
  }

  function WeightedSum(a: Axis, hits: seq<Hit>): int {
    if hits == [] then 0
    else WeightedSum(a, hits[..|hits| - 1]) + Coord(a, hits[|hits| - 1].click) * hits[|hits| - 1].click.tot
  }

  lemma {:induction false} SumsConcat(a: Axis, l: seq<Hit>, r: seq<Hit>)
    ensures TotSum(l + r) == TotSum(l) + TotSum(r)
    ensures WeightedSum(a, l + r) == WeightedSum(a, l) + WeightedSum(a, r)
  {
    if r == [] {
      assert l + r == l;
    } else {
      var n := |r| - 1;
      SumsConcat(a, l, r[..n]);
      assert (l + r)[..|l + r| - 1] == l + r[..n];
    }
  }

  ghost predicate Least(v: int, a: Axis, hits: seq<Hit>) {
    (exists h | h in hits :: Coord(a, h.click) == v) && forall h | h in hits :: v <= Coord(a, h.click)
  }

  ghost predicate Greatest(v: int, a: Axis, hits: seq<Hit>) {
    (exists h | h in hits :: Coord(a, h.click) == v) && forall h | h in hits :: Coord(a, h.click) <= v
  }

  ghost predicate AllWeighty(hits: seq<Hit>) { forall h | h in hits :: h.click.tot >= 1 }

  /** The ToT-weighted mean; without any weight, the coordinate of the only hit. */
  ghost predicate MeanOf(m: Double, total: real, a: Axis, hits: seq<Hit>) {
    && (m.Num? ==> m.r * total == WeightedSum(a, hits) as real)
    && (m.Num? && total == 0.0 ==> |hits| == 1 && m.r == Coord(a, hits[0].click) as real)
    && (AllWeighty(hits) ==> m.Num?)
  }

  /** The mean is the ToT-weighted mean of the hits and the box side is their range, padded. */
  ghost predicate ExactAlong(a: Axis, t: Tracked, s: Settings) {
    var e := t.c.Along(a);
    && MeanOf(e.mean, t.c.total, a, t.hits)
    && Least(e.lo + Sep(a, s), a, t.hits)
    && Greatest(e.hi - Sep(a, s), a, t.hits)
  }

  ghost predicate Exact(t: Tracked, s: Settings) {
    t.hits != [] && t.c.total == TotSum(t.hits) as real && forall a: Axis :: ExactAlong(a, t, s)
  }

  lemma {:induction false} TotSumBounds(hits: seq<Hit>)
    ensures TotSum(hits) >= 0
    ensures AllWeighty(hits) && hits != [] ==> TotSum(hits) >= 1
  {
    if hits != [] {
      assert hits == hits[..|hits| - 1] + [hits[|hits| - 1]];
      TotSumBounds(hits[..|hits| - 1]);
    }
  }

  lemma WeightedMeanExact(m: Double, w: real, v: Double, u: real)
    ensures var r := WeightedMean(m, w, v, u);
      r.Num? <==> m.Num? && v.Num? && w + u != 0.0
    ensures var r := WeightedMean(m, w, v, u);
      r.Num? ==> r.r * (w + u) == m.r * w + v.r * u
  {
  }

  lemma ExactNew(h: Hit, s: Settings)
    ensures Exact(NewTracked(h, s), s)
  {
    var t := NewTracked(h, s);
    assert t.hits[..0] == [];
    forall a: Axis ensures ExactAlong(a, t, s) {
      assert h in t.hits;
      assert WeightedSum(a, t.hits) == WeightedSum(a, t.hits[..0]) + Coord(a, h.click) * h.click.tot;
    }
    assert TotSum(t.hits) == TotSum(t.hits[..0]) + h.click.tot;
  }

  lemma LeastConcat(a: Axis, l: seq<Hit>, r: seq<Hit>, u: int, v: int)
    requires Least(u, a, l) && Least(v, a, r)
    ensures Least(Min(u, v), a, l + r)
  {
    var h :| h in l && Coord(a, h.click) == u;
    var k :| k in r && Coord(a, k.click) == v;
    assert h in l + r && k in l + r;
  }

  lemma GreatestConcat(a: Axis, l: seq<Hit>, r: seq<Hit>, u: int, v: int)
    requires Greatest(u, a, l) && Greatest(v, a, r)
    ensures Greatest(Max(u, v), a, l + r)
  {
    var h :| h in l && Coord(a, h.click) == u;
    var k :| k in r && Coord(a, k.click) == v;
    assert h in l + r && k in l + r;
  }

  /** Merging the one-hit cluster of a click is adding the click. */
  lemma AddIsMerge(t: Tracked, h: Hit, s: Settings)
    ensures t.Add(h, s) == t.Merge(NewTracked(h, s))
  {
  }

  lemma MeanArithmetic(m: Double, w: int, sw: int, n: Double, u: int, su: int)
    requires m.Num? ==> m.r * w as real == sw as real
    requires n.Num? ==> n.r * u as real == su as real
    ensures var r := WeightedMean(m, w as real, n, u as real);
      && (r.Num? <==> m.Num? && n.Num? && w + u != 0)
      && (r.Num? ==> r.r * (w + u) as real == (sw + su) as real)
  {
    WeightedMeanExact(m, w as real, n, u as real);
  }

  lemma WeightyConcat(l: seq<Hit>, r: seq<Hit>)
    requires AllWeighty(l + r) && l != []
    ensures AllWeighty(l) && AllWeighty(r) && TotSum(l) + TotSum(r) >= 1
  {
    assert forall h | h in l :: h in l + r;
    assert forall h | h in r :: h in l + r;
    TotSumBounds(l);
    TotSumBounds(r);
  }

  lemma MeanConcat(a: Axis, m: Double, l: seq<Hit>, n: Double, r: seq<Hit>)
    requires MeanOf(m, TotSum(l) as real, a, l) && MeanOf(n, TotSum(r) as real, a, r) && l != []
    ensures MeanOf(WeightedMean(m, TotSum(l) as real, n, TotSum(r) as real), TotSum(l + r) as real, a, l + r)
  {
    hide WeightedMean, WeightedSum, TotSum, AllWeighty;
    if AllWeighty(l + r) { WeightyConcat(l, r); }
    SumsConcat(a, l, r);
    MeanArithmetic(m, TotSum(l), WeightedSum(a, l), n, TotSum(r), WeightedSum(a, r));
  }

  lemma ExactMergeAlong(a: Axis, t: Tracked, o: Tracked, s: Settings)
    requires ExactAlong(a, t, s) && ExactAlong(a, o, s)
    requires t.c.total == TotSum(t.hits) as real && o.c.total == TotSum(o.hits) as real
    requires t.hits != []
    ensures ExactAlong(a, t.Merge(o), s)
  {
    hide WeightedMean, TotSum, WeightedSum, Least, Greatest, MeanOf, Sep;
    var e, f := t.c.Along(a), o.c.Along(a);
    assert t.Merge(o).c.Along(a) == e.Join(t.c.total, f, o.c.total);
    SumsConcat(a, t.hits, o.hits);
    MeanConcat(a, e.mean, t.hits, f.mean, o.hits);
    LeastConcat(a, t.hits, o.hits, e.lo + Sep(a, s), f.lo + Sep(a, s));
    GreatestConcat(a, t.hits, o.hits, e.hi - Sep(a, s), f.hi - Sep(a, s));
  }

  lemma ExactMerge(t: Tracked, o: Tracked, s: Settings)
    requires Exact(t, s) && Exact(o, s)
    ensures Exact(t.Merge(o), s)
  {
    SumsConcat(AxisX, t.hits, o.hits);
    forall a: Axis ensures ExactAlong(a, t.Merge(o), s) {
      ExactMergeAlong(a, t, o, s);
    }
  }

  lemma ExactAdd(t: Tracked, h: Hit, s: Settings)
    requires Exact(t, s)
    ensures Exact(t.Add(h, s), s)
  {
    ExactNew(h, s);
    AddIsMerge(t, h, s);
    ExactMerge(t, NewTracked(h, s), s);
  }

  // ----- the box -----

  lemma CoversExact(a: Axis, t: Tracked, p: Click, s: Settings)
    requires ExactAlong(a, t, s)
    ensures t.c.Along(a).Covers(Coord(a, p))
      <==> (exists h | h in t.hits :: Coord(a, h.click) - Sep(a, s) <= Coord(a, p))
           && (exists h | h in t.hits :: Coord(a, p) <= Coord(a, h.click) + Sep(a, s))
  {
    hide MeanOf, Sep, Coord;
    var e := t.c.Along(a);
    var least :| least in t.hits && Coord(a, least.click) == e.lo + Sep(a, s);
    var greatest :| greatest in t.hits && Coord(a, greatest.click) == e.hi - Sep(a, s);
  }

  /** A cluster contains a click if and only if, along each of the three axes, some hit of it is at most the
      separation above the click and some hit at most the separation below. */
  lemma ContainsExact(t: Tracked, p: Click, s: Settings)
    requires Exact(t, s)
    ensures t.c.Contains(p) <==> forall a: Axis ::
      && (exists h | h in t.hits :: Coord(a, h.click) - Sep(a, s) <= Coord(a, p))
      && (exists h | h in t.hits :: Coord(a, p) <= Coord(a, h.click) + Sep(a, s))
  {
    hide ExactAlong, Sep;
    assert ExactAlong(AxisX, t, s) && ExactAlong(AxisY, t, s) && ExactAlong(AxisT, t, s);
    CoversExact(AxisX, t, p, s);
    CoversExact(AxisY, t, p, s);
    CoversExact(AxisT, t, p, s);
    assert t.c.Contains(p) <==> forall a: Axis :: t.c.Along(a).Covers(Coord(a, p));
  }
}
