/** The unwrapping and the clusterer together: what a late click around a wrap does to the tolerance of
    the clusterer for clicks that are out of order. */
module ClusterTimes {
  import opened Words
  import opened Rollover
  import opened PublishedTimes
  import opened Packets
  import opened Clusters
  import opened Scans
  import opened ScanCounts
  import ClusterRuns

  /** What the clustering thread decodes from the published words. */
  function Decoded(published: seq<Word64>): seq<Clusters.Click> {
    seq(|published|, i requires 0 <= i < |published| => Decode(published[i]))
  }

  /** Clicks only, none of them close to the end of the 38-bit range. */
  predicate Unwrapped(es: seq<Rollover.Event>) {
    forall e | e in es :: e.Click? && e.t + PERIOD < TWO_38
  }

  /** The words carry the stamps of these events. */
  ghost predicate Carries(published: seq<Word64>, es: seq<Rollover.Event>) {
    TimesOf(published) == StampsOf(Observed(es))
  }

  /** A click from before the latest wrap. */
  predicate Late(es: seq<Rollover.Event>, i: nat)
    requires i < |es| && es[i].Click?
  {
    Epoch(es[i].t) < Epoch(Truly(es[..i + 1]).max)
  }

  predicate LateLast(es: seq<Rollover.Event>)
    requires Unwrapped(es)
  {
    forall i, k | 0 <= i < k < |es| :: Late(es, i) ==> Late(es, k)
  }

  lemma {:induction false} OnlyClicks(es: seq<Rollover.Event>)
    requires Unwrapped(es)
    ensures NumClicks(es) == |es| && Truly(es).base == 0
  {
    if es != [] { OnlyClicks(es[..|es| - 1]); }
  }

  lemma {:induction false} PlausiblePrefix(es: seq<Rollover.Event>, i: nat, j: nat, g: nat)
    requires Plausible(es, j, g) && i <= |es|
    ensures Plausible(es[..i], j, g)
  {
    if i < |es| {
      PlausiblePrefix(es[..|es| - 1], i, j, g);
      assert es[..|es| - 1][..i] == es[..i];
    } else {
      assert es[..i] == es;
    }
  }

  /** The published time of each click, without any modulus. */
  lemma PublishedAt(published: seq<Word64>, es: seq<Rollover.Event>, i: nat, j: nat, g: nat)
    requires Carries(published, es) && Unwrapped(es) && Plausible(es, j, g) && j + g < QUARTER && i < |es|
    ensures |published| == |es| && es[i].Click?
    ensures Decoded(published)[i].t == es[i].t + if Late(es, i) then PERIOD else 0
  {
    hide Truly, Plausible, Epoch, Time, StampsOf, Observed, NumClicks, X, Y, Tot;
    assert es[i] in es;
    PlausiblePrefix(es, i + 1, j, g);
    OnlyClicks(es);
    OnlyClicks(es[..i]);
    OnlyClicks(es[..i + 1]);
    PublishedTimeExact(Observed(es), published, es, i, j, g);
    ObservedSame(es);
  }

  /** Largest times before and after click i. */
  lemma AtClick(es: seq<Rollover.Event>, i: nat, j: nat, g: nat)
    requires Unwrapped(es) && Plausible(es, j, g) && 0 < i < |es|
    ensures var m, n := Truly(es[..i]).max, Truly(es[..i + 1]).max;
      && es[i].Click? && m - j <= es[i].t <= m + g && n == Max(m, es[i].t)
  {
    PlausiblePrefix(es, i + 1, j, g);
    assert es[i] in es;
    var fs := es[..i + 1];
    assert fs[..|fs| - 1] == es[..i] && fs[|fs| - 1] == es[i];
    StartedAfter(es[..i]);
  }

  lemma StartedAfter(es: seq<Rollover.Event>)
    requires Unwrapped(es) && es != []
    ensures Truly(es).started
  {
    assert es[|es| - 1] in es;
  }

  lemma FirstMax(es: seq<Rollover.Event>)
    requires Unwrapped(es) && es != []
    ensures es[0].Click? && Truly(es[..1]) == Truth(es[0].t, es[0].t, 0, true)
  {
    assert es[0] in es && es[..1][..0] == [];
    assert Truly([]) == Truth(0, 0, 0, false);
  }

  lemma {:induction false} MaxGrows(es: seq<Rollover.Event>, i: nat, k: nat, j: nat, g: nat)
    requires Unwrapped(es) && Plausible(es, j, g) && i < k <= |es|
    ensures es[i].Click? && es[i].t <= Truly(es[..i + 1]).max <= Truly(es[..k]).max
  {
    hide Truly, Plausible;
    assert es[i] in es;
    if k == i + 1 {
      if i == 0 { FirstMax(es); } else { AtClick(es, i, j, g); }
    } else {
      MaxGrows(es, i, k - 1, j, g);
      AtClick(es, k - 1, j, g);
    }
  }

  lemma EpochOrder(a: nat, b: nat)
    requires Epoch(a) < Epoch(b)
    ensures a < b
  {
    Split(a);
    Split(b);
  }

  /** A click is at most j before any earlier one. */
  lemma InOrder(es: seq<Rollover.Event>, i: nat, k: nat, j: nat, g: nat)
    requires Unwrapped(es) && Plausible(es, j, g) && i < k < |es|
    ensures es[i].Click? && es[k].Click? && es[k].t >= es[i].t - j
  {
    hide Truly, Plausible;
    MaxGrows(es, i, k, j, g);
    AtClick(es, k, j, g);
  }

  lemma FirstNotLate(es: seq<Rollover.Event>)
    requires Unwrapped(es) && es != []
    ensures es[0].Click? && !Late(es, 0)
  {
    FirstMax(es);
    hide Epoch, Truly;
  }

  /** Right after a late click one that is not late is published almost a whole period earlier. */
  lemma StepBack(published: seq<Word64>, es: seq<Rollover.Event>, i: nat, j: nat, g: nat)
    requires Carries(published, es) && Unwrapped(es) && Plausible(es, j, g) && j + g < QUARTER
    requires i + 1 < |es| && es[i].Click? && es[i + 1].Click? && Late(es, i) && !Late(es, i + 1)
    ensures |published| == |es| && Decoded(published)[i + 1].t <= Decoded(published)[i].t - PERIOD + j + g
  {
    PublishedAt(published, es, i, j, g);
    PublishedAt(published, es, i + 1, j, g);
    FirstNotLate(es);
    AtClick(es, i, j, g);
    AtClick(es, i + 1, j, g);
    EpochOrder(es[i].t, Truly(es[..i + 1]).max);
    hide Truly, Plausible, Epoch, Decoded, Carries, Late;
  }

  lemma {:induction false} TurnsBack(es: seq<Rollover.Event>, i: nat, k: nat) returns (m: nat)
    requires Unwrapped(es) && i < k < |es| && es[i].Click? && es[k].Click? && Late(es, i) && !Late(es, k)
    ensures m + 1 < |es| && es[m].Click? && es[m + 1].Click? && Late(es, m) && !Late(es, m + 1)
  {
    hide Late;
    assert es[k - 1] in es;
    if Late(es, k - 1) {
      m := k - 1;
    } else {
      m := TurnsBack(es, i, k - 1);
    }
  }

  /** The disorder of the published clicks is within d, if that of the true times is, if and only if no late
      click is followed by one that is not late. */
  lemma PublishedTolerant(published: seq<Word64>, es: seq<Rollover.Event>, j: nat, g: nat, d: nat)
    requires Carries(published, es) && Unwrapped(es) && Plausible(es, j, g) && j + g < QUARTER
    requires j <= d < 0x8000_0000
    ensures ClusterRuns.Tolerant(Decoded(published), d) <==> LateLast(es)
  {
    hide Truly, Plausible, Epoch, Decoded, Carries, Late;
    var ps := Decoded(published);
    if es == [] {
      NoWords(published);
    } else {
      PublishedAt(published, es, 0, j, g);
      SameLength(published);
      if LateLast(es) {
        forall i, k | 0 <= i < k < |ps| ensures ps[k].t >= ps[i].t - d {
          PublishedAt(published, es, i, j, g);
          PublishedAt(published, es, k, j, g);
          InOrder(es, i, k, j, g);
        }
      } else {
        var i, k :| 0 <= i < k < |es| && Late(es, i) && !Late(es, k);
        var m := TurnsBack(es, i, k);
        StepBack(published, es, m, j, g);
      }
    }
  }

  lemma NoWords(published: seq<Word64>)
    requires Carries(published, [])
    ensures Decoded(published) == []
  {
    assert |TimesOf(published)| == |published|;
    assert Observed([]) == [];
  }

  lemma SameLength(published: seq<Word64>)
    ensures |Decoded(published)| == |published|
  {
  }

  /** End to end: for true times that are out of order by at most max_t_separation, and no late click that is
      followed by one that is not, no click arriving once the sweep has emitted a cluster lies in its box. */
  lemma EndToEnd(published: seq<Word64>, es: seq<Rollover.Event>, j: nat, g: nat,
                 events: seq<ClusterRuns.Event>, s: Settings, k: nat, i: nat)
    requires Carries(published, es) && Unwrapped(es) && Plausible(es, j, g) && j + g < QUARTER && LateLast(es)
    requires Sane(s) && j <= s.maxTSep && ClusterRuns.Arrivals(events) == Decoded(published)
    requires k < |ClusterRuns.Run(events, s).out| && !ClusterRuns.Run(events, s).out[k].flushed
    requires ClusterRuns.Run(events, s).out[k].at <= i < |published|
    ensures !ClusterRuns.Run(events, s).out[k].t.c.Contains(Decoded(published)[i])
  {
    PublishedTolerant(published, es, j, g, s.maxTSep);
    DecodedReadable(published);
    hide ClusterRuns.Run, Plausible, Carries, LateLast, Cluster.Contains, ClusterRuns.Tolerant;
    ClusterRuns.ToleranceSound(events, s, k, i);
  }

  lemma DecodedReadable(published: seq<Word64>)
    ensures ClusterRuns.Readable(Decoded(published)) && |Decoded(published)| == |published|
  {
    hide Decode, InRange;
    forall p | p in Decoded(published) ensures InRange(p) {
      var i :| 0 <= i < |published| && Decode(published[i]) == p;
      DecodePack(published[i]);
    }
  }

  // ----- what a late click does -----

  lemma {:induction false} SweepAllButLast(ts: seq<Tracked>, u: Tracked, t: nat, s: Settings)
    requires !u.c.Expired(t, s) && forall v | v in ts :: v.c.Expired(t, s)
    ensures Sweep(ts + [u], t, |ts|, s).0 == [u]
  {
    hide Cluster.Expired;
    if ts == [] {
      assert [] + [u] == [u];
    } else {
      var n := |ts| - 1;
      assert (ts + [u])[n] == ts[n] && ts[n] in ts;
      assert Remove(ts + [u], n) == ts[..n] + [u];
      SweepAllButLast(ts[..n], u, t, s);
    }
  }

  /** A click that is later than every box allows pushes out every open cluster and stays alone. */
  lemma FarClick(st: ClusterRuns.State, p: Clusters.Click, s: Settings)
    requires Sane(s) && InRange(p)
    requires forall v | v in st.open :: v.c.Expired(p.t, s) && !v.c.Contains(p)
    ensures ClusterRuns.HandleClick(st, p, s).open == [NewTracked(Hit(|st.clicks|, p), s)]
  {
    var h := Hit(|st.clicks|, p);
    var u := NewTracked(h, s);
    assert !u.c.Expired(p.t, s);
    hide Cluster.Expired, Cluster.Contains, NewTracked;
    ClusterRuns.ScanNone(st.open, h, 0, s);
    SweepAllButLast(st.open, u, p.t, s);
    var placed := st.open + [u];
    assert Sweep(placed, p.t, |placed|, s) == Sweep(placed, p.t, |st.open|, s);
  }

  /** The first late click, published one period too high, ends every open cluster: only its own is left. */
  lemma LateClickSweeps(published: seq<Word64>, es: seq<Rollover.Event>, i: nat, j: nat, g: nat,
                        events: seq<ClusterRuns.Event>, s: Settings)
    requires Carries(published, es) && Unwrapped(es) && Plausible(es, j, g) && j + g < QUARTER && i < |es|
    requires Sane(s) && |published| == |es| && ClusterRuns.Arrivals(events) == Decoded(published)[..i]
    requires es[i].Click? && Late(es, i) && forall k | 0 <= k < i :: es[k].Click? && !Late(es, k)
    ensures ClusterRuns.HandleClick(ClusterRuns.Run(events, s), Decoded(published)[i], s).open
      == [NewTracked(Hit(i, Decoded(published)[i]), s)]
  {
    hide Truly, Plausible, Epoch, Carries, Late, ClusterRuns.Run, Decode, ClusterRuns.Arrivals, Exact;
    var st, p := ClusterRuns.Run(events, s), Decoded(published)[i];
    ClusterRuns.RunClicks(events, s);
    ClusterRuns.OpenFacts(events, s);
    DecodedReadable(published);
    FirstNotLate(es);
    PublishedAt(published, es, i, j, g);
    AtClick(es, i, j, g);
    assert p in Decoded(published);
    forall v | v in st.open ensures v.c.Expired(p.t, s) && !v.c.Contains(p) {
      var k :| 0 <= k < |st.open| && st.open[k] == v;
      var h := LastHit(v, s);
      PublishedAt(published, es, h.id, j, g);
      MaxGrows(es, h.id, i, j, g);
      assert ClusterRuns.Readable(st.clicks) by {
        forall q | q in st.clicks ensures InRange(q) { assert q in Decoded(published); }
      }
      ClusterRuns.ExpiredExact(v, st.clicks, p.t, s);
    }
    FarClick(st, p, s);
  }

  lemma LastHit(t: Tracked, s: Settings) returns (h: Hit)
    requires Exact(t, s)
    ensures h in t.hits && h.click.t == t.c.t.hi - s.tSep
  {
    assert ExactAlong(AxisT, t, s);
    h :| h in t.hits && Coord(AxisT, h.click) == t.c.t.hi - s.tSep;
  }

  /** Around the first wrap, one tick out of order. */
  function AroundWrap(): seq<Rollover.Event> {
    [Event.Click(3 * QUARTER - 1), Event.Click(PERIOD - 4), Event.Click(PERIOD), Event.Click(PERIOD - 1), Event.Click(PERIOD)]
  }

  /** Late clicks occur in plausible streams, and can be followed by others. */
  lemma LateClickOccurs()
    ensures var es := AroundWrap();
      Plausible(es, 2, QUARTER - 3) && Unwrapped(es) && Late(es, 3) && !Late(es, 4) && !LateLast(es)
  {
    var es := AroundWrap();
    hide Epoch, Plausible, Truly, Late;
    AroundWrapMax();
    LateAt3(es);
  }

  lemma AroundWrapMax()
    ensures var es := AroundWrap();
      Plausible(es, 2, QUARTER - 3) && Truly(es[..4]).max == PERIOD && Truly(es).max == PERIOD && es[..5] == es
  {
    hide Epoch;
    var es := AroundWrap();
    assert es[..4][..3] == es[..3] && es[..3][..2] == es[..2] && es[..2][..1] == es[..1] && es[..1][..0] == [];
    assert es[..4] == es[..|es| - 1] && es[..5] == es;
    assert Truly([]) == Truth(0, 0, 0, false);
    assert Truly(es[..1]) == Truth(3 * QUARTER - 1, 3 * QUARTER - 1, 0, true) && Plausible(es[..1], 2, QUARTER - 3);
    assert Truly(es[..2]) == Truth(PERIOD - 4, PERIOD - 4, 0, true) && Plausible(es[..2], 2, QUARTER - 3);
    assert Truly(es[..3]) == Truth(PERIOD, PERIOD, 0, true) && Plausible(es[..3], 2, QUARTER - 3);
    assert Truly(es[..4]) == Truth(PERIOD, PERIOD - 1, 0, true) && Plausible(es[..4], 2, QUARTER - 3);
  }

  lemma LateAt3(es: seq<Rollover.Event>)
    requires es == AroundWrap() && Truly(es[..4]).max == PERIOD && Truly(es).max == PERIOD && es[..5] == es
    ensures Late(es, 3) && !Late(es, 4)
  {
    hide Truly;
    FirstPeriod(PERIOD - 1);
    FirstPeriod(PERIOD);
  }
}
