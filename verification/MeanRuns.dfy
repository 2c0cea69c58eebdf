/** Over whole runs: which held clusters have lost their means. */
module MeanRuns {
  import opened Words
  import opened Clusters
  import opened Scans
  import opened ScanCounts
  import opened ClusterRuns
  import opened Means
  import opened Packets

  /** The arriving click has ToT 0 and is added to a cluster of total ToT 0. */
  ghost predicate WeightlessArrival(st: State, p: Click, s: Settings) {
    var h := Hit(|st.clicks|, p);
    Weightless(Joined(st.open, h, 0, None, s), h)
  }

  /** The positions of all such clicks of a run. */
  ghost function WeightlessIds(es: seq<Event>, s: Settings): set<nat> {
    if es == [] then {}
    else
      var fs, e := es[..|es| - 1], es[|es| - 1];
      var st := Run(fs, s);
      WeightlessIds(fs, s) + if e.Arrive? && WeightlessArrival(st, e.p, s) then {|st.clicks|} else {}
  }

  ghost predicate HeldMarked(st: State, b: set<nat>) {
    && (forall t | t in Held(st) :: Marked(t, b, false))
    && (forall i | i in b :: i < |st.clicks|)
  }

  lemma SweepMembers(ts: seq<Tracked>, t: nat, s: Settings)
    ensures var r := Sweep(ts, t, |ts|, s);
      (forall u | u in r.0 :: u in ts) && forall u | u in r.1 :: u in ts
  {
    SweepExact(ts, t, s);
    var r := Sweep(ts, t, |ts|, s);
    hide Sweep, Expiring, Cluster.Expired;
    forall u | u in r.0 || u in r.1 ensures u in ts {
      assert u in multiset(r.0) + multiset(r.1);
    }
  }

  lemma OpenMarked(st: State, b: set<nat>, s: Settings)
    requires Inv(st, s) && HeldMarked(st, b)
    ensures AllMarked(st.open, b, |st.open|) && Disjoint(st.open) && |st.clicks| !in AllIds(st.open)
  {
    hide Marked, Exact, Tracked.Ids, EmittedInTime, OpenInTime, AllIds, Disjoint;
    ConcatIds(st.open, Unwrap(st.out));
    forall j | 0 <= j < |st.open| ensures Marked(st.open[j], b, false) && st.open[j].c.total >= 0.0 {
      assert Held(st)[j] == st.open[j];
      ExactTotal(st.open[j], s);
    }
  }

  lemma ExactTotal(t: Tracked, s: Settings)
    requires Exact(t, s)
    ensures t.c.total >= 0.0
  {
    TotSumBounds(t.hits);
  }

  lemma ArriveMarked(st: State, p: Click, s: Settings, b: set<nat>)
    requires Inv(st, s) && HeldMarked(st, b)
    ensures HeldMarked(HandleClick(st, p, s), b + if WeightlessArrival(st, p, s) then {|st.clicks|} else {})
  {
    var n, lost := |st.clicks|, WeightlessArrival(st, p, s);
    var h, c := Hit(n, p), b + if lost then {n} else {};
    var placed := Placed(st.open, h, s);
    OpenMarked(st, b, s);
    PlacedMarked(st.open, h, s, b);
    SweepMembers(placed, p.t, s);
    var fin := HandleClick(st, p, s);
    UnwrapWrap(st.out, Sweep(placed, p.t, |placed|, s).1, n, false);
    forall t | t in Held(fin) ensures Marked(t, c, false) {
      if t !in placed {
        assert t in Unwrap(st.out) && t in Held(st);
        OldIds(st, t, s);
        MarkOther(t, n, b, lost);
      }
    }
  }

  lemma OldIds(st: State, t: Tracked, s: Settings)
    requires Inv(st, s) && t in Held(st)
    ensures |st.clicks| !in t.Ids()
  {
    hide Tracked.Ids, Faithful, EmittedInTime, OpenInTime, Disjoint;
    var k :| 0 <= k < |Held(st)| && Held(st)[k] == t;
    InAllIds(Held(st), k);
  }

  lemma {:induction false} RunMarked(es: seq<Event>, s: Settings)
    ensures HeldMarked(Run(es, s), WeightlessIds(es, s))
  {
    hide Marked, Inv, WeightlessArrival, HandleClick;
    if es != [] {
      var fs, e := es[..|es| - 1], es[|es| - 1];
      var st := Run(fs, s);
      RunMarked(fs, s);
      RunInv(fs, s);
      assert Run(es, s) == Step(st, e, s);
      if e.Arrive? {
        ArriveMarked(st, e.p, s, WeightlessIds(fs, s));
      } else {
        FlushHeld(st);
        assert WeightlessIds(es, s) == WeightlessIds(fs, s);
      }
    }
  }

  lemma FlushHeld(st: State)
    ensures forall t | t in Held(FlushAll(st)) :: t in Held(st)
  {
    UnwrapWrap(st.out, st.open, |st.clicks|, true);
  }

  /** Over every run, for every open or emitted cluster and every axis: the mean is lost if and only if the
      cluster holds a click of ToT 0 that was added to a cluster of total ToT 0. */
  lemma RunMeanLost(es: seq<Event>, s: Settings, k: nat, a: Axis)
    requires k < |Held(Run(es, s))|
    ensures var t := Held(Run(es, s))[k];
      t.c.Along(a).mean.NaN? <==> exists i :: i in t.Ids() && i in WeightlessIds(es, s)
  {
    RunMarked(es, s);
    MarkedMean(Held(Run(es, s))[k], WeightlessIds(es, s), a);
  }

  lemma MarkedMean(t: Tracked, b: set<nat>, a: Axis)
    requires Marked(t, b, false)
    ensures t.c.Along(a).mean.NaN? <==> exists i :: i in t.Ids() && i in b
  {
    hide Tracked.Ids;
    assert t.c.Along(a).mean.NaN? <==> t.Ids() * b != {};
    if i :| i in t.Ids() && i in b {
      assert i in t.Ids() * b;
    }
    if t.Ids() * b != {} {
      var i :| i in t.Ids() * b;
      assert i in t.Ids() && i in b;
    }
  }

  /** A click of ToT 0 next to one of ToT w, and a third of ToT 0 in both boxes: the first cluster, which held
      only weight, has a number as mean before, and none after the other one was merged into it. */
  lemma LostByMerge(s: Settings, w: nat)
    requires Sane(s) && 1 <= s.xySep < 255 && 1 <= w < 0x400
    ensures var a, b, c := Click(0, 0, 0, w), Click(s.xySep + 1, 0, 0, 0), Click(1, 0, 0, 0);
      var es := [Arrive(a), Arrive(b), Arrive(c)];
      var before, after := Run(es[..2], s).open, Run(es, s).open;
      && |before| == 2 && before[0].hits == [Hit(0, a)] && before[0].c.x.mean == Num(0.0)
      && |after| == 1 && after[0].hits == [Hit(0, a), Hit(2, c), Hit(1, b), Hit(2, c)]
      && after[0].c.total == w as real && after[0].c.x.mean.NaN?
  {
    var a, b, c := Click(0, 0, 0, w), Click(s.xySep + 1, 0, 0, 0), Click(1, 0, 0, 0);
    var es := [Arrive(a), Arrive(b), Arrive(c)];
    var ta, tb := NewTracked(Hit(0, a), s), NewTracked(Hit(1, b), s);
    var st := State([a, b], [ta, tb], []);
    TwoApart(a, b, s);
    MergedThird(ta, tb, c, s, w);
    hide HandleClick;
    ThreeArrivals(a, b, c, s);
    assert es[..2] == [Arrive(a), Arrive(b)] && es[..2][..1] == [Arrive(a)] && es[..2][..1][..0] == [];
    assert Run(es[..2][..1], s) == HandleClick(State([], [], []), a, s);
    assert Run(es[..2], s) == st;
  }

  lemma TwoApart(a: Click, b: Click, s: Settings)
    requires Sane(s) && InRange(a) && InRange(b) && a.t == 0 && b.t == 0 && b.x > a.x + s.xySep
    ensures HandleClick(HandleClick(State([], [], []), a, s), b, s)
      == State([a, b], [NewTracked(Hit(0, a), s), NewTracked(Hit(1, b), s)], [])
  {
    hide HandleClick, NewTracked, Cluster.Contains, Cluster.Expired;
    var ta, tb := NewTracked(Hit(0, a), s), NewTracked(Hit(1, b), s);
    BoxAtZero(Hit(0, a), b, s);
    ApartClick(State([], [], []), a, s);
    assert [] + [a] == [a] && [] + [ta] == [ta];
    ApartClick(State([a], [ta], []), b, s);
    assert [a] + [b] == [a, b] && [ta] + [tb] == [ta, tb];
  }

  lemma MergedThird(ta: Tracked, tb: Tracked, c: Click, s: Settings, w: nat)
    requires c.t == 0 && c.tot == 0 && ta.c.Contains(c) && tb.c.Contains(c)
    requires ta.c.total == w as real && tb.c.total == 0.0 && w >= 1
    requires |ta.hits| == 1 && |tb.hits| == 1
    ensures var after := HandleClick(State([ta.hits[0].click, tb.hits[0].click], [ta, tb], []), c, s).open;
      |after| == 1 && after[0].hits == ta.hits + [Hit(2, c)] + (tb.hits + [Hit(2, c)])
      && after[0].c.total == w as real && after[0].c.x.mean.NaN?
  {
    var h := Hit(2, c);
    var one := [ta.Add(h, s), tb];
    var u := ta.Add(h, s).Merge(tb.Add(h, s));
    assert [ta, tb][0 := ta.Add(h, s)] == one;
    assert Absorb(one, 0, 1, h, s) == [u];
    assert Scan(one, h, 1, Some(0), s) == ([u], Some(0));
    assert Placed([ta, tb], h, s) == [u];
    SweepNone([u], 0, 1, s);
    AddMean(ta, h, s, AxisX);
    AddMean(tb, h, s, AxisX);
  }
}
