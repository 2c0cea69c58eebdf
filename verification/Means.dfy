/** Where the means of clusters are lost: 0.0 / 0.0 in addClick, passed on by addCluster. */
module Means {
  import opened Words
  import opened Clusters
  import opened Scans
  import opened ScanCounts

  /** The clusters that the scan adds the click to, as they were before. */
  function Joined(ts: seq<Tracked>, h: Hit, cix: nat, last: Option<nat>, s: Settings): seq<Tracked>
    requires cix <= |ts| && (last.Some? ==> last.value < cix)
    decreases |ts| - cix
  {
    if cix == |ts| then []
    else if !ts[cix].c.Contains(h.click) then Joined(ts, h, cix + 1, last, s)
    else if last.None? then [ts[cix]] + Joined(ts[cix := ts[cix].Add(h, s)], h, cix + 1, Some(cix), s)
    else
      var us := Absorb(ts, last.value, cix, h, s);
      [ts[cix]] + if cix == |us| then [] else Joined(us, h, cix + 1, last, s)
  }

  /** A click of ToT 0 was added to a cluster of total ToT 0. */
  ghost predicate Weightless(js: seq<Tracked>, h: Hit) {
    h.click.tot == 0 && exists t :: t in js && t.c.total == 0.0
  }

  lemma WeightlessMore(t: Tracked, js: seq<Tracked>, h: Hit)
    ensures Weightless([t] + js, h) <==> (h.click.tot == 0 && t.c.total == 0.0) || Weightless(js, h)
  {
    assert forall u | u in js :: u in [t] + js;
    assert t in [t] + js;
  }

  // ----- what Joined is -----

  lemma AbsorbTail(ts: seq<Tracked>, h: Hit, cix: nat, l: nat, s: Settings)
    requires l < cix < |ts|
    ensures var us := Absorb(ts, l, cix, h, s);
      && us[l] == ts[l].Merge(ts[cix].Add(h, s))
      && (cix < |us| ==> forall t | t in us[cix + 1..] :: t in ts[cix..])
  {
    hide Tracked.Add, Tracked.Merge;
    var us := Absorb(ts, l, cix, h, s);
    if cix < |us| {
      forall t | t in us[cix + 1..] ensures t in ts[cix..] {
        var i :| cix + 1 <= i < |us| && us[i] == t;
        assert ts[cix..][i - cix] == t;
      }
    }
  }

  lemma {:induction false} JoinedMembers(ts: seq<Tracked>, h: Hit, cix: nat, l: nat, s: Settings)
    requires l < cix <= |ts|
    ensures forall t | t in Joined(ts, h, cix, Some(l), s) :: t in ts[cix..]
    decreases |ts| - cix
  {
    hide Absorb, Cluster.Contains;
    if cix == |ts| {
    } else if !ts[cix].c.Contains(h.click) {
      JoinedMembers(ts, h, cix + 1, l, s);
      assert ts[cix..] == [ts[cix]] + ts[cix + 1..];
    } else {
      var us := Absorb(ts, l, cix, h, s);
      AbsorbTail(ts, h, cix, l, s);
      ScanMatchStep(ts, h, cix, l, s);
      assert ts[cix] in ts[cix..];
      if cix < |us| { JoinedMembers(us, h, cix + 1, l, s); }
    }
  }

  lemma {:induction false} JoinedLater(ts: seq<Tracked>, h: Hit, cix: nat, l: nat, s: Settings)
    requires l < cix <= |ts| && h.id in ts[l].Ids()
    ensures Scan(ts, h, cix, Some(l), s).0[l].Ids() == ts[l].Ids() + AllIds(Joined(ts, h, cix, Some(l), s))
    decreases |ts| - cix
  {
    hide Tracked.Ids, AllIds, Tracked.Add, Tracked.Merge, Cluster.Contains, Absorb;
    NoIds();
    if cix == |ts| {
    } else if !ts[cix].c.Contains(h.click) {
      JoinedLater(ts, h, cix + 1, l, s);
    } else {
      ScanMatchStep(ts, h, cix, l, s);
      AbsorbTail(ts, h, cix, l, s);
      MergedIds(ts[l], ts[cix], h, s);
      SingleIds(ts[cix]);
      var us := Absorb(ts, l, cix, h, s);
      ConcatIds([ts[cix]], if cix == |us| then [] else Joined(us, h, cix + 1, Some(l), s));
      if cix < |us| { JoinedLater(us, h, cix + 1, l, s); }
    }
  }

  lemma {:induction false} JoinedStart(ts: seq<Tracked>, h: Hit, cix: nat, s: Settings)
    requires cix <= |ts|
    ensures var r, js := Scan(ts, h, cix, None, s), Joined(ts, h, cix, None, s);
      && (r.1.None? ==> r.0 == ts && js == [])
      && (r.1.Some? ==> r.0[r.1.value].Ids() == AllIds(js) + {h.id})
      && forall t | t in js :: t in ts
    decreases |ts| - cix
  {
    hide Tracked.Ids, AllIds, Tracked.Add, Cluster.Contains;
    if cix < |ts| {
      if !ts[cix].c.Contains(h.click) {
        JoinedStart(ts, h, cix + 1, s);
      } else {
        var us := ts[cix := ts[cix].Add(h, s)];
        AddMergeIds(ts[cix], ts[cix], h, s);
        JoinedLater(us, h, cix + 1, cix, s);
        JoinedMembers(us, h, cix + 1, cix, s);
        assert us[cix + 1..] == ts[cix + 1..];
        SingleIds(ts[cix]);
        ConcatIds([ts[cix]], Joined(us, h, cix + 1, Some(cix), s));
      }
    }
  }

  /** The joined clusters are exactly those whose clicks end up in the cluster that took the click. */
  lemma JoinedExact(ts: seq<Tracked>, h: Hit, s: Settings, i: nat)
    requires Disjoint(ts) && h.id !in AllIds(ts) && i < |ts| && ts[i].Ids() != {}
    ensures var r := Scan(ts, h, 0, None, s);
      ts[i] in Joined(ts, h, 0, None, s) <==> r.1.Some? && ts[i].Ids() <= r.0[r.1.value].Ids()
  {
    JoinedStart(ts, h, 0, s);
    var r, js := Scan(ts, h, 0, None, s), Joined(ts, h, 0, None, s);
    hide Tracked.Ids, Scan, Joined;
    InAllIds(ts, i);
    if ts[i] in js {
      var k :| 0 <= k < |js| && js[k] == ts[i];
      InAllIds(js, k);
    }
    if r.1.Some? && ts[i].Ids() <= r.0[r.1.value].Ids() {
      var n :| n in ts[i].Ids();
      assert n in AllIds(js);
      var k :| 0 <= k < |js| && n in js[k].Ids();
      assert js[k] in js;
      var m :| 0 <= m < |ts| && ts[m] == js[k];
      assert m != i ==> ts[m].Ids() !! ts[i].Ids();
    }
  }

  // ----- means through the scan -----

  /** A cluster that has just taken a click: if its means are numbers, its total is not zero. */
  ghost predicate Live(t: Tracked) {
    t.c.total >= 0.0 && forall a: Axis :: t.c.Along(a).mean.Num? ==> t.c.total > 0.0
  }

  lemma AddMean(t: Tracked, h: Hit, s: Settings, a: Axis)
    requires t.c.total >= 0.0
    ensures var g := t.Add(h, s);
      && (g.c.Along(a).mean.NaN? <==> t.c.Along(a).mean.NaN? || (h.click.tot == 0 && t.c.total == 0.0))
      && g.c.total == t.c.total + h.click.tot as real >= 0.0
      && (g.c.Along(a).mean.Num? ==> g.c.total > 0.0)
  {
    assert t.Add(h, s).c.Along(a).mean
      == WeightedMean(t.c.Along(a).mean, t.c.total, Num(Coord(a, h.click) as real), h.click.tot as real);
  }

  /** Two numbers merged inside the scan never give 0.0 / 0.0: a merge loses a mean only if one of the two,
      which both just took the click, had lost it already. */
  lemma MergeKeepsMean(t: Tracked, o: Tracked, a: Axis)
    requires Live(t) && Live(o)
    ensures t.Merge(o).c.Along(a).mean.NaN? <==> t.c.Along(a).mean.NaN? || o.c.Along(a).mean.NaN?
    ensures Live(t.Merge(o))
  {
    forall b: Axis ensures t.Merge(o).c.Along(b).mean
      == WeightedMean(t.c.Along(b).mean, t.c.total, o.c.Along(b).mean, o.c.total) {
    }
  }

  lemma AddLive(t: Tracked, h: Hit, s: Settings)
    requires t.c.total >= 0.0
    ensures Live(t.Add(h, s))
  {
    hide Tracked.Add, Cluster.Along;
    AddMean(t, h, s, AxisX);
    forall a: Axis ensures t.Add(h, s).c.Along(a).mean.Num? ==> t.Add(h, s).c.total > 0.0 {
      AddMean(t, h, s, a);
    }
  }

  /** The means of t are lost if and only if it holds an id of b, or lost is set. */
  ghost predicate Marked(t: Tracked, b: set<nat>, lost: bool) {
    forall a: Axis :: t.c.Along(a).mean.NaN? <==> t.Ids() * b != {} || lost
  }

  lemma AddMarked(t: Tracked, h: Hit, s: Settings, b: set<nat>, lost: bool)
    requires t.c.total >= 0.0 && Marked(t, b, lost) && h.id !in b
    ensures Marked(t.Add(h, s), b, lost || (h.click.tot == 0 && t.c.total == 0.0))
  {
    AddMergeIds(t, t, h, s);
    hide Tracked.Add, Tracked.Ids, Cluster.Along;
    forall a: Axis
      ensures t.Add(h, s).c.Along(a).mean.NaN?
        <==> t.Add(h, s).Ids() * b != {} || lost || (h.click.tot == 0 && t.c.total == 0.0)
    {
      AddMean(t, h, s, a);
      assert (t.Ids() + {h.id}) * b == t.Ids() * b;
    }
  }

  lemma MergeMarked(t: Tracked, o: Tracked, h: Hit, s: Settings, b: set<nat>, p: bool, q: bool)
    requires Live(t) && Live(o) && Marked(t, b, p) && Marked(o, b, q)
    ensures Marked(t.Merge(o), b, p || q)
  {
    AddMergeIds(t, o, h, s);
    hide Tracked.Merge, Tracked.Ids, Cluster.Along, Live;
    forall a: Axis ensures t.Merge(o).c.Along(a).mean.NaN? <==> t.Merge(o).Ids() * b != {} || p || q {
      MergeKeepsMean(t, o, a);
      assert (t.Ids() + o.Ids()) * b == t.Ids() * b + o.Ids() * b;
    }
  }

  ghost predicate AllMarked(ts: seq<Tracked>, b: set<nat>, l: nat) {
    forall j | 0 <= j < |ts| && j != l :: Marked(ts[j], b, false) && ts[j].c.total >= 0.0
  }

  lemma AbsorbMarked(ts: seq<Tracked>, h: Hit, cix: nat, l: nat, s: Settings, b: set<nat>, lost: bool)
    requires l < cix < |ts| && h.id !in b && AllMarked(ts, b, l) && Live(ts[l]) && Marked(ts[l], b, lost)
    ensures var us := Absorb(ts, l, cix, h, s);
      && l < |us| && AllMarked(us, b, l) && Live(us[l])
      && Marked(us[l], b, lost || (h.click.tot == 0 && ts[cix].c.total == 0.0))
  {
    hide Marked, Live, Tracked.Add, Tracked.Merge;
    AddMarked(ts[cix], h, s, b, false);
    AddLive(ts[cix], h, s);
    MergeMarked(ts[l], ts[cix].Add(h, s), h, s, b, lost, h.click.tot == 0 && ts[cix].c.total == 0.0);
    MergeKeepsMean(ts[l], ts[cix].Add(h, s), AxisX);
  }

  lemma {:induction false} ScanMarked(ts: seq<Tracked>, h: Hit, cix: nat, l: nat, s: Settings, b: set<nat>, lost: bool)
    requires l < cix <= |ts| && h.id !in b && AllMarked(ts, b, l) && Live(ts[l]) && Marked(ts[l], b, lost)
    ensures var r, js := Scan(ts, h, cix, Some(l), s).0, Joined(ts, h, cix, Some(l), s);
      AllMarked(r, b, l) && Marked(r[l], b, lost || Weightless(js, h))
    decreases |ts| - cix
  {
    hide Marked, Live, AllMarked, Weightless, Absorb, Cluster.Contains;
    if cix == |ts| {
      WeightlessNone(h);
    } else if !ts[cix].c.Contains(h.click) {
      ScanMarked(ts, h, cix + 1, l, s, b, lost);
    } else {
      ScanMatchStep(ts, h, cix, l, s);
      AbsorbMarked(ts, h, cix, l, s, b, lost);
      var us := Absorb(ts, l, cix, h, s);
      var weightless := h.click.tot == 0 && ts[cix].c.total == 0.0;
      WeightlessMore(ts[cix], if cix == |us| then [] else Joined(us, h, cix + 1, Some(l), s), h);
      WeightlessNone(h);
      if cix < |us| { ScanMarked(us, h, cix + 1, l, s, b, lost || weightless); }
    }
  }

  lemma WeightlessNone(h: Hit)
    ensures !Weightless([], h)
  {
  }

  lemma {:induction false} ScanMarkedStart(ts: seq<Tracked>, h: Hit, cix: nat, s: Settings, b: set<nat>)
    requires cix <= |ts| && h.id !in b && AllMarked(ts, b, |ts|)
    ensures var r, js := Scan(ts, h, cix, None, s), Joined(ts, h, cix, None, s);
      && (r.1.None? ==> r.0 == ts && js == [])
      && (r.1.Some? ==> AllMarked(r.0, b, r.1.value) && Marked(r.0[r.1.value], b, Weightless(js, h)))
    decreases |ts| - cix
  {
    hide Marked, Live, Weightless, Cluster.Contains, Tracked.Add;
    if cix < |ts| {
      if !ts[cix].c.Contains(h.click) {
        ScanMarkedStart(ts, h, cix + 1, s, b);
      } else {
        var us := ts[cix := ts[cix].Add(h, s)];
        var weightless := h.click.tot == 0 && ts[cix].c.total == 0.0;
        AddMarked(ts[cix], h, s, b, false);
        AddLive(ts[cix], h, s);
        WeightlessMore(ts[cix], Joined(us, h, cix + 1, Some(cix), s), h);
        ScanMarked(us, h, cix + 1, cix, s, b, weightless);
      }
    }
  }

  /** After the scan and the creation of a cluster, with the click itself marked if it joined weightlessly. */
  lemma PlacedMarked(ts: seq<Tracked>, h: Hit, s: Settings, b: set<nat>)
    requires h.id !in b && AllMarked(ts, b, |ts|) && Disjoint(ts) && h.id !in AllIds(ts)
    ensures var c := b + if Weightless(Joined(ts, h, 0, None, s), h) then {h.id} else {};
      forall u | u in Placed(ts, h, s) :: Marked(u, c, false)
  {
    ScanMarkedStart(ts, h, 0, s, b);
    JoinedStart(ts, h, 0, s);
    PlacedIds(ts, h, s);
    NewIds(h, s);
    var r, js := Scan(ts, h, 0, None, s), Joined(ts, h, 0, None, s);
    var us, weightless := Placed(ts, h, s), Weightless(js, h);
    var c, f := b + (if weightless then {h.id} else {}), if r.1.Some? then r.1.value else |ts|;
    WeightlessNone(h);
    assert h.id in us[f].Ids();
    assert Marked(us[f], b, weightless) by {
      if r.1.None? { NewMarked(h, s, b); }
    }
    hide Tracked.Ids, Marked, Scan, Joined, Weightless, Placed, NewTracked;
    forall u | u in us ensures Marked(u, c, false) {
      var j :| 0 <= j < |us| && us[j] == u;
      if j == f {
        MarkHolder(u, h.id, b, weightless);
      } else {
        assert us[j].Ids() !! us[f].Ids();
        MarkOther(u, h.id, b, weightless);
      }
    }
  }

  lemma NewMarked(h: Hit, s: Settings, b: set<nat>)
    requires h.id !in b
    ensures Marked(NewTracked(h, s), b, false)
  {
    NewIds(h, s);
  }

  lemma MarkHolder(t: Tracked, n: nat, b: set<nat>, weightless: bool)
    requires Marked(t, b, weightless) && n in t.Ids()
    ensures Marked(t, b + (if weightless then {n} else {}), false)
  {
    hide Tracked.Ids;
    var c := b + (if weightless then {n} else {});
    assert weightless ==> n in t.Ids() * c;
    assert !weightless ==> c == b;
  }

  lemma MarkOther(t: Tracked, n: nat, b: set<nat>, weightless: bool)
    requires Marked(t, b, false) && n !in t.Ids()
    ensures Marked(t, b + (if weightless then {n} else {}), false)
  {
    hide Tracked.Ids;
    assert t.Ids() * (b + (if weightless then {n} else {})) == t.Ids() * b;
  }
}
