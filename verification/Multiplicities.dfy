/** How often a hit is counted in a list of clusters, and that the scan and the sweep of later clicks
    do not change it. */
module Multiplicities {
  import opened Words
  import opened Clusters
  import opened Scans
  import opened ScanCounts

  /** How often h is counted in all the clusters together. */
  function Copies(ts: seq<Tracked>, h: Hit): nat {
    if ts == [] then 0 else Copies(ts[..|ts| - 1], h) + Times(ts[|ts| - 1], h)
  }

  lemma {:induction false} CopiesConcat(a: seq<Tracked>, b: seq<Tracked>, h: Hit)
    ensures Copies(a + b, h) == Copies(a, h) + Copies(b, h)
  {
    hide Times;
    if b == [] {
      assert a + b == a;
    } else {
      CopiesConcat(a, b[..|b| - 1], h);
      assert (a + b)[..|a + b| - 1] == a + b[..|b| - 1];
    }
  }

  lemma CopiesOne(t: Tracked, h: Hit)
    ensures Copies([t], h) == Times(t, h)
  {
    hide Times;
    assert [t][..0] == [];
    assert Copies([], h) == 0;
  }

  lemma CopiesSplit(a: seq<Tracked>, t: Tracked, b: seq<Tracked>, h: Hit)
    ensures Copies(a + [t] + b, h) == Copies(a, h) + Times(t, h) + Copies(b, h)
  {
    hide Times, Copies;
    CopiesOne(t, h);
    CopiesConcat(a, [t], h);
    CopiesConcat(a + [t], b, h);
  }

  lemma CopiesUpdate(ts: seq<Tracked>, i: nat, t: Tracked, h: Hit)
    requires i < |ts|
    ensures Copies(ts[i := t], h) + Times(ts[i], h) == Copies(ts, h) + Times(t, h)
  {
    hide Times, Copies;
    assert ts == ts[..i] + [ts[i]] + ts[i + 1..];
    assert ts[i := t] == ts[..i] + [t] + ts[i + 1..];
    CopiesSplit(ts[..i], ts[i], ts[i + 1..], h);
    CopiesSplit(ts[..i], t, ts[i + 1..], h);
  }

  lemma CopiesRemove(ts: seq<Tracked>, i: nat, h: Hit)
    requires i < |ts|
    ensures Copies(ts, h) == Copies(Remove(ts, i), h) + Times(ts[i], h)
  {
    hide Times, Copies, Remove;
    var n := |ts| - 1;
    CopiesOne(ts[n], h);
    assert ts == ts[..n] + [ts[n]];
    CopiesConcat(ts[..n], [ts[n]], h);
    if i == n {
      assert Remove(ts, i) == ts[..n];
    } else {
      assert Remove(ts, i) == ts[..n][i := ts[n]];
      CopiesUpdate(ts[..n], i, ts[n], h);
    }
  }

  lemma AddMergeTimes(t: Tracked, o: Tracked, g: Hit, s: Settings, h: Hit)
    ensures Times(t.Add(g, s), h) == Times(t, h) + One(g == h)
    ensures Times(t.Merge(o), h) == Times(t, h) + Times(o, h)
  {
  }

  lemma AbsorbCopies(ts: seq<Tracked>, l: nat, cix: nat, g: Hit, s: Settings, h: Hit)
    requires l < cix < |ts| && g != h
    ensures Copies(Absorb(ts, l, cix, g, s), h) == Copies(ts, h)
  {
    hide Times, Copies, Remove, Tracked.Add, Tracked.Merge;
    var grown := ts[cix].Add(g, s);
    var us := ts[l := ts[l].Merge(grown)];
    AddMergeTimes(ts[cix], ts[cix], g, s, h);
    AddMergeTimes(ts[l], grown, g, s, h);
    CopiesUpdate(ts, l, ts[l].Merge(grown), h);
    CopiesRemove(us, cix, h);
  }

  lemma {:induction false} ScanCopies(ts: seq<Tracked>, g: Hit, cix: nat, last: Option<nat>, s: Settings, h: Hit)
    requires cix <= |ts| && (last.Some? ==> last.value < cix) && g != h
    ensures Copies(Scan(ts, g, cix, last, s).0, h) == Copies(ts, h)
    decreases |ts| - cix
  {
    hide Times, Copies, Absorb, Cluster.Contains, Tracked.Add;
    if cix == |ts| {
    } else if !ts[cix].c.Contains(g.click) {
      ScanCopies(ts, g, cix + 1, last, s, h);
    } else if last.None? {
      AddMergeTimes(ts[cix], ts[cix], g, s, h);
      CopiesUpdate(ts, cix, ts[cix].Add(g, s), h);
      ScanCopies(ts[cix := ts[cix].Add(g, s)], g, cix + 1, Some(cix), s, h);
    } else {
      ScanMatchStep(ts, g, cix, last.value, s);
      AbsorbCopies(ts, last.value, cix, g, s, h);
      var us := Absorb(ts, last.value, cix, g, s);
      if cix < |us| { ScanCopies(us, g, cix + 1, last, s, h); }
    }
  }

  lemma PlacedCopies(ts: seq<Tracked>, g: Hit, s: Settings, h: Hit)
    requires g != h
    ensures Copies(Placed(ts, g, s), h) == Copies(ts, h)
  {
    hide Copies, Scan;
    ScanCopies(ts, g, 0, None, s, h);
    var r := Scan(ts, g, 0, None, s);
    CopiesOne(NewTracked(g, s), h);
    CopiesConcat(r.0, [NewTracked(g, s)], h);
  }

  lemma {:induction false} SweepCopies(ts: seq<Tracked>, t: nat, k: nat, s: Settings, h: Hit)
    requires k <= |ts|
    ensures Copies(Sweep(ts, t, k, s).0, h) + Copies(Sweep(ts, t, k, s).1, h) == Copies(ts, h)
    decreases k
  {
    hide Times, Copies, Remove, Cluster.Expired;
    if k == 0 {
      NoCopies(h);
    } else if ts[k - 1].c.Expired(t, s) {
      var us := Remove(ts, k - 1);
      CopiesRemove(ts, k - 1, h);
      SweepCopies(us, t, k - 1, s, h);
      CopiesOne(ts[k - 1], h);
      CopiesConcat([ts[k - 1]], Sweep(us, t, k - 1, s).1, h);
    } else {
      SweepCopies(ts, t, k - 1, s, h);
    }
  }

  lemma NoCopies(h: Hit)
    ensures Copies([], h) == 0
  {
  }

  /** With disjoint clusters the one that holds the id holds all copies. */
  lemma {:induction false} SoleHolder(ts: seq<Tracked>, k: nat, h: Hit)
    requires k < |ts| && Disjoint(ts) && h.id in ts[k].Ids()
    ensures Copies(ts, h) == Times(ts[k], h)
  {
    hide Tracked.Ids, Times;
    var n := |ts| - 1;
    assert Disjoint(ts[..n]);
    if k == n {
      forall j | 0 <= j < n ensures h.id !in ts[..n][j].Ids() { assert ts[j].Ids() !! ts[n].Ids(); }
      NotHeld(ts[..n], h);
    } else {
      SoleHolder(ts[..n], k, h);
      assert ts[k].Ids() !! ts[n].Ids();
      NotCounted(ts[n], h);
    }
  }

  lemma NotCounted(t: Tracked, h: Hit)
    requires h.id !in t.Ids()
    ensures Times(t, h) == 0
  {
  }

  lemma {:induction false} NotHeld(ts: seq<Tracked>, h: Hit)
    requires forall j | 0 <= j < |ts| :: h.id !in ts[j].Ids()
    ensures Copies(ts, h) == 0
  {
    hide Tracked.Ids, Times;
    if ts != [] {
      NotHeld(ts[..|ts| - 1], h);
      NotCounted(ts[|ts| - 1], h);
    }
  }
}
