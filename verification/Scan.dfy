/** What one click does to the list of open clusters: the merge scan, then the expiry sweep. */
module Scans {
  import opened Words
  import opened Clusters

  /** A second match at `cix`: it takes the click, is merged into slot `l`, and is swapped out of the list. */
  function Absorb(ts: seq<Tracked>, l: nat, cix: nat, h: Hit, s: Settings): seq<Tracked>
    requires l < cix < |ts|
  {
    Remove(ts[l := ts[l].Merge(ts[cix].Add(h, s))], cix)
  }

  /** The first loop over the open clusters; `last` is the slot `last_cluster` points to. */
  function Scan(ts: seq<Tracked>, h: Hit, cix: nat, last: Option<nat>, s: Settings): (r: (seq<Tracked>, Option<nat>))
    requires cix <= |ts| && (last.Some? ==> last.value < cix)
    ensures r.1.Some? ==> r.1.value < |r.0|
    ensures last.Some? ==> r.1 == last
    decreases |ts| - cix
  {
    if cix == |ts| then (ts, last)
    else if !ts[cix].c.Contains(h.click) then Scan(ts, h, cix + 1, last, s)
    else if last.None? then Scan(ts[cix := ts[cix].Add(h, s)], h, cix + 1, Some(cix), s)
    else
      var us := Absorb(ts, last.value, cix, h, s);
      if cix == |us| then (us, last) else Scan(us, h, cix + 1, last, s)
  }

  /** One iteration of the scan at a later match. */
  lemma ScanMatchStep(ts: seq<Tracked>, h: Hit, cix: nat, l: nat, s: Settings)
    requires l < cix < |ts| && ts[cix].c.Contains(h.click)
    ensures var us := Absorb(ts, l, cix, h, s);
      && |us| == |ts| - 1
      && Scan(ts, h, cix, Some(l), s) == if cix == |us| then (us, Some(l)) else Scan(us, h, cix + 1, Some(l), s)
  {
  }

  /** The reverse loop over slots k-1 .. 0: what stays open and what is output, in output order. */
  function Sweep(ts: seq<Tracked>, t: nat, k: nat, s: Settings): (seq<Tracked>, seq<Tracked>)
    requires k <= |ts|
    decreases k
  {
    if k == 0 then (ts, [])
    else if ts[k - 1].c.Expired(t, s) then
      var r := Sweep(Remove(ts, k - 1), t, k - 1, s);
      (r.0, [ts[k - 1]] + r.1)
    else Sweep(ts, t, k - 1, s)
  }

  /** The list after the scan, with a new cluster when nothing matched. */
  function Placed(ts: seq<Tracked>, h: Hit, s: Settings): seq<Tracked> {
    var r := Scan(ts, h, 0, None, s);
    if r.1.Some? then r.0 else r.0 + [NewTracked(h, s)]
  }

  // ----- every held cluster stays an exact summary of real clicks -----

  /** An exact summary of hits that are clicks of the stream. */
  ghost predicate Faithful(t: Tracked, clicks: seq<Click>, s: Settings) {
    Exact(t, s) && forall h | h in t.hits :: h.id < |clicks| && clicks[h.id] == h.click
  }

  ghost predicate AllFaithful(ts: seq<Tracked>, clicks: seq<Click>, s: Settings) {
    forall i | 0 <= i < |ts| :: Faithful(ts[i], clicks, s)
  }

  lemma {:induction false} ScanFaithful(ts: seq<Tracked>, h: Hit, cix: nat, last: Option<nat>, s: Settings, clicks: seq<Click>)
    requires cix <= |ts| && (last.Some? ==> last.value < cix)
    requires AllFaithful(ts, clicks, s) && h.id < |clicks| && clicks[h.id] == h.click
    ensures AllFaithful(Scan(ts, h, cix, last, s).0, clicks, s)
    decreases |ts| - cix
  {
    if cix == |ts| {
    } else if !ts[cix].c.Contains(h.click) {
      ScanFaithful(ts, h, cix + 1, last, s, clicks);
    } else {
      ExactAdd(ts[cix], h, s);
      var grown := ts[cix].Add(h, s);
      assert Faithful(grown, clicks, s);
      if last.None? {
        ScanFaithful(ts[cix := grown], h, cix + 1, Some(cix), s, clicks);
      } else {
        ExactMerge(ts[last.value], grown, s);
        var us := Absorb(ts, last.value, cix, h, s);
        assert Faithful(ts[last.value].Merge(grown), clicks, s);
        assert AllFaithful(us, clicks, s);
        if cix < |us| { ScanFaithful(us, h, cix + 1, last, s, clicks); }
      }
    }
  }

  lemma PlacedFaithful(ts: seq<Tracked>, h: Hit, s: Settings, clicks: seq<Click>)
    requires AllFaithful(ts, clicks, s) && h.id < |clicks| && clicks[h.id] == h.click
    ensures AllFaithful(Placed(ts, h, s), clicks, s)
  {
    ScanFaithful(ts, h, 0, None, s, clicks);
    ExactNew(h, s);
  }

  lemma {:induction false} SweepFaithful(ts: seq<Tracked>, t: nat, k: nat, s: Settings, clicks: seq<Click>)
    requires k <= |ts| && AllFaithful(ts, clicks, s)
    ensures AllFaithful(Sweep(ts, t, k, s).0, clicks, s) && AllFaithful(Sweep(ts, t, k, s).1, clicks, s)
    decreases k
  {
    if k == 0 {
    } else if ts[k - 1].c.Expired(t, s) {
      SweepFaithful(Remove(ts, k - 1), t, k - 1, s, clicks);
    } else {
      SweepFaithful(ts, t, k - 1, s, clicks);
    }
  }

  // ----- ids: no click lost, none held twice -----

  ghost predicate Disjoint(ts: seq<Tracked>) {
    forall i, j | 0 <= i < j < |ts| :: ts[i].Ids() !! ts[j].Ids()
  }

  ghost function AllIds(ts: seq<Tracked>): set<nat> {
    set i, n | 0 <= i < |ts| && n in ts[i].Ids() :: n
  }

  lemma AddMergeIds(t: Tracked, o: Tracked, h: Hit, s: Settings)
    ensures t.Add(h, s).Ids() == t.Ids() + {h.id}
    ensures t.Merge(o).Ids() == t.Ids() + o.Ids()
  {
    assert forall k | k in t.hits + [h] :: k in t.hits || k == h;
    assert h in t.hits + [h] && forall k | k in t.hits :: k in t.hits + [h];
    assert forall k | k in t.hits + o.hits :: k in t.hits || k in o.hits;
    assert forall k | k in t.hits || k in o.hits :: k in t.hits + o.hits;
  }

  lemma RemoveIds(ts: seq<Tracked>, i: nat)
    requires i < |ts| && Disjoint(ts)
    ensures var us := Remove(ts, i);
      Disjoint(us) && AllIds(us) !! ts[i].Ids() && AllIds(ts) == AllIds(us) + ts[i].Ids()
  {
    var us := Remove(ts, i);
    forall n | n in AllIds(ts) ensures n in AllIds(us) + ts[i].Ids() {
      var j :| 0 <= j < |ts| && n in ts[j].Ids();
      if j == |us| && i < |us| { assert us[i] == ts[j]; } else if j != i { assert us[j] == ts[j]; }
    }
  }

  lemma InAllIds(ts: seq<Tracked>, i: nat)
    requires i < |ts|
    ensures ts[i].Ids() <= AllIds(ts)
  {
  }

  lemma ConcatIds(l: seq<Tracked>, r: seq<Tracked>)
    ensures AllIds(l + r) == AllIds(l) + AllIds(r)
    ensures Disjoint(l + r) <==> Disjoint(l) && Disjoint(r) && AllIds(l) !! AllIds(r)
  {
    var u := l + r;
    assert forall i | 0 <= i < |l| :: u[i] == l[i];
    assert forall i | 0 <= i < |r| :: u[|l| + i] == r[i];
    hide Tracked.Ids;
    forall n | n in AllIds(l) + AllIds(r) ensures n in AllIds(u) {
      if n in AllIds(l) {
        var i :| 0 <= i < |l| && n in l[i].Ids();
        InAllIds(u, i);
      } else {
        var i :| 0 <= i < |r| && n in r[i].Ids();
        InAllIds(u, |l| + i);
      }
    }
    if Disjoint(u) {
      forall n | n in AllIds(l) ensures n !in AllIds(r) {
        var i :| 0 <= i < |l| && n in l[i].Ids();
        forall j | 0 <= j < |r| ensures n !in r[j].Ids() { assert u[i].Ids() !! u[|l| + j].Ids(); }
      }
      forall i, j | 0 <= i < j < |r| ensures r[i].Ids() !! r[j].Ids() {
        assert u[|l| + i].Ids() !! u[|l| + j].Ids();
      }
    }
    if Disjoint(l) && Disjoint(r) && AllIds(l) !! AllIds(r) {
      forall i, j | 0 <= i < j < |u| ensures u[i].Ids() !! u[j].Ids() {
        if i < |l| <= j { InAllIds(l, i); InAllIds(r, j - |l|); }
      }
    }
  }

  lemma SingleIds(t: Tracked)
    ensures Disjoint([t]) && AllIds([t]) == t.Ids()
  {
    hide Tracked.Ids;
    assert [t][0] == t;
    InAllIds([t], 0);
  }

  lemma NoIds()
    ensures Disjoint([]) && AllIds([]) == {}
  {
  }

  lemma UpdateIds(ts: seq<Tracked>, i: nat, t: Tracked, extra: set<nat>)
    requires i < |ts| && Disjoint(ts) && t.Ids() == ts[i].Ids() + extra && extra !! (AllIds(ts) - ts[i].Ids())
    ensures Disjoint(ts[i := t]) && AllIds(ts[i := t]) == AllIds(ts) + extra
  {
    hide Tracked.Ids;
    var us := ts[i := t];
    forall j | 0 <= j < |ts| && j != i ensures us[j] == ts[j] && ts[j].Ids() !! t.Ids() {
      InAllIds(ts, j);
      assert ts[j].Ids() !! ts[i].Ids();
    }
    forall n | n in AllIds(ts) + extra ensures n in AllIds(us) {
      InAllIds(us, i);
      if n in AllIds(ts) && n !in us[i].Ids() {
        var j :| 0 <= j < |ts| && n in ts[j].Ids();
        InAllIds(us, j);
      }
    }
    forall n | n in AllIds(us) ensures n in AllIds(ts) + extra {
      var j :| 0 <= j < |us| && n in us[j].Ids();
      InAllIds(ts, j);
    }
  }

  lemma RemoveUpdate<A>(xs: seq<A>, l: nat, x: A, i: nat)
    requires l < i < |xs|
    ensures Remove(xs[l := x], i) == Remove(xs, i)[l := x]
  {
  }

  lemma MergedIds(t: Tracked, o: Tracked, h: Hit, s: Settings)
    ensures t.Merge(o.Add(h, s)).Ids() == t.Ids() + (o.Ids() + {h.id})
  {
    AddMergeIds(o, o, h, s);
    AddMergeIds(t, o.Add(h, s), h, s);
  }

  lemma AbsorbIds(ts: seq<Tracked>, l: nat, cix: nat, h: Hit, s: Settings)
    requires l < cix < |ts| && Disjoint(ts) && h.id in ts[l].Ids()
    ensures var us := Absorb(ts, l, cix, h, s);
      Disjoint(us) && AllIds(us) == AllIds(ts) && l < |us| && h.id in us[l].Ids()
  {
    // On ids the merge is: drop slot cix, then let slot l take its ids.
    hide Tracked.Ids, Disjoint, AllIds, Tracked.Add, Tracked.Merge;
    var merged := ts[l].Merge(ts[cix].Add(h, s));
    MergedIds(ts[l], ts[cix], h, s);
    var us := Remove(ts, cix);
    RemoveIds(ts, cix);
    InAllIds(ts, l);
    UpdateIds(us, l, merged, ts[cix].Ids() + {h.id});
    RemoveUpdate(ts, l, merged, cix);
  }

  lemma {:induction false} ScanIds(ts: seq<Tracked>, h: Hit, cix: nat, last: Option<nat>, s: Settings)
    requires cix <= |ts| && (last.Some? ==> last.value < cix && h.id in ts[last.value].Ids())
    requires Disjoint(ts) && (last.None? ==> h.id !in AllIds(ts))
    ensures var r := Scan(ts, h, cix, last, s);
      Disjoint(r.0) && AllIds(r.0) == AllIds(ts) + (if r.1.Some? then {h.id} else {})
    decreases |ts| - cix
  {
    hide Tracked.Ids, Disjoint, AllIds, Tracked.Add, Tracked.Merge, Absorb, Cluster.Contains;
    if last.Some? { InAllIds(ts, last.value); }
    if cix == |ts| {
    } else if !ts[cix].c.Contains(h.click) {
      ScanIds(ts, h, cix + 1, last, s);
    } else if last.None? {
      AddMergeIds(ts[cix], ts[cix], h, s);
      assert {h.id} !! AllIds(ts);
      UpdateIds(ts, cix, ts[cix].Add(h, s), {h.id});
      ScanIds(ts[cix := ts[cix].Add(h, s)], h, cix + 1, Some(cix), s);
    } else {
      AbsorbIds(ts, last.value, cix, h, s);
      ScanMatchStep(ts, h, cix, last.value, s);
      var us := Absorb(ts, last.value, cix, h, s);
      if cix < |us| { ScanIds(us, h, cix + 1, last, s); }
    }
  }

  lemma PlacedIds(ts: seq<Tracked>, h: Hit, s: Settings)
    requires Disjoint(ts) && h.id !in AllIds(ts)
    ensures Disjoint(Placed(ts, h, s)) && AllIds(Placed(ts, h, s)) == AllIds(ts) + {h.id}
  {
    NewIds(h, s);
    hide Tracked.Ids, Disjoint, AllIds, NewTracked, Scan;
    ScanIds(ts, h, 0, None, s);
    var r := Scan(ts, h, 0, None, s);
    SingleIds(NewTracked(h, s));
    ConcatIds(r.0, [NewTracked(h, s)]);
  }

  lemma NewIds(h: Hit, s: Settings)
    ensures NewTracked(h, s).Ids() == {h.id}
  {
  }

  lemma {:induction false} SweepIds(ts: seq<Tracked>, t: nat, k: nat, s: Settings)
    requires k <= |ts| && Disjoint(ts)
    ensures var r := Sweep(ts, t, k, s);
      Disjoint(r.0) && Disjoint(r.1) && AllIds(r.0) !! AllIds(r.1) && AllIds(r.0) + AllIds(r.1) == AllIds(ts)
    decreases k
  {
    hide Tracked.Ids, Disjoint, AllIds, Cluster.Expired;
    NoIds();
    if k == 0 {
    } else if ts[k - 1].c.Expired(t, s) {
      var e, us := ts[k - 1], Remove(ts, k - 1);
      RemoveIds(ts, k - 1);
      SweepIds(us, t, k - 1, s);
      var r := Sweep(us, t, k - 1, s);
      SingleIds(e);
      ConcatIds([e], r.1);
    } else {
      SweepIds(ts, t, k - 1, s);
    }
  }
}
