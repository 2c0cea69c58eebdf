/** How many clusters contain a click after it was handled, how often it was counted,
    and what the expiry sweep keeps. */
module ScanCounts {
  import opened Words
  import opened Clusters
  import opened Scans

  // ----- the sweep -----

  /** Reference for the output of the sweep: the expired clusters, highest slot first. */
  function Expiring(ts: seq<Tracked>, t: nat, s: Settings): seq<Tracked> {
    if ts == [] then []
    else
      var n := |ts| - 1;
      (if ts[n].c.Expired(t, s) then [ts[n]] else []) + Expiring(ts[..n], t, s)
  }

  lemma {:induction false} SweepOutput(ts: seq<Tracked>, t: nat, k: nat, s: Settings)
    requires k <= |ts|
    ensures Sweep(ts, t, k, s).1 == Expiring(ts[..k], t, s)
    decreases k
  {
    hide Cluster.Expired;
    if k > 0 {
      assert ts[..k][..k - 1] == ts[..k - 1];
      var us := Remove(ts, k - 1);
      assert us[..k - 1] == ts[..k - 1];
      if ts[k - 1].c.Expired(t, s) { SweepOutput(us, t, k - 1, s); } else { SweepOutput(ts, t, k - 1, s); }
    }
  }

  lemma {:induction false} SweepSurvivors(ts: seq<Tracked>, t: nat, k: nat, s: Settings)
    requires k <= |ts| && forall i | k <= i < |ts| :: !ts[i].c.Expired(t, s)
    ensures var r := Sweep(ts, t, k, s);
      && multiset(r.0) + multiset(r.1) == multiset(ts)
      && forall i | 0 <= i < |r.0| :: !r.0[i].c.Expired(t, s)
    decreases k
  {
    hide Cluster.Expired, Remove;
    if k > 0 {
      if ts[k - 1].c.Expired(t, s) {
        var us := Remove(ts, k - 1);
        SweepSurvivors(us, t, k - 1, s);
        var o := Sweep(us, t, k - 1, s).1;
        assert multiset([ts[k - 1]] + o) == multiset{ts[k - 1]} + multiset(o);
      } else {
        SweepSurvivors(ts, t, k - 1, s);
      }
    }
  }

  /** Every slot is examined once: the output is the expired clusters in descending slot order,
      and what stays is, as a multiset, exactly the others. */
  lemma SweepExact(ts: seq<Tracked>, t: nat, s: Settings)
    ensures var r := Sweep(ts, t, |ts|, s);
      && r.1 == Expiring(ts, t, s)
      && multiset(r.0) + multiset(r.1) == multiset(ts)
      && forall i | 0 <= i < |r.0| :: !r.0[i].c.Expired(t, s)
  {
    assert ts[..|ts|] == ts;
    SweepOutput(ts, t, |ts|, s);
    SweepSurvivors(ts, t, |ts|, s);
  }

  // ----- counting the clusters that contain a click -----

  function One(b: bool): nat { if b then 1 else 0 }

  /** How many of slots lo .. hi-1 contain p. */
  function CountIn(ts: seq<Tracked>, p: Click, lo: nat, hi: nat): nat
    requires hi <= |ts|
  {
    if hi <= lo then 0 else CountIn(ts, p, lo, hi - 1) + One(ts[hi - 1].c.Contains(p))
  }

  function Count(ts: seq<Tracked>, p: Click): nat { CountIn(ts, p, 0, |ts|) }

  lemma {:induction false} CountSame(ts: seq<Tracked>, us: seq<Tracked>, p: Click, lo: nat, hi: nat)
    requires hi <= |ts| && hi <= |us|
    requires forall i | lo <= i < hi :: ts[i].c.Contains(p) == us[i].c.Contains(p)
    ensures CountIn(ts, p, lo, hi) == CountIn(us, p, lo, hi)
  {
    if lo < hi { CountSame(ts, us, p, lo, hi - 1); }
  }

  lemma {:induction false} CountFront(ts: seq<Tracked>, p: Click, lo: nat, hi: nat)
    requires lo < hi <= |ts|
    ensures CountIn(ts, p, lo, hi) == One(ts[lo].c.Contains(p)) + CountIn(ts, p, lo + 1, hi)
  {
    if lo + 1 < hi { CountFront(ts, p, lo, hi - 1); }
  }

  lemma {:induction false} CountSplit(ts: seq<Tracked>, p: Click, lo: nat, mid: nat, hi: nat)
    requires lo <= mid <= hi <= |ts|
    ensures CountIn(ts, p, lo, hi) == CountIn(ts, p, lo, mid) + CountIn(ts, p, mid, hi)
  {
    if mid < hi { CountSplit(ts, p, lo, mid, hi - 1); }
  }

  lemma {:induction false} CountSome(ts: seq<Tracked>, p: Click, i: nat, hi: nat)
    requires i < hi <= |ts| && ts[i].c.Contains(p)
    ensures CountIn(ts, p, 0, hi) >= 1
  {
    CountSplit(ts, p, 0, i, hi);
    CountFront(ts, p, i, hi);
  }

  lemma {:induction false} CountZero(ts: seq<Tracked>, p: Click, hi: nat)
    requires hi <= |ts| && forall i | 0 <= i < hi :: !ts[i].c.Contains(p)
    ensures CountIn(ts, p, 0, hi) == 0
  {
    if hi > 0 { CountZero(ts, p, hi - 1); }
  }

  lemma CountRemove(ts: seq<Tracked>, i: nat, p: Click)
    requires i < |ts|
    ensures Count(ts, p) == Count(Remove(ts, i), p) + One(ts[i].c.Contains(p))
  {
    var us, n := Remove(ts, i), |ts| - 1;
    if i == n {
      CountSame(ts, us, p, 0, n);
    } else {
      CountSplit(ts, p, 0, i, n);
      CountFront(ts, p, i, n);
      CountSplit(us, p, 0, i, n);
      CountFront(us, p, i, n);
      CountSame(ts, us, p, 0, i);
      CountSame(ts, us, p, i + 1, n);
    }
  }

  lemma {:induction false} SweepCount(ts: seq<Tracked>, t: nat, k: nat, s: Settings, p: Click)
    requires k <= |ts| && forall i | 0 <= i < |ts| :: ts[i].c.Contains(p) ==> !ts[i].c.Expired(t, s)
    ensures Count(Sweep(ts, t, k, s).0, p) == Count(ts, p)
    decreases k
  {
    if k > 0 {
      if ts[k - 1].c.Expired(t, s) {
        CountRemove(ts, k - 1, p);
        SweepCount(Remove(ts, k - 1), t, k - 1, s, p);
      } else {
        SweepCount(ts, t, k - 1, s, p);
      }
    }
  }

  // ----- the merge scan -----

  function Times(t: Tracked, h: Hit): nat { multiset(t.hits)[h] }

  ghost predicate OnlyIn(ts: seq<Tracked>, l: nat, h: Hit) {
    forall j | 0 <= j < |ts| && j != l :: h !in ts[j].hits
  }

  lemma AbsorbSlots(ts: seq<Tracked>, l: nat, cix: nat, h: Hit, s: Settings)
    requires l < cix < |ts| && ts[l].c.Contains(h.click)
    ensures var us := Absorb(ts, l, cix, h, s);
      && |us| == |ts| - 1 && us[l].c.Contains(h.click)
      && (forall j | 0 <= j < |us| && j != l :: us[j] == if j == cix then ts[|ts| - 1] else ts[j])
  {
  }

  lemma AbsorbFacts(ts: seq<Tracked>, l: nat, cix: nat, h: Hit, s: Settings)
    requires l < cix < |ts| && OnlyIn(ts, l, h) && ts[l].c.Contains(h.click)
    ensures var us := Absorb(ts, l, cix, h, s);
      && |us| == |ts| - 1 && OnlyIn(us, l, h) && us[l].c.Contains(h.click) && ts[l].hits <= us[l].hits
      && Times(us[l], h) == Times(ts[l], h) + 1
      && (forall j | 0 <= j < |us| && j != l :: us[j] == if j == cix then ts[|ts| - 1] else ts[j])
  {
  }

  /** After the first match: each later match is merged unless the swap moved it over the cursor. */
  lemma {:induction false} ScanAfterMatch(ts: seq<Tracked>, h: Hit, cix: nat, l: nat, s: Settings)
    requires l < cix <= |ts| && OnlyIn(ts, l, h) && ts[l].c.Contains(h.click)
    ensures var r := Scan(ts, h, cix, Some(l), s).0;
      var before, ahead, after := CountIn(ts, h.click, 0, cix), CountIn(ts, h.click, cix, |ts|), Count(r, h.click);
      && before <= after <= before + ahead / 2
      && r[l].c.Contains(h.click) && ts[l].hits <= r[l].hits
      && Times(r[l], h) + after == Times(ts[l], h) + before + ahead
    decreases |ts| - cix
  {
    hide Cluster.Contains, Absorb, Times;
    var p := h.click;
    if cix == |ts| {
    } else if !ts[cix].c.Contains(p) {
      CountFront(ts, p, cix, |ts|);
      ScanAfterMatch(ts, h, cix + 1, l, s);
    } else {
      ScanMatchStep(ts, h, cix, l, s);
      var us := Absorb(ts, l, cix, h, s);
      AbsorbFacts(ts, l, cix, h, s);
      CountFront(ts, p, cix, |ts|);
      CountSame(ts, us, p, 0, cix);
      if cix < |us| {
        CountSame(ts, us, p, cix + 1, |us|);
        ScanAfterMatch(us, h, cix + 1, l, s);
      }
    }
  }

  /** Reference for the exact condition: with k matches, none of the last k - 2 slots contains p. */
  ghost predicate TailFree(ts: seq<Tracked>, p: Click) {
    var k := Count(ts, p);
    k >= 2 ==> k - 2 <= |ts| && CountIn(ts, p, |ts| - (k - 2), |ts|) == 0
  }

  lemma {:induction false} CountBound(ts: seq<Tracked>, p: Click, lo: nat, hi: nat)
    requires lo <= hi <= |ts|
    ensures CountIn(ts, p, lo, hi) <= hi - lo
  {
    if lo < hi { CountBound(ts, p, lo, hi - 1); }
  }

  /** None of the last a - 1 slots contains p, where a is the number of matches from cix on. */
  ghost predicate NoneSkipped(ts: seq<Tracked>, p: Click, cix: nat)
    requires cix <= |ts|
  {
    var a := CountIn(ts, p, cix, |ts|);
    a == 0 || (a <= |ts| && CountIn(ts, p, |ts| - (a - 1), |ts|) == 0)
  }

  lemma NoneSkippedNext(ts: seq<Tracked>, p: Click, cix: nat)
    requires cix < |ts| && !ts[cix].c.Contains(p)
    ensures NoneSkipped(ts, p, cix) <==> NoneSkipped(ts, p, cix + 1)
  {
    CountFront(ts, p, cix, |ts|);
  }

  /** A match at the cursor: the last slot is moved over the cursor, and skipped if it is another match. */
  lemma NoneSkippedMatch(ts: seq<Tracked>, us: seq<Tracked>, p: Click, cix: nat)
    requires cix < |us| == |ts| - 1 && ts[cix].c.Contains(p) && us[cix] == ts[|us|]
    requires forall i | cix < i < |us| :: us[i] == ts[i]
    ensures NoneSkipped(ts, p, cix) <==> !ts[|us|].c.Contains(p) && NoneSkipped(us, p, cix + 1)
  {
    var n := |us|;
    var a := CountIn(ts, p, cix, n + 1);
    CountFront(ts, p, cix, n + 1);
    CountSame(ts, us, p, cix + 1, n);
    CountBound(ts, p, cix, n + 1);
    CountBound(ts, p, cix + 1, n);
    if ts[n].c.Contains(p) {
      assert a >= 2;
      CountSplit(ts, p, n + 1 - (a - 1), n, n + 1);
    } else if a >= 2 {
      CountSame(ts, us, p, n + 1 - (a - 1), n);
    }
  }

  /** After the first match: no further match is left over if and only if none is skipped. */
  lemma {:induction false} ScanSkipsNone(ts: seq<Tracked>, h: Hit, cix: nat, l: nat, s: Settings)
    requires l < cix <= |ts| && OnlyIn(ts, l, h) && ts[l].c.Contains(h.click)
    ensures Count(Scan(ts, h, cix, Some(l), s).0, h.click) == CountIn(ts, h.click, 0, cix)
      <==> NoneSkipped(ts, h.click, cix)
    decreases |ts| - cix
  {
    hide Cluster.Contains, Absorb, Times, NoneSkipped;
    var p := h.click;
    if cix == |ts| {
      NothingAhead(ts, p);
    } else if !ts[cix].c.Contains(p) {
      NoneSkippedNext(ts, p, cix);
      ScanSkipsNone(ts, h, cix + 1, l, s);
    } else {
      ScanMatchStep(ts, h, cix, l, s);
      var us := Absorb(ts, l, cix, h, s);
      AbsorbFacts(ts, l, cix, h, s);
      CountSame(ts, us, p, 0, cix);
      if cix == |us| {
        LastAhead(ts, p);
      } else {
        NoneSkippedMatch(ts, us, p, cix);
        ScanSkipsNone(us, h, cix + 1, l, s);
        ScanAfterMatch(us, h, cix + 1, l, s);
      }
    }
  }

  lemma NothingAhead(ts: seq<Tracked>, p: Click)
    ensures NoneSkipped(ts, p, |ts|)
  {
  }

  lemma LastAhead(ts: seq<Tracked>, p: Click)
    requires ts != [] && ts[|ts| - 1].c.Contains(p)
    ensures NoneSkipped(ts, p, |ts| - 1)
  {
    CountFront(ts, p, |ts| - 1, |ts|);
  }

  /** The first match, at `cix`: the click is added there and counted once. */
  lemma FirstMatch(ts: seq<Tracked>, h: Hit, cix: nat, s: Settings)
    requires cix < |ts| && OnlyIn(ts, |ts|, h) && ts[cix].c.Contains(h.click)
    requires forall i | 0 <= i < cix :: !ts[i].c.Contains(h.click)
    ensures var us, p := ts[cix := ts[cix].Add(h, s)], h.click;
      && OnlyIn(us, cix, h) && us[cix].c.Contains(p) && us[cix].hits == ts[cix].hits + [h] && Times(us[cix], h) == 1
      && CountIn(us, p, 0, cix + 1) == 1 && Count(ts, p) == 1 + CountIn(us, p, cix + 1, |us|)
  {
    var us, p := ts[cix := ts[cix].Add(h, s)], h.click;
    CountZero(ts, p, cix);
    CountSplit(ts, p, 0, cix, |ts|);
    CountFront(ts, p, cix, |ts|);
    CountSame(ts, us, p, 0, cix + 1);
    CountSame(ts, us, p, cix + 1, |ts|);
    assert h !in ts[cix].hits;
  }

  lemma FirstMatchTail(ts: seq<Tracked>, h: Hit, cix: nat, s: Settings)
    requires cix < |ts| && OnlyIn(ts, |ts|, h) && ts[cix].c.Contains(h.click)
    requires forall i | 0 <= i < cix :: !ts[i].c.Contains(h.click)
    ensures NoneSkipped(ts[cix := ts[cix].Add(h, s)], h.click, cix + 1) <==> TailFree(ts, h.click)
  {
    hide Cluster.Contains, Tracked.Add, OnlyIn;
    var us, p, n := ts[cix := ts[cix].Add(h, s)], h.click, |ts|;
    FirstMatch(ts, h, cix, s);
    var a := CountIn(us, p, cix + 1, n);
    CountBound(us, p, cix + 1, n);
    if a >= 1 { CountSame(ts, us, p, n - (a - 1), n); }
  }

  /** From the start of the scan, or from any slot before which nothing matched. */
  lemma {:induction false} ScanFromStart(ts: seq<Tracked>, h: Hit, cix: nat, s: Settings)
    requires cix <= |ts| && OnlyIn(ts, |ts|, h)
    requires forall i | 0 <= i < cix :: !ts[i].c.Contains(h.click)
    ensures var r, k := Scan(ts, h, cix, None, s), Count(ts, h.click);
      && (r.1.None? <==> forall i | 0 <= i < |ts| :: !ts[i].c.Contains(h.click))
      && (r.1.None? ==> r.0 == ts)
      && (r.1.Some? ==>
            var f := r.1.value;
            && f < |ts| && ts[f].c.Contains(h.click) && (forall i | 0 <= i < f :: !ts[i].c.Contains(h.click))
            && ts[f].hits + [h] <= r.0[f].hits && r.0[f].c.Contains(h.click)
            && 1 <= Count(r.0, h.click) <= (k + 1) / 2
            && (Count(r.0, h.click) == 1 <==> TailFree(ts, h.click))
            && Times(r.0[f], h) + Count(r.0, h.click) == k + 1)
    decreases |ts| - cix
  {
    hide Cluster.Contains, Times, CountIn, OnlyIn, Tracked.Add, TailFree, NoneSkipped;
    if cix < |ts| {
      if !ts[cix].c.Contains(h.click) {
        ScanFromStart(ts, h, cix + 1, s);
      } else {
        FirstMatch(ts, h, cix, s);
        FirstMatchTail(ts, h, cix, s);
        ScanAfterMatch(ts[cix := ts[cix].Add(h, s)], h, cix + 1, cix, s);
        ScanSkipsNone(ts[cix := ts[cix].Add(h, s)], h, cix + 1, cix, s);
      }
    }
  }

  ghost predicate AllContain(ts: seq<Tracked>, p: Click) {
    forall i | 0 <= i < |ts| :: ts[i].c.Contains(p)
  }

  lemma AbsorbAllContain(ts: seq<Tracked>, l: nat, cix: nat, h: Hit, s: Settings)
    requires l < cix < |ts| && AllContain(ts, h.click)
    ensures |Absorb(ts, l, cix, h, s)| == |ts| - 1 && AllContain(Absorb(ts, l, cix, h, s), h.click)
    ensures ts[cix].c.Contains(h.click)
  {
    AbsorbSlots(ts, l, cix, h, s);
  }

  lemma {:induction false} AllMatchFrom(ts: seq<Tracked>, h: Hit, cix: nat, l: nat, s: Settings)
    requires l < cix <= |ts| && AllContain(ts, h.click)
    ensures var r := |Scan(ts, h, cix, Some(l), s).0|; 2 * r <= cix + |ts| <= 2 * r + 1
    decreases |ts| - cix
  {
    hide Cluster.Contains, Absorb, AllContain;
    if cix == |ts| {
    } else {
      AbsorbAllContain(ts, l, cix, h, s);
      ScanMatchStep(ts, h, cix, l, s);
      var us := Absorb(ts, l, cix, h, s);
      if cix < |us| { AllMatchFrom(us, h, cix + 1, l, s); }
    }
  }

  /** The bound of ScanFromStart is reached for every k: if all k open clusters contain the click,
      exactly (k + 1) / 2 clusters are left and each of them still contains it. */
  lemma AllMatchHalves(ts: seq<Tracked>, h: Hit, s: Settings)
    requires ts != [] && AllContain(ts, h.click) && OnlyIn(ts, |ts|, h)
    ensures var r := Scan(ts, h, 0, None, s).0; |r| == (|ts| + 1) / 2 == Count(r, h.click)
  {
    var us, r := ts[0 := ts[0].Add(h, s)], Scan(ts, h, 0, None, s).0;
    AllMatchFrom(us, h, 1, 0, s);
    assert r == Scan(us, h, 1, Some(0), s).0;
    AllContainFrom(us, h, 1, 0, s);
    CountAll(r, h.click, |r|);
  }

  lemma {:induction false} AllContainFrom(ts: seq<Tracked>, h: Hit, cix: nat, l: nat, s: Settings)
    requires l < cix <= |ts| && AllContain(ts, h.click)
    ensures AllContain(Scan(ts, h, cix, Some(l), s).0, h.click)
    decreases |ts| - cix
  {
    hide Cluster.Contains, Absorb, AllContain;
    if cix < |ts| {
      AbsorbAllContain(ts, l, cix, h, s);
      ScanMatchStep(ts, h, cix, l, s);
      var us := Absorb(ts, l, cix, h, s);
      if cix < |us| { AllContainFrom(us, h, cix + 1, l, s); }
    }
  }

  lemma {:induction false} CountAll(ts: seq<Tracked>, p: Click, hi: nat)
    requires hi <= |ts| && AllContain(ts, p)
    ensures CountIn(ts, p, 0, hi) == hi
  {
    if hi > 0 { CountAll(ts, p, hi - 1); }
  }
}
