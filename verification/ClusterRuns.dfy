/** Whole runs of the clustering thread: any sequence of clicks and flushes. */
module ClusterRuns {
  import opened Words
  import opened Clusters
  import opened Scans
  import opened Multiplicities
  import opened ScanCounts
  import opened Packets

  datatype Event = Arrive(p: Click) | Flush

  /** An emitted cluster and the number of clicks that had arrived before the one that pushed it out. */
  datatype Emitted = Emitted(t: Tracked, at: nat, flushed: bool)

  datatype State = State(clicks: seq<Click>, open: seq<Tracked>, out: seq<Emitted>)

  function Wrap(ts: seq<Tracked>, at: nat, flushed: bool): seq<Emitted> {
    seq(|ts|, i requires 0 <= i < |ts| => Emitted(ts[i], at, flushed))
  }

  function Unwrap(es: seq<Emitted>): seq<Tracked> {
    seq(|es|, i requires 0 <= i < |es| => es[i].t)
  }

  function HandleClick(st: State, p: Click, s: Settings): State {
    var n := |st.clicks|;
    var placed := Placed(st.open, Hit(n, p), s);
    var swept := Sweep(placed, p.t, |placed|, s);
    State(st.clicks + [p], swept.0, st.out + Wrap(swept.1, n, false))
  }

  function FlushAll(st: State): State {
    State(st.clicks, [], st.out + Wrap(st.open, |st.clicks|, true))
  }

  function Step(st: State, e: Event, s: Settings): State {
    match e case Arrive(p) => HandleClick(st, p, s) case Flush => FlushAll(st)
  }

  function Run(es: seq<Event>, s: Settings): State {
    if es == [] then State([], [], []) else Step(Run(es[..|es| - 1], s), es[|es| - 1], s)
  }

  // ----- the inductive invariant -----

  function Held(st: State): seq<Tracked> { st.open + Unwrap(st.out) }

  ghost predicate Partition(st: State) {
    Disjoint(Held(st)) && AllIds(Held(st)) == Below(|st.clicks|)
  }

  ghost predicate EmittedInTime(st: State, s: Settings) {
    forall e | e in st.out :: !e.flushed ==> e.at < |st.clicks| && e.t.c.Expired(st.clicks[e.at].t, s)
  }

  ghost predicate OpenInTime(st: State, s: Settings) {
    st.clicks != [] ==> forall t | t in st.open :: !t.c.Expired(st.clicks[|st.clicks| - 1].t, s)
  }

  ghost predicate Inv(st: State, s: Settings) {
    Partition(st) && AllFaithful(Held(st), st.clicks, s) && EmittedInTime(st, s) && OpenInTime(st, s)
  }

  lemma UnwrapWrap(out: seq<Emitted>, ts: seq<Tracked>, at: nat, flushed: bool)
    ensures Unwrap(out + Wrap(ts, at, flushed)) == Unwrap(out) + ts
  {
  }

  /** What one click does to the held clusters, as sets of ids. */
  lemma ClickPartition(st: State, p: Click, s: Settings)
    requires Partition(st)
    ensures Partition(HandleClick(st, p, s))
  {
    var n, old_ := |st.clicks|, Unwrap(st.out);
    var h := Hit(n, p);
    var placed := Placed(st.open, h, s);
    var swept := Sweep(placed, p.t, |placed|, s);
    ConcatIds(st.open, old_);
    PlacedIds(st.open, h, s);
    SweepIds(placed, p.t, |placed|, s);
    UnwrapWrap(st.out, swept.1, n, false);
    hide Disjoint, AllIds, Placed, Sweep;
    ConcatIds(old_, swept.1);
    ConcatIds(swept.0, old_ + swept.1);
  }

  lemma FlushPartition(st: State)
    requires Partition(st)
    ensures Partition(FlushAll(st))
  {
    var old_ := Unwrap(st.out);
    UnwrapWrap(st.out, st.open, |st.clicks|, true);
    ConcatIds(st.open, old_);
    ConcatIds(old_, st.open);
    assert [] + (old_ + st.open) == old_ + st.open;
  }

  lemma FaithfulGrows(ts: seq<Tracked>, clicks: seq<Click>, p: Click, s: Settings)
    requires AllFaithful(ts, clicks, s)
    ensures AllFaithful(ts, clicks + [p], s)
  {
    hide Exact;
  }

  lemma FaithfulConcat(l: seq<Tracked>, r: seq<Tracked>, clicks: seq<Click>, s: Settings)
    ensures AllFaithful(l + r, clicks, s) <==> AllFaithful(l, clicks, s) && AllFaithful(r, clicks, s)
  {
    hide Faithful;
    var u := l + r;
    assert forall i | 0 <= i < |l| :: u[i] == l[i];
    assert forall i | 0 <= i < |r| :: u[|l| + i] == r[i];
  }

  lemma ClickFaithful(st: State, p: Click, s: Settings)
    requires AllFaithful(Held(st), st.clicks, s)
    ensures var r := HandleClick(st, p, s); AllFaithful(Held(r), r.clicks, s)
  {
    var n, old_, clicks := |st.clicks|, Unwrap(st.out), st.clicks + [p];
    var h := Hit(n, p);
    var placed := Placed(st.open, h, s);
    var swept := Sweep(placed, p.t, |placed|, s);
    FaithfulGrows(Held(st), st.clicks, p, s);
    FaithfulConcat(st.open, old_, clicks, s);
    PlacedFaithful(st.open, h, s, clicks);
    SweepFaithful(placed, p.t, |placed|, s, clicks);
    UnwrapWrap(st.out, swept.1, n, false);
    hide AllFaithful, Placed, Sweep;
    FaithfulConcat(old_, swept.1, clicks, s);
    FaithfulConcat(swept.0, old_ + swept.1, clicks, s);
  }

  lemma FlushFaithful(st: State, s: Settings)
    requires AllFaithful(Held(st), st.clicks, s)
    ensures AllFaithful(Held(FlushAll(st)), st.clicks, s)
  {
    var old_ := Unwrap(st.out);
    UnwrapWrap(st.out, st.open, |st.clicks|, true);
    FaithfulConcat(st.open, old_, st.clicks, s);
    FaithfulConcat(old_, st.open, st.clicks, s);
    assert [] + (old_ + st.open) == old_ + st.open;
  }

  lemma {:induction false} ExpiringAreExpired(ts: seq<Tracked>, t: nat, s: Settings)
    ensures forall u | u in Expiring(ts, t, s) :: u.c.Expired(t, s)
  {
    if ts != [] { ExpiringAreExpired(ts[..|ts| - 1], t, s); }
  }

  lemma ClickInTime(st: State, p: Click, s: Settings)
    requires EmittedInTime(st, s)
    ensures EmittedInTime(HandleClick(st, p, s), s) && OpenInTime(HandleClick(st, p, s), s)
  {
    var h := Hit(|st.clicks|, p);
    var placed := Placed(st.open, h, s);
    SweepExact(placed, p.t, s);
    ExpiringAreExpired(placed, p.t, s);
    hide Placed, Sweep, Cluster.Expired;
  }

  lemma {:induction false} RunInv(es: seq<Event>, s: Settings)
    ensures Inv(Run(es, s), s)
  {
    if es == [] {
      assert Run(es, s) == State([], [], []);
    } else {
      var st, e := Run(es[..|es| - 1], s), es[|es| - 1];
      RunInv(es[..|es| - 1], s);
      assert Run(es, s) == Step(st, e, s);
      if e.Arrive? {
        ClickPartition(st, e.p, s);
        ClickFaithful(st, e.p, s);
        ClickInTime(st, e.p, s);
      } else {
        FlushPartition(st);
        FlushFaithful(st, s);
      }
    }
  }

  // ----- the main results -----

  /** No click is lost and none belongs to two clusters, over every run. */
  lemma RunPartition(es: seq<Event>, s: Settings, i: nat)
    requires i < |Run(es, s).clicks|
    ensures var hs := Held(Run(es, s));
      && (exists k | 0 <= k < |hs| :: i in hs[k].Ids())
      && forall k, m | 0 <= k < |hs| && 0 <= m < |hs| && i in hs[k].Ids() && i in hs[m].Ids() :: k == m
  {
    RunInv(es, s);
    var hs := Held(Run(es, s));
    assert i in AllIds(hs);
    hide Tracked.Ids, Run, Held;
    assert forall k, m | 0 <= k < m < |hs| :: hs[k].Ids() !! hs[m].Ids();
  }

  /** Every open or emitted cluster is an exact summary of hits that are clicks of the stream, each of them
      counted as often as its arrival says. */
  lemma RunExact(es: seq<Event>, s: Settings, k: nat)
    requires k < |Held(Run(es, s))|
    ensures var st := Run(es, s); Faithful(Held(st)[k], st.clicks, s)
    ensures var t := Held(Run(es, s))[k];
      Sane(s) && Readable(Arrivals(es)) ==> forall h | h in t.hits :: Times(t, h) == Multiplicity(es, s, h.id)
  {
    RunInv(es, s);
    var st := Run(es, s);
    var t := Held(st)[k];
    if Sane(s) && Readable(Arrivals(es)) {
      hide Run, Exact, Times, Multiplicity, Arrivals, Readable;
      forall h | h in t.hits ensures Times(t, h) == Multiplicity(es, s, h.id) {
        assert h.id in t.Ids() && h == Hit(h.id, st.clicks[h.id]);
        RunMultiplicity(es, s, h.id, k);
      }
    }
  }

  function Arrivals(es: seq<Event>): seq<Click> {
    if es == [] then []
    else Arrivals(es[..|es| - 1]) + if es[|es| - 1].Arrive? then [es[|es| - 1].p] else []
  }

  lemma {:induction false} RunClicks(es: seq<Event>, s: Settings)
    ensures Run(es, s).clicks == Arrivals(es)
  {
    if es != [] {
      RunClicks(es[..|es| - 1], s);
      assert Run(es, s) == Step(Run(es[..|es| - 1], s), es[|es| - 1], s);
    }
  }

  ghost predicate Readable(clicks: seq<Click>) { forall p | p in clicks :: InRange(p) }

  /** For sane settings the unsigned comparison is the plain one. */
  lemma ExpiredExact(t: Tracked, clicks: seq<Click>, t0: nat, s: Settings)
    requires Faithful(t, clicks, s) && Readable(clicks) && Sane(s)
    ensures t.c.Expired(t0, s) <==> t0 > t.c.t.hi + s.maxTSep
  {
    assert ExactAlong(AxisT, t, s);
    var h :| h in t.hits && Coord(AxisT, h.click) == t.c.t.hi - s.tSep;
    assert h.click in clicks;
  }

  /** For any C++ ints as settings, m being the max_t_separation that was converted to the unsigned maxTSep: a sum
      below zero wraps around and expires nothing. */
  lemma ExpiredSigned(t: Tracked, clicks: seq<Click>, t0: nat, s: Settings, m: int)
    requires Faithful(t, clicks, s) && Readable(clicks)
    requires -0x8000_0000 <= s.tSep < 0x8000_0000 && -0x8000_0000 <= m < 0x8000_0000 && t0 < TWO_38
    requires s.maxTSep == if m < 0 then m + TWO_64 else m
    ensures t.c.Expired(t0, s) <==> 0 <= t.c.t.hi + m < t0
  {
    assert ExactAlong(AxisT, t, s);
    var h :| h in t.hits && Coord(AxisT, h.click) == t.c.t.hi - s.tSep;
    assert h.click in clicks;
  }

  /** No click is earlier than a previous one by more than d. */
  predicate Tolerant(clicks: seq<Click>, d: int) {
    forall i, j | 0 <= i < j < |clicks| :: clicks[j].t >= clicks[i].t - d
  }

  /** max_t_separation is a sound disorder tolerance: no click that arrives once the sweep has
      emitted a cluster (the emitting click included) lies in that cluster's box. */
  lemma ToleranceSound(es: seq<Event>, s: Settings, k: nat, j: nat)
    requires Sane(s) && Readable(Arrivals(es)) && Tolerant(Arrivals(es), s.maxTSep)
    requires k < |Run(es, s).out| && !Run(es, s).out[k].flushed && Run(es, s).out[k].at <= j < |Arrivals(es)|
    ensures !Run(es, s).out[k].t.c.Contains(Arrivals(es)[j])
  {
    hide Run, Partition, Faithful, Arrivals, Readable, OpenInTime, Cluster.Contains, Cluster.Expired;
    var st := Run(es, s);
    RunInv(es, s);
    RunClicks(es, s);
    assert st.out[k] in st.out;
    assert Held(st)[|st.open| + k] == st.out[k].t;
    ExpiredOutlives(st.out[k].t, st.clicks, st.out[k].at, j, s);
  }

  lemma ExpiredOutlives(t: Tracked, clicks: seq<Click>, at: nat, j: nat, s: Settings)
    requires Faithful(t, clicks, s) && Readable(clicks) && Sane(s) && Tolerant(clicks, s.maxTSep)
    requires at <= j < |clicks| && t.c.Expired(clicks[at].t, s)
    ensures !t.c.Contains(clicks[j])
  {
    hide Faithful, Readable, Cluster.Expired;
    ExpiredExact(t, clicks, clicks[at].t, s);
  }

  lemma FirstClick(p: Click, s: Settings)
    requires Sane(s) && p.t < TWO_38
    ensures HandleClick(State([], [], []), p, s) == State([p], [NewTracked(Hit(0, p), s)], [])
  {
    var t := NewTracked(Hit(0, p), s);
    assert Placed([], Hit(0, p), s) == [t];
    assert !t.c.Expired(p.t, s);
    assert Sweep([t], p.t, 1, s) == ([t], []);
  }

  lemma LateClickEmits(a: Click, b: Click, s: Settings)
    requires Sane(s) && InRange(a) && InRange(b) && b.t > a.t + s.tSep + s.maxTSep
    ensures var t := NewTracked(Hit(0, a), s);
      HandleClick(State([a], [t], []), b, s) == State([a, b], [NewTracked(Hit(1, b), s)], [Emitted(t, 1, false)])
  {
    var h := Hit(1, b);
    var ta, tb := NewTracked(Hit(0, a), s), NewTracked(h, s);
    assert !ta.c.Contains(b);
    assert Scan([ta], h, 1, None, s) == ([ta], None);
    assert Placed([ta], h, s) == [ta, tb];
    assert !tb.c.Expired(b.t, s) && ta.c.Expired(b.t, s);
    assert Remove([ta, tb], 0) == [tb];
    assert Sweep([tb], b.t, 0, s) == ([tb], []);
    var r := Sweep([tb], b.t, 0, s);
    assert Sweep([ta, tb], b.t, 1, s) == (r.0, [ta] + r.1);
    assert Sweep([ta, tb], b.t, 2, s) == Sweep([ta, tb], b.t, 1, s);
    assert Wrap([ta], 1, false) == [Emitted(ta, 1, false)];
  }

  /** It is the largest one: for every sane setting three clicks one tick more out of order
      end with the third in the box of a cluster that was already emitted. */
  lemma ToleranceTight(s: Settings)
    requires Sane(s)
    ensures var a, b, c := Click(0, 0, 0, 1), Click(0, 0, s.tSep + s.maxTSep + 1, 1), Click(0, 0, s.tSep, 1);
      var es := [Arrive(a), Arrive(b), Arrive(c)];
      && Readable([a, b, c]) && Arrivals(es) == [a, b, c] && Tolerant([a, b, c], s.maxTSep + 1)
      && (exists e | e in Run(es, s).out :: !e.flushed && e.at == 1 && e.t.c.Contains(c))
  {
    var a, b, c := Click(0, 0, 0, 1), Click(0, 0, s.tSep + s.maxTSep + 1, 1), Click(0, 0, s.tSep, 1);
    var es := [Arrive(a), Arrive(b), Arrive(c)];
    FirstClick(a, s);
    LateClickEmits(a, b, s);
    var t := NewTracked(Hit(0, a), s);
    assert t.c.Contains(c);
    ThreeArrivals(a, b, c, s);
    hide *;
    var s2 := HandleClick(State([a], [t], []), b, s);
    OutGrows(s2, c, s);
    assert s2.out[0] == Emitted(t, 1, false);
    assert Run(es, s).out[0] == Emitted(t, 1, false);
  }

  lemma ThreeArrivals(a: Click, b: Click, c: Click, s: Settings)
    ensures var es := [Arrive(a), Arrive(b), Arrive(c)];
      && Arrivals(es) == [a, b, c]
      && Run(es, s) == HandleClick(HandleClick(HandleClick(State([], [], []), a, s), b, s), c, s)
  {
    hide HandleClick;
    var es := [Arrive(a), Arrive(b), Arrive(c)];
    assert es[..2] == [Arrive(a), Arrive(b)] && es[..2][..1] == [Arrive(a)] && es[..2][..1][..0] == [];
    assert Arrivals([]) == [] && Arrivals([Arrive(a)]) == [a] && Arrivals(es[..2]) == [a, b];
    assert Run([], s) == State([], [], []);
    assert Run([Arrive(a)], s) == HandleClick(State([], [], []), a, s);
    assert Run(es[..2], s) == HandleClick(HandleClick(State([], [], []), a, s), b, s);
  }

  lemma OutGrows(st: State, p: Click, s: Settings)
    ensures st.out <= HandleClick(st, p, s).out
  {
  }

  // ----- how many clusters can be open -----

  ghost function Recent(clicks: seq<Click>, since: int, n: nat): (r: set<nat>)
    requires n <= |clicks|
    ensures forall i: nat :: i in r <==> i < n && clicks[i].t >= since
  {
    if n == 0 then {} else Recent(clicks, since, n - 1) + if clicks[n - 1].t >= since then {n - 1} else {}
  }

  /** Disjoint clusters that each own an id of r are at most |r| many. */
  lemma {:induction false} DisjointOwners(ts: seq<Tracked>, r: set<nat>)
    requires Disjoint(ts) && forall i | 0 <= i < |ts| :: ts[i].Ids() * r != {}
    ensures |ts| <= |r|
  {
    if ts != [] {
      var n := |ts| - 1;
      var i :| i in ts[n].Ids() * r;
      hide Tracked.Ids;
      forall j | 0 <= j < n ensures ts[..n][j].Ids() * (r - {i}) != {} {
        assert ts[j].Ids() !! ts[n].Ids();
        var k :| k in ts[j].Ids() * r;
        assert k in ts[..n][j].Ids() * (r - {i});
      }
      DisjointOwners(ts[..n], r - {i});
    }
  }

  lemma OpenHasRecent(t: Tracked, clicks: seq<Click>, last: nat, s: Settings)
    requires Faithful(t, clicks, s) && Readable(clicks) && Sane(s) && !t.c.Expired(last, s)
    ensures t.Ids() * Recent(clicks, last - s.maxTSep - s.tSep, |clicks|) != {}
  {
    ExpiredExact(t, clicks, last, s);
    assert ExactAlong(AxisT, t, s);
    var h :| h in t.hits && Coord(AxisT, h.click) == t.c.t.hi - s.tSep;
    assert h.id in t.Ids();
  }

  lemma OpenFacts(es: seq<Event>, s: Settings)
    ensures var st := Run(es, s);
      && Disjoint(st.open) && AllFaithful(st.open, st.clicks, s)
      && (st.clicks != [] ==> forall i | 0 <= i < |st.open| :: !st.open[i].c.Expired(st.clicks[|st.clicks| - 1].t, s))
  {
    var st := Run(es, s);
    RunInv(es, s);
    hide Run, Disjoint, Faithful, Cluster.Expired;
    ConcatIds(st.open, Unwrap(st.out));
    FaithfulConcat(st.open, Unwrap(st.out), st.clicks, s);
  }

  lemma RecentOwners(open: seq<Tracked>, clicks: seq<Click>, last: nat, s: Settings)
    requires Sane(s) && Readable(clicks) && Disjoint(open) && AllFaithful(open, clicks, s)
    requires forall i | 0 <= i < |open| :: !open[i].c.Expired(last, s)
    ensures |open| <= |Recent(clicks, last - s.maxTSep - s.tSep, |clicks|)|
  {
    hide Tracked.Ids, Faithful, Cluster.Expired, Disjoint, Readable, Recent;
    var r := Recent(clicks, last - s.maxTSep - s.tSep, |clicks|);
    forall i | 0 <= i < |open| ensures open[i].Ids() * r != {} {
      OpenHasRecent(open[i], clicks, last, s);
    }
    DisjointOwners(open, r);
  }

  /** After any event the open clusters number at most the clicks since t_last - max_t_separation - t_sep. */
  lemma OpenBound(es: seq<Event>, s: Settings)
    requires Sane(s) && Readable(Arrivals(es)) && Arrivals(es) != []
    ensures var clicks := Arrivals(es);
      |Run(es, s).open| <= |Recent(clicks, clicks[|clicks| - 1].t - s.maxTSep - s.tSep, |clicks|)|
  {
    hide Faithful, Cluster.Expired, Run, Disjoint, Arrivals, Readable, Recent, AllFaithful;
    OpenFacts(es, s);
    RunClicks(es, s);
    var clicks := Arrivals(es);
    RecentOwners(Run(es, s).open, clicks, clicks[|clicks| - 1].t, s);
  }

  // ----- where the click ends up -----

  /** Before the sweep: n clusters contain the click, one holds it, once per cluster it was added to. */
  lemma PlacedCounts(ts: seq<Tracked>, h: Hit, s: Settings) returns (f: nat)
    requires OnlyIn(ts, |ts|, h) && Sane(s)
    ensures var us, k := Placed(ts, h, s), Count(ts, h.click);
      var n := Count(us, h.click);
      && 1 <= n <= Max(1, (k + 1) / 2) && (n == 1 <==> TailFree(ts, h.click))
      && f < |us| && us[f].c.Contains(h.click) && Times(us[f], h) == Max(1, k + 1 - n)
  {
    var r, us, p := Scan(ts, h, 0, None, s), Placed(ts, h, s), h.click;
    ScanFromStart(ts, h, 0, s);
    if r.1.Some? {
      f := r.1.value;
      CountSome(ts, p, f, |ts|);
    } else {
      f := |ts|;
      CountZero(ts, p, |ts|);
      CountZero(us, p, |ts|);
      assert us[f] == NewTracked(h, s);
      assert Count(us, p) == CountIn(us, p, 0, f) + One(us[f].c.Contains(p));
    }
  }

  /** If k open clusters contain the click, then after the whole step at least one and at most
      max(1, (k + 1) / 2) do: exactly one if and only if none of the last k - 2 open clusters contained it
      (so always for k <= 2).  The cluster that absorbed the click counts it once for each cluster it was
      added to, all that contained it but the n - 1 skipped: just once if and only if k <= 1. */
  lemma ClickPlacement(es: seq<Event>, p: Click, s: Settings)
    requires Sane(s) && Readable(Arrivals(es) + [p])
    ensures var st := Run(es, s);
      var fin, h, k := HandleClick(st, p, s).open, Hit(|st.clicks|, p), Count(st.open, p);
      var n := Count(fin, p);
      && 1 <= n <= Max(1, (k + 1) / 2) && (n == 1 <==> TailFree(st.open, p))
      && exists t | t in fin :: t.c.Contains(p) && Times(t, h) == Max(1, k + 1 - n) && (Times(t, h) == 1 <==> k <= 1)
  {
    hide Run, AllFaithful, Disjoint, OnlyIn, Arrivals, Readable, HandleClick, Count, Times, Cluster.Contains;
    var st := Run(es, s);
    RunClicks(es, s);
    OpenFacts(es, s);
    FaithfulGrows(st.open, st.clicks, p, s);
    NotYetHeld(st.open, st.clicks, p, s);
    StepPlacement(st, p, s);
  }

  lemma NotYetHeld(ts: seq<Tracked>, clicks: seq<Click>, p: Click, s: Settings)
    requires AllFaithful(ts, clicks, s)
    ensures OnlyIn(ts, |ts|, Hit(|clicks|, p))
  {
    hide Exact;
  }

  lemma StepPlacement(st: State, p: Click, s: Settings)
    requires Sane(s) && Readable(st.clicks + [p]) && AllFaithful(st.open, st.clicks + [p], s)
    requires OnlyIn(st.open, |st.open|, Hit(|st.clicks|, p))
    ensures var fin, h, k := HandleClick(st, p, s).open, Hit(|st.clicks|, p), Count(st.open, p);
      var n := Count(fin, p);
      && 1 <= n <= Max(1, (k + 1) / 2) && (n == 1 <==> TailFree(st.open, p))
      && exists t | t in fin :: t.c.Contains(p) && Times(t, h) == Max(1, k + 1 - n) && (Times(t, h) == 1 <==> k <= 1)
  {
    var h, clicks := Hit(|st.clicks|, p), st.clicks + [p];
    var placed := Placed(st.open, h, s);
    PlacedFaithful(st.open, h, s, clicks);
    var f := PlacedCounts(st.open, h, s);
    forall i | 0 <= i < |placed| && placed[i].c.Contains(p) ensures !placed[i].c.Expired(p.t, s) {
      ExpiredExact(placed[i], clicks, p.t, s);
    }
    hide Placed, Cluster.Expired, Cluster.Contains, Sweep, Count, Times, Faithful;
    SweepCount(placed, p.t, |placed|, s, p);
    UnexpiredStays(placed, f, p.t, s);
    assert placed[f] in HandleClick(st, p, s).open;
  }

  lemma UnexpiredStays(ts: seq<Tracked>, f: nat, t: nat, s: Settings)
    requires f < |ts| && !ts[f].c.Expired(t, s)
    ensures ts[f] in Sweep(ts, t, |ts|, s).0
  {
    SweepExact(ts, t, s);
    ExpiringAreExpired(ts, t, s);
    hide Cluster.Expired, Sweep;
    assert ts[f] in multiset(ts) && ts[f] !in Sweep(ts, t, |ts|, s).1;
  }

  // ----- how often a click is counted, over runs -----

  /** How often a click is counted when it arrives: with k open clusters containing it before and n after,
      once per cluster it is added to. */
  function Added(st: State, p: Click, s: Settings): nat {
    Max(1, Count(st.open, p) + 1 - Count(HandleClick(st, p, s).open, p))
  }

  /** The number for the i-th click of the run, from its own arrival. */
  function Multiplicity(es: seq<Event>, s: Settings, i: nat): nat {
    if es == [] then 0
    else
      var fs, e := es[..|es| - 1], es[|es| - 1];
      if e.Arrive? && |Run(fs, s).clicks| == i then Added(Run(fs, s), e.p, s) else Multiplicity(fs, s, i)
  }

  /** Whatever happens later does not change how often a click is counted. */
  lemma StepCopies(st: State, e: Event, s: Settings, h: Hit)
    requires h.id < |st.clicks|
    ensures Copies(Held(Step(st, e, s)), h) == Copies(Held(st), h)
  {
    hide Copies, Placed, Sweep;
    var n, before := |st.clicks|, Unwrap(st.out);
    CopiesConcat(st.open, before, h);
    if e.Arrive? {
      var placed := Placed(st.open, Hit(n, e.p), s);
      var swept := Sweep(placed, e.p.t, |placed|, s);
      PlacedCopies(st.open, Hit(n, e.p), s, h);
      SweepCopies(placed, e.p.t, |placed|, s, h);
      UnwrapWrap(st.out, swept.1, n, false);
      CopiesConcat(before, swept.1, h);
      CopiesConcat(swept.0, before + swept.1, h);
    } else {
      UnwrapWrap(st.out, st.open, n, true);
      CopiesConcat(before, st.open, h);
      CopiesConcat([], before + st.open, h);
      NoCopies(h);
    }
  }

  /** On its arrival a click is counted as Added says, all copies in one cluster. */
  lemma ArriveCopies(es: seq<Event>, p: Click, s: Settings)
    requires Sane(s) && Readable(Arrivals(es + [Arrive(p)]))
    ensures var st := Run(es, s);
      Copies(Held(Run(es + [Arrive(p)], s)), Hit(|st.clicks|, p)) == Added(st, p, s)
  {
    hide Run, Copies, Times, Count, Arrivals, Readable, Cluster.Contains, TailFree;
    var st, fin, h := Run(es, s), Run(es + [Arrive(p)], s), Hit(|Run(es, s).clicks|, p);
    ArrivalsNext(es, p);
    ClickPlacement(es, p, s);
    RunNext(es, p, s);
    RunInv(es + [Arrive(p)], s);
    hide HandleClick, AllFaithful, Disjoint, EmittedInTime, OpenInTime, AllIds;
    var n := Count(fin.open, p);
    var t :| t in fin.open && t.c.Contains(p) && Times(t, h) == Max(1, Count(st.open, p) + 1 - n);
    var k :| 0 <= k < |fin.open| && fin.open[k] == t;
    assert Held(fin)[k] == t;
    CountedHeld(t, h);
    SoleHolder(Held(fin), k, h);
  }

  lemma ArrivalsNext(es: seq<Event>, p: Click)
    ensures Arrivals(es + [Arrive(p)]) == Arrivals(es) + [p]
  {
    assert (es + [Arrive(p)])[..|es|] == es;
  }

  lemma CountedHeld(t: Tracked, h: Hit)
    requires Times(t, h) >= 1
    ensures h.id in t.Ids()
  {
  }

  lemma {:induction false} RunCopies(es: seq<Event>, s: Settings, i: nat)
    requires Sane(s) && Readable(Arrivals(es)) && i < |Run(es, s).clicks|
    ensures Copies(Held(Run(es, s)), Hit(i, Run(es, s).clicks[i])) == Multiplicity(es, s, i)
  {
    hide Step, Copies, Held, Readable, Added, Arrivals;
    if es != [] {
      var fs, e := es[..|es| - 1], es[|es| - 1];
      assert es == fs + [e];
      RunFront(fs, e, s);
      var st := Run(fs, s);
      assert Run(es, s) == Step(st, e, s);
      if e.Arrive? && |st.clicks| == i {
        ArriveCopies(fs, e.p, s);
      } else {
        RunCopies(fs, s, i);
        StepCopies(st, e, s, Hit(i, st.clicks[i]));
      }
    }
  }

  lemma RunFront(fs: seq<Event>, e: Event, s: Settings)
    requires Readable(Arrivals(fs + [e]))
    ensures Readable(Arrivals(fs))
    ensures Run(fs + [e], s).clicks == Run(fs, s).clicks + if e.Arrive? then [e.p] else []
  {
    hide Placed, Sweep, InRange;
    assert (fs + [e])[..|fs|] == fs;
    assert forall p | p in Arrivals(fs) :: p in Arrivals(fs + [e]);
  }

  /** Over every run: the cluster that holds the i-th click counts it as often as it was added to a cluster
      when it arrived. */
  lemma RunMultiplicity(es: seq<Event>, s: Settings, i: nat, k: nat)
    requires Sane(s) && Readable(Arrivals(es)) && i < |Run(es, s).clicks|
    requires k < |Held(Run(es, s))| && i in Held(Run(es, s))[k].Ids()
    ensures Times(Held(Run(es, s))[k], Hit(i, Run(es, s).clicks[i])) == Multiplicity(es, s, i)
  {
    hide Run, Copies, Times, Tracked.Ids, Held, AllIds, AllFaithful, Readable, Arrivals;
    RunInv(es, s);
    RunCopies(es, s, i);
    SoleHolder(Held(Run(es, s)), k, Hit(i, Run(es, s).clicks[i]));
  }

  // ----- several clusters left, in runs -----

  lemma {:induction false} SweepNone(ts: seq<Tracked>, t: nat, k: nat, s: Settings)
    requires k <= |ts| && forall i | 0 <= i < |ts| :: !ts[i].c.Expired(t, s)
    ensures Sweep(ts, t, k, s) == (ts, [])
  {
    if k > 0 { SweepNone(ts, t, k - 1, s); }
  }

  lemma {:induction false} ScanNone(ts: seq<Tracked>, h: Hit, cix: nat, s: Settings)
    requires cix <= |ts| && forall i | 0 <= i < |ts| :: !ts[i].c.Contains(h.click)
    ensures Scan(ts, h, cix, None, s) == (ts, None)
    decreases |ts| - cix
  {
    if cix < |ts| { ScanNone(ts, h, cix + 1, s); }
  }

  /** A click in no box, with nothing expired, opens a cluster. */
  lemma ApartClick(st: State, p: Click, s: Settings)
    requires Sane(s) && InRange(p)
    requires forall t | t in st.open :: !t.c.Contains(p) && !t.c.Expired(p.t, s)
    ensures HandleClick(st, p, s) == State(st.clicks + [p], st.open + [NewTracked(Hit(|st.clicks|, p), s)], st.out)
  {
    var h := Hit(|st.clicks|, p);
    var placed := st.open + [NewTracked(h, s)];
    hide Cluster.Contains;
    ScanNone(st.open, h, 0, s);
    assert !NewTracked(h, s).c.Expired(p.t, s);
    SweepNone(placed, p.t, |placed|, s);
    assert st.out + Wrap([], |st.clicks|, false) == st.out;
  }

  /** Three boxes that overlap although no click lies in another's box. */
  lemma Overlap(s: Settings)
    requires Sane(s) && 1 <= s.xySep < 255
    ensures var r := s.xySep + 1;
      var a, b, c, d := Click(0, 0, 0, 1), Click(r, 0, 0, 1), Click(0, r, 0, 1), Click(1, 1, 0, 1);
      var ts := [NewTracked(Hit(0, a), s), NewTracked(Hit(1, b), s), NewTracked(Hit(2, c), s)];
      && HandleClick(HandleClick(HandleClick(State([], [], []), a, s), b, s), c, s) == State([a, b, c], ts, [])
      && AllContain(ts, d)
  {
    hide HandleClick, NewTracked, Cluster.Contains, Cluster.Expired;
    var r := s.xySep + 1;
    var a, b, c, d := Click(0, 0, 0, 1), Click(r, 0, 0, 1), Click(0, r, 0, 1), Click(1, 1, 0, 1);
    var ta, tb, tc := NewTracked(Hit(0, a), s), NewTracked(Hit(1, b), s), NewTracked(Hit(2, c), s);
    forall q: Click, h: Hit | h.click.t == 0 && q.t == 0
      ensures NewTracked(h, s).c.Contains(q)
        <==> h.click.x - s.xySep <= q.x <= h.click.x + s.xySep && h.click.y - s.xySep <= q.y <= h.click.y + s.xySep
      ensures !NewTracked(h, s).c.Expired(0, s)
    {
      BoxAtZero(h, q, s);
    }
    ApartClick(State([], [], []), a, s);
    assert [] + [a] == [a] && [] + [ta] == [ta];
    ApartClick(State([a], [ta], []), b, s);
    assert [a] + [b] == [a, b] && [ta] + [tb] == [ta, tb];
    ApartClick(State([a, b], [ta, tb], []), c, s);
    assert [a, b] + [c] == [a, b, c] && [ta, tb] + [tc] == [ta, tb, tc];
  }

  lemma BoxAtZero(h: Hit, q: Click, s: Settings)
    requires Sane(s) && h.click.t == 0 && q.t == 0
    ensures NewTracked(h, s).c.Contains(q)
      <==> h.click.x - s.xySep <= q.x <= h.click.x + s.xySep && h.click.y - s.xySep <= q.y <= h.click.y + s.xySep
    ensures !NewTracked(h, s).c.Expired(0, s)
  {
  }

  /** The clicks of Overlap, as events. */
  function Apart(s: Settings): seq<Event>
    requires Sane(s)
  {
    [Arrive(Click(0, 0, 0, 1)), Arrive(Click(s.xySep + 1, 0, 0, 1)), Arrive(Click(0, s.xySep + 1, 0, 1))]
  }

  lemma OverlapRun(s: Settings)
    requires Sane(s) && 1 <= s.xySep < 255
    ensures var open, d := Run(Apart(s), s).open, Click(1, 1, 0, 1);
      |open| == 3 && AllContain(open, d) && Readable(Arrivals(Apart(s)) + [d])
  {
    hide Run, HandleClick, Cluster.Contains, NewTracked, Arrivals;
    var r := s.xySep + 1;
    Overlap(s);
    ThreeArrivals(Click(0, 0, 0, 1), Click(r, 0, 0, 1), Click(0, r, 0, 1), s);
  }

  lemma TwoOfThree(es: seq<Event>, d: Click, s: Settings)
    requires Sane(s) && Readable(Arrivals(es) + [d]) && |Run(es, s).open| == 3 && AllContain(Run(es, s).open, d)
    ensures Count(Run(es, s).open, d) == 3 && Count(Run(es + [Arrive(d)], s).open, d) == 2
  {
    hide Run, HandleClick, Cluster.Contains, Arrivals, Times, Count, TailFree, AllContain, Readable;
    CountTail(Run(es, s).open, d);
    ClickPlacement(es, d, s);
    RunNext(es, d, s);
  }

  /** More than one cluster is left in actual runs: for every separation from 1 to 254, three apart clicks
      and a fourth one in all three boxes leave two open clusters that contain the fourth. */
  lemma TwoLeft(s: Settings)
    requires Sane(s) && 1 <= s.xySep < 255
    ensures var d := Click(1, 1, 0, 1);
      Count(Run(Apart(s), s).open, d) == 3 && Count(Run(Apart(s) + [Arrive(d)], s).open, d) == 2
  {
    hide Run, Apart, Readable, AllContain, Count, Arrivals;
    OverlapRun(s);
    TwoOfThree(Apart(s), Click(1, 1, 0, 1), s);
  }

  lemma CountTail(ts: seq<Tracked>, p: Click)
    requires |ts| == 3 && AllContain(ts, p)
    ensures Count(ts, p) == 3 && !TailFree(ts, p)
  {
    CountAll(ts, p, 3);
    CountFront(ts, p, 2, 3);
  }

  lemma RunNext(es: seq<Event>, p: Click, s: Settings)
    ensures Run(es + [Arrive(p)], s) == HandleClick(Run(es, s), p, s)
  {
    hide HandleClick;
    assert (es + [Arrive(p)])[..|es|] == es;
  }

  // ----- the numbers that are published -----

  /** The word of every held cluster decodes to the floor of each ToT-weighted mean that is a number, which lies
      between the extreme hits of the cluster; with every ToT at least 1 all means are. */
  lemma HeldWord(es: seq<Event>, s: Settings, k: nat, undef: Word64)
    requires Readable(Arrivals(es)) && k < |Held(Run(es, s))|
    ensures var c := Held(Run(es, s))[k].c;
      var w := Decode(ToRaw(c, undef));
      && w.x == (if c.x.mean.Num? then c.x.mean.r.Floor else undef % 0x100)
      && w.y == (if c.y.mean.Num? then c.y.mean.r.Floor else undef % 0x100)
      && w.t == (if c.t.mean.Num? then c.t.mean.r.Floor else undef % TWO_38)
      && w.tot == 0
    ensures var t := Held(Run(es, s))[k];
      forall a: Axis :: var e := t.c.Along(a);
        e.mean.Num? ==> (e.lo + Sep(a, s)) as real <= e.mean.r <= (e.hi - Sep(a, s)) as real
    ensures (forall p | p in Arrivals(es) :: p.tot >= 1) ==> forall a: Axis :: Held(Run(es, s))[k].c.Along(a).mean.Num?
  {
    RunExact(es, s, k);
    RunClicks(es, s);
    var t := Held(Run(es, s))[k];
    hide Run, Exact;
    assert forall h | h in t.hits :: h.click in Arrivals(es);
    EmittedWord(t, s, undef);
    forall a: Axis
      ensures var e := t.c.Along(a);
        e.mean.Num? ==> (e.lo + Sep(a, s)) as real <= e.mean.r <= (e.hi - Sep(a, s)) as real
      ensures (forall p | p in Arrivals(es) :: p.tot >= 1) ==> t.c.Along(a).mean.Num?
    {
      if t.c.Along(a).mean.Num? { MeanBetween(a, t, s); }
      if forall p | p in Arrivals(es) :: p.tot >= 1 { WeightyMean(a, t, s); }
    }
  }

  /** The means are lost exactly when a click of ToT 0 joins a cluster of total ToT 0 (0.0 / 0.0). */
  lemma MeanLost(t: Tracked, h: Hit, s: Settings, a: Axis)
    requires Exact(t, s) && t.c.Along(a).mean.Num?
    ensures t.Add(h, s).c.Along(a).mean.NaN? <==> TotSum(t.hits) == 0 && h.click.tot == 0
  {
    TotSumBounds(t.hits);
    assert t.Add(h, s).c.Along(a).mean == WeightedMean(t.c.Along(a).mean, t.c.total, Num(Coord(a, h.click) as real), h.click.tot as real);
  }
}
