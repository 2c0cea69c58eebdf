/** The time-of-arrival unwrapping of UdpConnectionManager::publishRawData: a 34-bit clock is
    extended by a 4-bit counter with hysteresis around the wrap. */
module Rollover {
  import opened Words

  const QUARTER: nat := 0x1_0000_0000
  const PERIOD: nat := 4 * QUARTER

  datatype Toa = Toa(counter: nat, halfway: bool, last: nat)

  const INITIAL := Toa(0, false, 0)

  /** The state after a click whose 34-bit time is full. */
  function Next(s: Toa, full: nat): Toa {
    var halfway := s.halfway || QUARTER < full < 3 * QUARTER;
    if halfway && s.last > 3 * QUARTER && full < QUARTER
    then Toa((s.counter + 1) % 16, false, full)
    else Toa(s.counter, halfway, full)
  }

  /** The published 38-bit time: the counter after the click above the 34 bits. */
  function Stamp(s: Toa, full: nat): nat { Next(s, full).counter * PERIOD + full }

  /** resetToaRolloverCounter clears the counter and nothing else. */
  function Reset(s: Toa): Toa { s.(counter := 0) }

  // ----- against true time -----

  /** What the device did: a click at true time t (its 34-bit clock reads t % PERIOD), or a counter reset. */
  datatype Event = Click(t: nat) | CounterReset

  /** True time splits into whole periods and the 34-bit phase. */
  function Epoch(t: nat): nat { t / PERIOD }

  function Phase(t: nat): nat { t % PERIOD }

  lemma Split(t: nat)
    ensures t == Epoch(t) * PERIOD + Phase(t) && Phase(t) < PERIOD
  {
  }

  /** The reference: largest true time, true time of the last click, and the epoch of the last reset. */
  datatype Truth = Truth(max: nat, prev: nat, base: nat, started: bool)

  function Watch(w: Truth, e: Event): Truth {
    match e
    case Click(t) => Truth(if w.started then Max(w.max, t) else t, t, w.base, true)
    case CounterReset => w.(base := Epoch(w.max))
  }

  function TrulyFrom(w: Truth, es: seq<Event>): Truth {
    if es == [] then w else Watch(TrulyFrom(w, es[..|es| - 1]), es[|es| - 1])
  }

  function Truly(es: seq<Event>): Truth { TrulyFrom(Truth(0, 0, 0, false), es) }

  function TrackFrom(s: Toa, es: seq<Event>): Toa {
    if es == [] then s
    else match es[|es| - 1]
      case Click(t) => Next(TrackFrom(s, es[..|es| - 1]), Phase(t))
      case CounterReset => Reset(TrackFrom(s, es[..|es| - 1]))
  }

  function Track(es: seq<Event>): Toa { TrackFrom(INITIAL, es) }

  /** The first click comes within three quarters of a period and each further one at most j before
      and at most g after the largest time so far. */
  predicate Plausible(es: seq<Event>, j: nat, g: nat) {
    es == [] ||
    var w, e := Truly(es[..|es| - 1]), es[|es| - 1];
    && Plausible(es[..|es| - 1], j, g)
    && (e.Click? ==> if w.started then w.max - j <= e.t <= w.max + g else e.t < 3 * QUARTER)
  }

  predicate Agrees(s: Toa, w: Truth, j: nat) {
    && w.base <= Epoch(w.max) && w.max - j <= w.prev <= w.max
    && s.counter == (Epoch(w.max) - w.base) % 16
    && (s.halfway <==> Phase(w.max) > QUARTER)
    && s.last == Phase(w.prev)
  }

  /** One click, with the largest time, the last time and the new time split into epoch and phase. */
  lemma NextPhase(s: Toa, e: nat, m: nat, pe: int, p: nat, te: int, t: nat, base: nat, j: nat, g: nat)
    requires j + g < QUARTER && m < PERIOD && p < PERIOD && t < PERIOD && base <= e
    requires e * PERIOD + m - j <= pe * PERIOD + p <= e * PERIOD + m
    requires e * PERIOD + m - j <= te * PERIOD + t <= e * PERIOD + m + g
    requires s.counter == (e - base) % 16 && (s.halfway <==> m > QUARTER) && s.last == p
    ensures e - 1 <= te <= e + 1
    ensures var r := Next(s, t);
      var late := te < e || (te == e && t <= m);
      && r.counter == ((if late then e else te) - base) % 16
      && (r.halfway <==> (if late then m else t) > QUARTER)
  {
    assert e - 1 <= te <= e + 1 && e - 1 <= pe <= e;
    if te == e + 1 {
      assert pe == e && p > 3 * QUARTER && t < QUARTER && m > QUARTER;
    } else if te == e - 1 {
      assert t > 3 * QUARTER;
    } else if pe == e - 1 {
      assert m <= QUARTER;
    }
  }

  lemma NextAgrees(s: Toa, w: Truth, t: nat, j: nat, g: nat)
    requires j + g < QUARTER && w.started && Agrees(s, w, j) && w.max - j <= t <= w.max + g
    ensures Agrees(Next(s, Phase(t)), Watch(w, Click(t)), j)
    ensures Epoch(w.max) - 1 <= Epoch(t)
  {
    hide Epoch, Phase;
    Split(t);
    Split(w.max);
    Split(w.prev);
    NextPhase(s, Epoch(w.max), Phase(w.max), Epoch(w.prev), Phase(w.prev), Epoch(t), Phase(t), w.base, j, g);
  }

  /** The counter always counts the epochs of the largest time since the last reset, and the
      halfway flag says whether that time is past the first quarter of its epoch. */
  lemma {:induction false} TrackAgrees(es: seq<Event>, j: nat, g: nat)
    requires j + g < QUARTER && Plausible(es, j, g)
    ensures Truly(es).started ==> Agrees(Track(es), Truly(es), j)
    ensures !Truly(es).started ==> Track(es) == INITIAL && Truly(es) == Truth(0, 0, 0, false)
  {
    if es != [] {
      var fs, e := es[..|es| - 1], es[|es| - 1];
      TrackAgrees(fs, j, g);
      if e.Click? && Truly(fs).started {
        NextAgrees(Track(fs), Truly(fs), e.t, j, g);
      }
    }
  }

  lemma EpochOfClick(es: seq<Event>, t: nat, j: nat, g: nat)
    requires j + g < QUARTER && Plausible(es + [Click(t)], j, g)
    ensures var w := Truly(es + [Click(t)]);
      && Epoch(w.max) - 1 <= Epoch(t) <= Epoch(w.max) && w.base <= Epoch(w.max)
      && Next(Track(es), Phase(t)).counter == (Epoch(w.max) - w.base) % 16
  {
    hide Next, Epoch, Phase, Plausible;
    var fs := es + [Click(t)];
    assert fs[..|fs| - 1] == es;
    TrackAgrees(fs, j, g);
    Split(t);
    Split(Truly(fs).max);
  }

  /** The published time of a click is its true time since the last reset's epoch, modulo 2^38,
      except that a late click from before the latest wrap is stamped exactly one period too high. */
  ghost predicate StampedRight(es: seq<Event>, t: nat) {
    var w := Truly(es + [Click(t)]);
    var late := Epoch(t) < Epoch(w.max);
    && (late ==> Epoch(t) == Epoch(w.max) - 1)
    && Stamp(Track(es), Phase(t)) == (t - w.base * PERIOD + if late then PERIOD else 0) % TWO_38
  }

  lemma StampExact(es: seq<Event>, t: nat, j: nat, g: nat)
    requires j + g < QUARTER && Plausible(es + [Click(t)], j, g)
    ensures StampedRight(es, t)
  {
    hide Track, Truly, Plausible, Next, Epoch, Phase;
    EpochOfClick(es, t, j, g);
    Split(t);
    var w := Truly(es + [Click(t)]);
    StampArithmetic(Epoch(w.max) - w.base, Phase(t));
  }

  lemma StampArithmetic(n: nat, r: nat)
    requires r < PERIOD
    ensures (n % 16) * PERIOD + r == (n * PERIOD + r) % TWO_38
  {
    var q := n / 16;
    assert n * PERIOD + r == q * TWO_38 + ((n % 16) * PERIOD + r);
  }

  /** So the stamp is right exactly when the click is not from before the latest wrap. */
  lemma StampRightIff(es: seq<Event>, t: nat, j: nat, g: nat)
    requires j + g < QUARTER && Plausible(es + [Click(t)], j, g)
    ensures var w := Truly(es + [Click(t)]);
      Stamp(Track(es), Phase(t)) == (t - w.base * PERIOD) % TWO_38 <==> Epoch(t) == Epoch(w.max)
  {
    hide Track, Truly, Plausible, Stamp, Epoch, Phase;
    StampExact(es, t, j, g);
    EpochOfClick(es, t, j, g);
    var w := Truly(es + [Click(t)]);
    if Epoch(t) < Epoch(w.max) { ShiftedModulo(t - w.base * PERIOD); }
  }

  lemma ShiftedModulo(x: int)
    ensures (x + PERIOD) % TWO_38 != x % TWO_38
  {
  }

  lemma FirstPeriod(t: nat)
    requires t < 2 * PERIOD
    ensures Epoch(t) == (if t < PERIOD then 0 else 1) && Phase(t) == if t < PERIOD then t else t - PERIOD
  {
  }

  // ----- the start condition -----

  /** A stream that starts in the last quarter of a period and has not wrapped yet; otherwise as plausible. */
  predicate LateStart(es: seq<Event>, j: nat, g: nat) {
    es == [] ||
    var w, e := Truly(es[..|es| - 1]), es[|es| - 1];
    && LateStart(es[..|es| - 1], j, g)
    && (e.Click? ==> e.t < PERIOD && if w.started then w.max - j <= e.t <= w.max + g else 3 * QUARTER <= e.t)
  }

  /** Some click was in the middle half of the period, strictly. */
  predicate SawMiddle(es: seq<Event>) {
    es != [] && (SawMiddle(es[..|es| - 1]) || var e := es[|es| - 1]; e.Click? && QUARTER < Phase(e.t) < 3 * QUARTER)
  }

  lemma {:induction false} LateTrack(es: seq<Event>, j: nat, g: nat)
    requires j + g < QUARTER && LateStart(es, j, g)
    ensures var w, s := Truly(es), Track(es);
      && w.base == 0 && s.counter == 0 && (s.halfway <==> SawMiddle(es))
      && (w.started ==> 3 * QUARTER <= w.max < PERIOD && w.max - j <= w.prev <= w.max && s.last == w.prev)
      && (!w.started ==> s == INITIAL && w == Truth(0, 0, 0, false))
  {
    hide Phase, Epoch;
    FirstPeriod(0);
    if es != [] {
      var e := es[|es| - 1];
      LateTrack(es[..|es| - 1], j, g);
      FirstPeriod(Truly(es[..|es| - 1]).max);
      if e.Click? { FirstPeriod(e.t); }
    }
  }

  /** The start condition of Plausible is needed, and exactly when: a stream that starts in the last quarter
      misses its first wrap if and only if no click before the wrap was in the middle half of the period.
      The state at the wrap then agrees with true time counted from the wrap. */
  lemma LateStartMissesWrap(es: seq<Event>, t: nat, j: nat, g: nat)
    requires j + g < QUARTER && LateStart(es, j, g) && Truly(es).started && PERIOD <= t <= Truly(es).max + g
    ensures Stamp(Track(es), Phase(t)) == t <==> SawMiddle(es)
    ensures !SawMiddle(es) ==> Stamp(Track(es), Phase(t)) == t - PERIOD
    ensures Agrees(Next(Track(es), Phase(t)), Truth(t, t, if SawMiddle(es) then 0 else 1, true), j)
  {
    LateTrack(es, j, g);
    hide Track, Truly, LateStart, SawMiddle, Epoch, Phase;
    FirstPeriod(t);
  }

  // ----- continuations -----

  /** Each click at most j before and at most g after the largest time so far. */
  predicate Continues(w: Truth, es: seq<Event>, j: nat, g: nat) {
    es == [] ||
    var v, e := TrulyFrom(w, es[..|es| - 1]), es[|es| - 1];
    && Continues(w, es[..|es| - 1], j, g)
    && (e.Click? ==> v.max - j <= e.t <= v.max + g)
  }

  lemma {:induction false} TrackConcat(a: seq<Event>, b: seq<Event>)
    ensures Track(a + b) == TrackFrom(Track(a), b)
  {
    hide Next, Reset, Phase;
    if b == [] {
      assert a + b == a;
    } else {
      TrackConcat(a, b[..|b| - 1]);
      assert (a + b)[..|a + b| - 1] == a + b[..|b| - 1];
    }
  }

  /** Agreement is kept from any state in which it holds. */
  lemma {:induction false} FollowAgrees(s: Toa, w: Truth, es: seq<Event>, j: nat, g: nat)
    requires j + g < QUARTER && w.started && Agrees(s, w, j) && Continues(w, es, j, g)
    ensures TrulyFrom(w, es).started && Agrees(TrackFrom(s, es), TrulyFrom(w, es), j)
    ensures (forall e | e in es :: e.Click?) ==> TrulyFrom(w, es).base == w.base
  {
    hide Next, Phase, Epoch;
    if es != [] {
      var fs, e := es[..|es| - 1], es[|es| - 1];
      FollowAgrees(s, w, fs, j, g);
      if e.Click? { NextAgrees(TrackFrom(s, fs), TrulyFrom(w, fs), e.t, j, g); }
    }
  }

  lemma NextEpoch(s: Toa, w: Truth, t: nat, j: nat, g: nat)
    requires j + g < QUARTER && w.started && Agrees(s, w, j) && w.max - j <= t <= w.max + g
    ensures var v := Watch(w, Click(t));
      && Epoch(v.max) - 1 <= Epoch(t) <= Epoch(v.max) && v.base == w.base <= Epoch(v.max)
      && Next(s, Phase(t)).counter == (Epoch(v.max) - v.base) % 16
  {
    hide Next, Epoch, Phase;
    NextAgrees(s, w, t, j, g);
    Split(t);
    Split(w.max);
  }

  lemma NextStamp(s: Toa, w: Truth, t: nat, j: nat, g: nat)
    requires j + g < QUARTER && w.started && Agrees(s, w, j) && w.max - j <= t <= w.max + g
    ensures var v := Watch(w, Click(t));
      var late := Epoch(t) < Epoch(v.max);
      && (late ==> Epoch(t) == Epoch(v.max) - 1)
      && Stamp(s, Phase(t)) == (t - v.base * PERIOD + if late then PERIOD else 0) % TWO_38
  {
    hide Next, Epoch, Phase, Watch, Agrees;
    NextEpoch(s, w, t, j, g);
    Split(t);
    var v := Watch(w, Click(t));
    StampArithmetic(Epoch(v.max) - v.base, Phase(t));
  }

  /** The stamp of a further click, from any state that agrees with true time. */
  lemma FollowStamp(s: Toa, w: Truth, es: seq<Event>, t: nat, j: nat, g: nat)
    requires j + g < QUARTER && w.started && Agrees(s, w, j) && Continues(w, es + [Click(t)], j, g)
    ensures var v := TrulyFrom(w, es + [Click(t)]);
      var late := Epoch(t) < Epoch(v.max);
      && (late ==> Epoch(t) == Epoch(v.max) - 1)
      && Stamp(TrackFrom(s, es), Phase(t)) == (t - v.base * PERIOD + if late then PERIOD else 0) % TWO_38
  {
    hide Next, Epoch, Phase, Stamp, Watch, Agrees;
    var fs := es + [Click(t)];
    assert fs[..|fs| - 1] == es;
    FollowAgrees(s, w, es, j, g);
    NextStamp(TrackFrom(s, es), TrulyFrom(w, es), t, j, g);
  }

  /** After a late start, over every continuation: every later time is stamped as true time since the last
      reset, or, as long as there was no reset and if the first wrap was missed, since the first wrap, which is
      one period too low. */
  lemma LateStartAfter(es: seq<Event>, t: nat, more: seq<Event>, u: nat, j: nat, g: nat)
    requires j + g < QUARTER && LateStart(es, j, g) && Truly(es).started && PERIOD <= t <= Truly(es).max + g
    requires Continues(Truth(t, t, if SawMiddle(es) then 0 else 1, true), more + [Click(u)], j, g)
    ensures var v := TrulyFrom(Truth(t, t, if SawMiddle(es) then 0 else 1, true), more + [Click(u)]);
      && Stamp(Track(es + [Click(t)] + more), Phase(u))
        == (u - v.base * PERIOD + if Epoch(u) < Epoch(v.max) then PERIOD else 0) % TWO_38
      && ((forall e | e in more :: e.Click?) ==> v.base == if SawMiddle(es) then 0 else 1)
  {
    hide Track, Next, Epoch, Phase, LateStart, SawMiddle, Stamp, Agrees, Continues, Truly, TrulyFrom;
    var w := Truth(t, t, if SawMiddle(es) then 0 else 1, true);
    LateStartMissesWrap(es, t, j, g);
    OneClick(es, t);
    TrackConcat(es + [Click(t)], more);
    FollowStamp(Track(es + [Click(t)]), w, more, u, j, g);
    FollowAgrees(Track(es + [Click(t)]), w, more + [Click(u)], j, g);
    if forall e | e in more :: e.Click? {
      assert forall e | e in more + [Click(u)] :: e.Click?;
    }
  }

  lemma OneClick(es: seq<Event>, t: nat)
    ensures Track(es + [Click(t)]) == Next(Track(es), Phase(t))
  {
    assert (es + [Click(t)])[..|es + [Click(t)]| - 1] == es;
  }

  /** Both cases occur. */
  lemma LateStarts()
    ensures var es := [Click(3 * QUARTER)];
      LateStart(es, 1, 5) && Truly(es).started && !SawMiddle(es)
    ensures var es := [Click(3 * QUARTER), Click(3 * QUARTER - 1)];
      LateStart(es, 1, 5) && Truly(es).started && SawMiddle(es)
  {
    var es, fs := [Click(3 * QUARTER)], [Click(3 * QUARTER), Click(3 * QUARTER - 1)];
    assert es[..0] == [] && fs[..1] == es;
    assert LateStart([], 1, 5) && !SawMiddle([]) && Truly([]) == Truth(0, 0, 0, false);
    assert Truly(es) == Truth(3 * QUARTER, 3 * QUARTER, 0, true) && LateStart(es, 1, 5);
  }

  /** A click after a gap of any length, when the latest time is that of the last click: it is stamped right if and
      only if the epochs it is ahead are counted, modulo 16, which is one wrap when the last click was past the third
      quarter and this one is before the first, and none otherwise. */
  lemma GapExact(s: Toa, w: Truth, t: nat)
    requires w.started && Agrees(s, w, 0) && t >= w.max
    ensures Stamp(s, Phase(t)) == (t - w.base * PERIOD) % TWO_38
      <==> (Epoch(t) - Epoch(w.max)) % 16 == if Phase(w.max) > 3 * QUARTER && Phase(t) < QUARTER then 1 else 0
  {
    hide Epoch, Phase, Next;
    Split(t);
    Split(w.max);
    EpochsAscend(w.max, t);
    GapCounter(s, w, Phase(t));
    GapStamp(Epoch(w.max) - w.base, Epoch(t) - w.base, Phase(t),
             if Phase(w.max) > 3 * QUARTER && Phase(t) < QUARTER then 1 else 0);
  }

  lemma GapCounter(s: Toa, w: Truth, full: nat)
    requires Agrees(s, w, 0)
    ensures var wraps := if Phase(w.max) > 3 * QUARTER && full < QUARTER then 1 else 0;
      Next(s, full).counter == (Epoch(w.max) - w.base + wraps) % 16
  {
    hide Epoch, Phase;
  }

  lemma GapStamp(e: nat, b: nat, r: nat, wraps: nat)
    requires r < PERIOD && wraps < 16
    ensures (e + wraps) % 16 * PERIOD + r == (b * PERIOD + r) % TWO_38 <==> (b - e) % 16 == wraps
  {
    StampArithmetic(b, r);
    SameResidue(e, b, wraps);
  }

  lemma EpochsAscend(a: nat, b: nat)
    requires a <= b
    ensures Epoch(a) <= Epoch(b)
  {
    Split(a);
    Split(b);
    hide Epoch, Phase;
  }

  lemma SameResidue(e: nat, b: nat, wraps: nat)
    ensures (e + wraps) % 16 == b % 16 <==> (b - e) % 16 == wraps % 16
  {
  }

  // ----- the disorder bound -----

  ghost predicate AlwaysRight(j: nat, g: nat) {
    forall es: seq<Event>, t: nat | Plausible(es + [Click(t)], j, g) :: StampedRight(es, t)
  }

  /** 3Q - 1, 3Q, ..., tick by tick. */
  function Climb(n: nat): (es: seq<Event>)
    ensures |es| == n + 1
  {
    if n == 0 then [Click(3 * QUARTER - 1)] else Climb(n - 1) + [Click(3 * QUARTER - 1 + n)]
  }

  lemma ClimbStart(j: nat, g: nat)
    ensures var es, top := Climb(0), 3 * QUARTER - 1;
      Plausible(es, j, g) && Track(es) == Toa(0, true, top) && Truly(es) == Truth(top, top, 0, true)
  {
    var es := Climb(0);
    assert es[..0] == [] && Truly([]) == Truth(0, 0, 0, false) && Track([]) == INITIAL;
  }

  lemma ClimbStep(top: nat)
    requires 3 * QUARTER <= top < PERIOD
    ensures Next(Toa(0, true, top - 1), Phase(top)) == Toa(0, true, top)
    ensures Watch(Truth(top - 1, top - 1, 0, true), Click(top)) == Truth(top, top, 0, true)
  {
  }

  lemma {:induction false} ClimbTrack(n: nat, j: nat, g: nat)
    requires n <= QUARTER && g >= 1
    ensures var es, top := Climb(n), 3 * QUARTER - 1 + n;
      Plausible(es, j, g) && Track(es) == Toa(0, true, top) && Truly(es) == Truth(top, top, 0, true)
  {
    hide Plausible, Truly, Track, Phase, Epoch, Next, Watch;
    if n == 0 {
      ClimbStart(j, g);
    } else {
      ClimbTrack(n - 1, j, g);
      ClimbStep(3 * QUARTER - 1 + n);
      PlausibleNext(Climb(n - 1), 3 * QUARTER - 1 + n, j, g);
    }
  }

  lemma PlausibleNext(es: seq<Event>, t: nat, j: nat, g: nat)
    requires Plausible(es, j, g) && Truly(es).started && Truly(es).max - j <= t <= Truly(es).max + g
    ensures Plausible(es + [Click(t)], j, g)
    ensures Truly(es + [Click(t)]) == Watch(Truly(es), Click(t))
    ensures Track(es + [Click(t)]) == Next(Track(es), Phase(t))
  {
    assert (es + [Click(t)])[..|es + [Click(t)]| - 1] == es;
  }

  /** With j + g a whole quarter or more: up to 3Q + j, back to 3Q, and on to the wrap, which is not counted. */
  lemma WrapMissed(j: nat, g: nat)
    requires g >= 1 && j + g >= QUARTER
    ensures !AlwaysRight(j, g)
  {
    hide Climb, Plausible, Track, Truly, Next, Stamp, Phase, Epoch;
    var k := if j < QUARTER then j else QUARTER - 1;  // the wrap is at most g after 3Q + k
    var es := Climb(k + 1);
    ClimbTrack(k + 1, j, g);
    PlausibleNext(es, 3 * QUARTER, j, g);
    var fs := es + [Click(3 * QUARTER)];
    TrackBack(Toa(0, true, 3 * QUARTER + k));
    PlausibleNext(fs, PERIOD, j, g);
    NotCounted(fs, k);
  }

  lemma TrackBack(s: Toa)
    requires s.counter == 0 && s.halfway
    ensures Next(s, Phase(3 * QUARTER)) == Toa(0, true, 3 * QUARTER)
  {
  }

  lemma NotCounted(fs: seq<Event>, k: nat)
    requires k < QUARTER && Track(fs) == Toa(0, true, 3 * QUARTER)
    requires Truly(fs + [Click(PERIOD)]) == Truth(PERIOD, PERIOD, 0, true)
    ensures !StampedRight(fs, PERIOD)
  {
    hide Track, Truly;
  }

  /** Without any gap the largest time never grows, and no time is ever unwrapped. */
  lemma {:induction false} NoGap(es: seq<Event>, j: nat)
    requires Plausible(es, j, 0)
    ensures var w, s := Truly(es), Track(es);
      && w.base == 0 && s.counter == 0 && s.last < 3 * QUARTER && w.max < 3 * QUARTER
      && (!w.started ==> s == INITIAL && w == Truth(0, 0, 0, false))
  {
    hide Phase, Epoch;
    FirstPeriod(0);
    if es != [] {
      var e := es[|es| - 1];
      NoGap(es[..|es| - 1], j);
      FirstPeriod(Truly(es[..|es| - 1]).max);
      if e.Click? { FirstPeriod(e.t); }
    }
  }

  lemma PlausibleFront(es: seq<Event>, j: nat, g: nat)
    requires es != [] && Plausible(es, j, g)
    ensures Plausible(es[..|es| - 1], j, g)
  {
  }

  lemma TrulyNext(es: seq<Event>, t: nat)
    ensures Truly(es + [Click(t)]) == Watch(Truly(es), Click(t))
  {
    assert (es + [Click(t)])[..|es + [Click(t)]| - 1] == es;
  }

  lemma NoGapRight(es: seq<Event>, t: nat, j: nat)
    requires Plausible(es + [Click(t)], j, 0)
    ensures StampedRight(es, t)
  {
    hide Phase, Epoch, Track, Truly, Plausible;
    var fs := es + [Click(t)];
    assert fs[..|fs| - 1] == es && fs[|fs| - 1] == Click(t);
    PlausibleFront(fs, j, 0);
    NoGap(es, j);
    NoGap(fs, j);
    assert Truly(fs) == Watch(Truly(es), Click(t)) by { TrulyNext(es, t); }
    FirstPeriod(t);
    FirstPeriod(Truly(fs).max);
  }

  /** The bound j + g < QUARTER is exact: every plausible stream is stamped right if and only if it holds
      or there is no gap at all. */
  lemma DisorderBoundExact(j: nat, g: nat)
    ensures AlwaysRight(j, g) <==> j + g < QUARTER || g == 0
  {
    hide StampedRight, Plausible;
    if j + g < QUARTER {
      forall es: seq<Event>, t: nat | Plausible(es + [Click(t)], j, g) ensures StampedRight(es, t) {
        StampExact(es, t, j, g);
      }
    } else if g == 0 {
      forall es: seq<Event>, t: nat | Plausible(es + [Click(t)], j, g) ensures StampedRight(es, t) {
        NoGapRight(es, t, j);
      }
    } else {
      WrapMissed(j, g);
    }
  }
}
