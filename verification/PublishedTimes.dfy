/** The times in the published words against the true times, through non-click words and counter resets. */
module PublishedTimes {
  import opened Words
  import opened Rollover
  import opened RawPackets
  import Packets

  /** What the rollover code gets to see of a chunk: the 34-bit times of its click words. */
  function Heard(ws: seq<Word64>): seq<Event> {
    if ws == [] then []
    else Heard(ws[..|ws| - 1]) + if IsClick(ws[|ws| - 1]) then [Click(FullToa(ws[|ws| - 1]))] else []
  }

  /** What it gets to see of the true events. */
  function Observed(es: seq<Event>): (r: seq<Event>)
    ensures |r| == |es|
  {
    if es == [] then []
    else
      var e := es[|es| - 1];
      Observed(es[..|es| - 1]) + [if e.Click? then Click(Phase(e.t)) else e]
  }

  /** The stamp of each click, given all events before it. */
  function StampsOf(es: seq<Event>): (r: seq<nat>)
    ensures |r| == NumClicks(es)
  {
    if es == [] then []
    else
      var fs, e := es[..|es| - 1], es[|es| - 1];
      StampsOf(fs) + if e.Click? then [Stamp(Track(fs), Phase(e.t))] else []
  }

  function NumClicks(es: seq<Event>): nat {
    if es == [] then 0 else NumClicks(es[..|es| - 1]) + if es[|es| - 1].Click? then 1 else 0
  }

  function TimesOf(ws: seq<Word64>): seq<nat> {
    seq(|ws|, i requires 0 <= i < |ws| => Packets.Time(ws[i]))
  }

  lemma {:induction false} TrackValid(es: seq<Event>)
    ensures Valid(Track(es))
  {
    hide Phase;
    if es != [] { TrackValid(es[..|es| - 1]); }
  }

  lemma EmitTime(s: Toa, w: Word64)
    requires Valid(s) && IsClick(w)
    ensures |Emit(s, w)| == 1 && Packets.Time(Emit(s, w)[0]) == Stamp(s, FullToa(w))
    ensures Advance(s, w) == Next(s, FullToa(w)) && FullToa(w) < PERIOD
  {
    PublishedInRange(s, w);
    Packets.PackDecode(Published(s, w));
    hide FullToa, Next;
  }

  lemma EmitStamp(s: Toa, w: Word64)
    requires Valid(s) && IsClick(w)
    ensures TimesOf(Emit(s, w)) == [Stamp(s, FullToa(w))] && Advance(s, w) == Next(s, FullToa(w))
    ensures Phase(FullToa(w)) == FullToa(w)
  {
    hide FullToa, Next, Packets.Time, Emit, Advance, Stamp, IsClick;
    EmitTime(s, w);
  }

  lemma OneMore(es: seq<Event>, e: Event)
    ensures Track(es + [e]) == (if e.Click? then Next(Track(es), Phase(e.t)) else Reset(Track(es)))
    ensures StampsOf(es + [e]) == StampsOf(es) + if e.Click? then [Stamp(Track(es), Phase(e.t))] else []
  {
    hide Phase, Next, Reset, Stamp;
    assert (es + [e])[..|es + [e]| - 1] == es;
  }

  /** Publishing a chunk after any history: the state follows the history, and the times in the words are
      the stamps of its clicks. */
  lemma {:induction false} PublishTracks(h: seq<Event>, ws: seq<Word64>)
    ensures Valid(Track(h))
    ensures Publish(Track(h), ws).0 == Track(h + Heard(ws))
    ensures StampsOf(h + Heard(ws)) == StampsOf(h) + TimesOf(Publish(Track(h), ws).1)
  {
    hide Phase, FullToa, Stamp, Next, IsClick, Track, StampsOf, Packets.Time, Packets.Pack, Published;
    TrackValid(h);
    if ws == [] {
      assert h + [] == h && StampsOf(h) + [] == StampsOf(h);
    } else {
      var n := |ws| - 1;
      PublishTracks(h, ws[..n]);
      var r, g := Publish(Track(h), ws[..n]), h + Heard(ws[..n]);
      TimesConcat(r.1, Emit(r.0, ws[n]));
      if IsClick(ws[n]) {
        EmitStamp(r.0, ws[n]);
        OneMore(g, Click(FullToa(ws[n])));
        assert h + Heard(ws) == g + [Click(FullToa(ws[n]))];
      } else {
        assert h + Heard(ws) == g + [] == g && r.1 + [] == r.1;
      }
    }
  }

  lemma TimesConcat(a: seq<Word64>, b: seq<Word64>)
    ensures TimesOf(a + b) == TimesOf(a) + TimesOf(b)
  {
    hide Packets.Time;
  }

  lemma {:induction false} ObservedSame(es: seq<Event>)
    ensures Track(Observed(es)) == Track(es) && StampsOf(Observed(es)) == StampsOf(es)
  {
    hide Phase, Next, Stamp, Reset;
    if es == [] {
      assert Observed(es) == [];
    } else {
      var fs, e := es[..|es| - 1], es[|es| - 1];
      ObservedSame(fs);
      var o := if e.Click? then Click(Phase(e.t)) else e;
      OneMore(Observed(fs), o);
      if e.Click? { PhaseTwice(e.t); }
    }
  }

  lemma PhaseTwice(t: nat)
    ensures Phase(Phase(t)) == Phase(t)
  {
  }

  lemma {:induction false} StampAt(es: seq<Event>, i: nat)
    requires i < |es| && es[i].Click?
    ensures var k := NumClicks(es[..i]);
      k < NumClicks(es) && StampsOf(es)[k] == Stamp(Track(es[..i]), Phase(es[i].t))
  {
    hide Phase, Stamp, Track;
    var n := |es| - 1;
    if i < n {
      StampAt(es[..n], i);
      assert es[..n][..i] == es[..i];
    }
  }

  /** The published times against the true ones, for words published over the given history: the word of each
      click carries its true time since the last reset's epoch modulo 2^38, or exactly one 34-bit period more
      when the click is from before the latest wrap. */
  lemma PublishedTimeExact(history: seq<Event>, published: seq<Word64>, es: seq<Event>, i: nat, j: nat, g: nat)
    requires TimesOf(published) == StampsOf(history) && history == Observed(es)
    requires i < |es| && es[i].Click? && j + g < QUARTER && Plausible(es[..i + 1], j, g)
    ensures var k, w := NumClicks(es[..i]), Truly(es[..i + 1]);
      && k < |published|
      && Packets.Time(published[k])
        == (es[i].t - w.base * PERIOD + if Epoch(es[i].t) < Epoch(w.max) then PERIOD else 0) % TWO_38
  {
    hide Track, Truly, Plausible, Stamp, Epoch, Phase, Packets.Time, StampsOf, Observed;
    ObservedSame(es);
    StampAt(es, i);
    var k := NumClicks(es[..i]);
    assert |StampsOf(es)| == |published| && StampsOf(es)[k] == TimesOf(published)[k];
    assert es[..i + 1] == es[..i] + [Click(es[i].t)];
    StampExact(es[..i], es[i].t, j, g);
  }
}
