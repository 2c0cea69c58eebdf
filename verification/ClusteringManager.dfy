/** The clustering thread's objects, updated in place as ClusteringManager.cpp updates them. */
module Clustering {
  import opened Words
  import opened Clusters
  import opened Scans
  import opened ClusterRuns
  import opened Packets
  import ByteOrder

  function Bare(ts: seq<Tracked>): seq<Cluster> {
    seq(|ts|, i requires 0 <= i < |ts| => ts[i].c)
  }

  function RawWords(es: seq<Emitted>, undef: Word64): seq<Word64> {
    seq(|es|, i requires 0 <= i < |es| => ToRaw(es[i].t.c, undef))
  }

  function Clicks(data: seq<Word64>): seq<Event> {
    seq(|data|, i requires 0 <= i < |data| => Arrive(Decode(data[i])))
  }

  /** A batch stands for one click per word, in order, and each word is the packing of its click. */
  lemma {:induction false} ClicksPacked(data: seq<Word64>)
    ensures |Clicks(data)| == |data| == |Arrivals(Clicks(data))|
    ensures forall i | 0 <= i < |data| ::
      InRange(Arrivals(Clicks(data))[i]) && Pack(Arrivals(Clicks(data))[i]) == data[i]
  {
    hide Decode, InRange, Pack;
    if data != [] {
      var n := |data| - 1;
      ClicksPacked(data[..n]);
      assert Clicks(data)[..n] == Clicks(data[..n]);
      DecodePack(data[n]);
      assert forall i | 0 <= i < n :: data[..n][i] == data[i];
    }
  }

  function Pointer(set_: bool, slot: nat): Option<nat> { if set_ then Some(slot) else None }

  lemma BareRemove(ts: seq<Tracked>, i: nat)
    requires i < |ts|
    ensures Bare(Remove(ts, i)) == Remove(Bare(ts), i)
  {
  }

  lemma BareGrow(ts: seq<Tracked>, cix: nat, h: Hit, s: Settings)
    requires cix < |ts|
    ensures Bare(ts[cix := ts[cix].Add(h, s)]) == Bare(ts)[cix := ts[cix].c.WithClick(h.click, s)]
  {
  }

  lemma BareAbsorb(ts: seq<Tracked>, l: nat, cix: nat, h: Hit, s: Settings)
    requires l < cix < |ts|
    ensures var grown := ts[cix].c.WithClick(h.click, s);
      Bare(Absorb(ts, l, cix, h, s)) == Remove(Bare(ts)[cix := grown][l := ts[l].c.WithCluster(grown)], cix)
  {
    var grown := ts[cix].Add(h, s);
    var us := ts[l := ts[l].Merge(grown)];
    BareRemove(us, cix);
    assert Bare(us) == Bare(ts)[l := ts[l].c.WithCluster(grown.c)];
  }

  lemma NoWords(undef: Word64)
    ensures RawWords(Wrap([], 0, false), undef) == []
  {
  }

  lemma WordsMore(ts: seq<Tracked>, t: Tracked, undef: Word64)
    ensures RawWords(Wrap(ts + [t], 0, false), undef) == RawWords(Wrap(ts, 0, false), undef) + [ToRaw(t.c, undef)]
  {
    hide ToRaw;
  }

  /** ClusterList: the vector of open clusters.  A `Cluster&` into it is a slot number. */
  class ClusterList {
    var list: seq<Cluster>

    constructor ()
      ensures list == []
    {
      list := [];
    }

    method Add(c: Cluster)
      modifies this
      ensures list == old(list) + [c]
    {
      list := list + [c];
    }

    method RemoveAt(ix: nat)
      requires ix < |list|
      modifies this
      ensures list == Remove(old(list), ix)
    {
      if |list| > 1 {
        list := list[ix := list[|list| - 1]][|list| - 1 := list[ix]];
        list := list[..|list| - 1];
      } else {
        list := [];
      }
    }

    /** Cluster::addClick on slot ix: the means first, while tot_total is still the old total. */
    method AddClick(ix: nat, p: Click, s: Settings)
      requires ix < |list|
      modifies this
      ensures list == old(list)[ix := old(list)[ix].WithClick(p, s)]
    {
      var c := list[ix];
      c := c.(x := c.x.(mean := WeightedMean(c.x.mean, c.total, Num(p.x as real), p.tot as real)));
      c := c.(y := c.y.(mean := WeightedMean(c.y.mean, c.total, Num(p.y as real), p.tot as real)));
      c := c.(t := c.t.(mean := WeightedMean(c.t.mean, c.total, Num(p.t as real), p.tot as real)));
      c := c.(total := c.total + p.tot as real);
      c := c.(x := c.x.(lo := Min(c.x.lo, p.x - s.xySep), hi := Max(c.x.hi, p.x + s.xySep)));
      c := c.(y := c.y.(lo := Min(c.y.lo, p.y - s.xySep), hi := Max(c.y.hi, p.y + s.xySep)));
      c := c.(t := c.t.(lo := Min(c.t.lo, p.t - s.tSep), hi := Max(c.t.hi, p.t + s.tSep)));
      list := list[ix := c];
    }

    /** Cluster::addCluster: slot ix absorbs slot from. */
    method AddCluster(ix: nat, from: nat)
      requires ix < |list| && from < |list|
      modifies this
      ensures list == old(list)[ix := old(list)[ix].WithCluster(old(list)[from])]
    {
      var c, o := list[ix], list[from];
      c := c.(x := c.x.(mean := WeightedMean(c.x.mean, c.total, o.x.mean, o.total)));
      c := c.(y := c.y.(mean := WeightedMean(c.y.mean, c.total, o.y.mean, o.total)));
      c := c.(t := c.t.(mean := WeightedMean(c.t.mean, c.total, o.t.mean, o.total)));
      c := c.(total := c.total + o.total);
      c := c.(x := c.x.(lo := Min(c.x.lo, o.x.lo), hi := Max(c.x.hi, o.x.hi)));
      c := c.(y := c.y.(lo := Min(c.y.lo, o.y.lo), hi := Max(c.y.hi, o.y.hi)));
      c := c.(t := c.t.(lo := Min(c.t.lo, o.t.lo), hi := Max(c.t.hi, o.t.hi)));
      list := list[ix := c];
    }
  }

  class ClusteringManager {
    const settings: Settings
    const undef: Word64  // what the platform makes of casting a NaN
    const open: ClusterList
    var file: Option<seq<Byte>>
    ghost var events: seq<Event>

    ghost predicate Valid()
      reads this, open
    {
      open.list == Bare(Run(events, settings).open)
    }

    constructor (s: Settings, u: Word64)
      ensures Valid() && events == [] && settings == s && file == None && fresh(open)
    {
      settings := s;
      undef := u;
      open := new ClusterList();
      file := None;
      events := [];
    }

    /** The first inner loop of handlePackets and the creation of a cluster when nothing matched. */
    method PlaceClick(click: Click, ghost ts: seq<Tracked>, ghost id: nat)
      requires open.list == Bare(ts)
      modifies open
      ensures open.list == Bare(Placed(ts, Hit(id, click), settings))
    {
      ghost var h, us := Hit(id, click), ts;
      ghost var result := Scan(ts, h, 0, None, settings);
      hide Cluster.WithClick, Cluster.WithCluster, Cluster.Contains, Absorb;
      var inCluster, last, cix := false, 0, 0;
      while cix < |open.list|
        invariant open.list == Bare(us) && (inCluster ==> last < cix && last < |us|)
        invariant cix <= |us| + 1
        invariant result == if cix <= |us| then Scan(us, h, cix, Pointer(inCluster, last), settings)
                            else (us, Pointer(inCluster, last))
        decreases |us| + 1 - cix
      {
        if open.list[cix].Contains(click) {
          if inCluster {
            BareAbsorb(us, last, cix, h, settings);
            us := Absorb(us, last, cix, h, settings);
          } else {
            BareGrow(us, cix, h, settings);
            us := us[cix := us[cix].Add(h, settings)];
          }
          open.AddClick(cix, click, settings);
          if inCluster {
            open.AddCluster(last, cix);
            open.RemoveAt(cix);
          } else {
            inCluster := true;
            last := cix;
          }
        }
        cix := cix + 1;
      }
      if !inCluster {
        open.Add(NewCluster(click, settings));
      }
    }

    /** The reverse sweep of handlePackets. */
    method Expire(click: Click, ghost ts: seq<Tracked>) returns (output: seq<Word64>)
      requires open.list == Bare(ts)
      modifies open
      ensures var r := Sweep(ts, click.t, |ts|, settings);
        open.list == Bare(r.0) && output == RawWords(Wrap(r.1, 0, false), undef)
    {
      hide ToRaw, Cluster.Expired, Remove, RawWords, Wrap;
      output := [];
      ghost var us, gone := ts, [];
      NoWords(undef);
      var cix := |open.list| - 1;
      while cix >= 0
        invariant -1 <= cix < |us| && open.list == Bare(us)
        invariant output == RawWords(Wrap(gone, 0, false), undef)
        invariant var r, r0 := Sweep(us, click.t, cix + 1, settings), Sweep(ts, click.t, |ts|, settings);
          r.0 == r0.0 && gone + r.1 == r0.1
      {
        if open.list[cix].Expired(click.t, settings) {
          output := output + [ToRaw(open.list[cix], undef)];
          open.RemoveAt(cix);
          BareRemove(us, cix);
          WordsMore(gone, us[cix], undef);
          ghost var rest := Sweep(Remove(us, cix), click.t, cix, settings).1;
          assert gone + ([us[cix]] + rest) == gone + [us[cix]] + rest;
          gone, us := gone + [us[cix]], Remove(us, cix);
        }
        cix := cix - 1;
      }
      assert gone + [] == gone;
    }

    /** One iteration of the outer loop of handlePackets. */
    method HandleOne(click: Click) returns (output: seq<Word64>)
      requires Valid()
      modifies this`events, open
      ensures Valid() && events == old(events) + [Arrive(click)]
      ensures var before, after := Run(old(events), settings).out, Run(events, settings).out;
        before <= after && output == RawWords(after[|before|..], undef)
    {
      ghost var st := Run(events, settings);
      ghost var placed := Placed(st.open, Hit(|st.clicks|, click), settings);
      PlaceClick(click, st.open, |st.clicks|);
      output := Expire(click, placed);
      events := events + [Arrive(click)];
      assert events[..|events| - 1] == old(events);
      assert Run(events, settings) == HandleClick(st, click, settings);
    }

    /** Every word of the batch is handled; what the sweeps push out is output, and appended to the
        file in big-endian order when one is open. */
    method HandlePackets(data: seq<Word64>) returns (output: seq<Word64>)
      requires Valid()
      modifies this, open
      ensures Valid() && events == old(events) + Clicks(data)
      ensures var before, after := Run(old(events), settings).out, Run(events, settings).out;
        before <= after && output == RawWords(after[|before|..], undef)
      ensures file == if old(file).None? then None else Some(old(file).value + ByteOrder.BigEndianAll(output))
    {
      output := [];
      ghost var before := Run(events, settings).out;
      hide Run, ToRaw;
      for ix := 0 to |data|
        invariant Valid() && events == old(events) + Clicks(data[..ix]) && file == old(file)
        invariant before <= Run(events, settings).out
        invariant output == RawWords(Run(events, settings).out[|before|..], undef)
      {
        var gone := HandleOne(Decode(data[ix]));
        output := output + gone;
        assert Clicks(data[..ix + 1]) == Clicks(data[..ix]) + [Arrive(Decode(data[ix]))];
      }
      assert data[..|data|] == data;
      if output != [] && file.Some? {
        Save(output);
      } else if file.Some? {
        assert file.value + ByteOrder.BigEndianAll([]) == file.value;
      }
    }

    /** The file-writing loop at the end of handlePackets. */
    method Save(output: seq<Word64>)
      requires file.Some?
      modifies this`file
      ensures file == Some(old(file).value + ByteOrder.BigEndianAll(output))
    {
      assert output[..0] == [] && output[..|output|] == output;
      assert file.value + ByteOrder.BigEndianAll([]) == file.value;
      for ix := 0 to |output|
        invariant file == Some(old(file).value + ByteOrder.BigEndianAll(output[..ix]))
      {
        ByteOrder.HtonllStoresBigEndian(output[ix]);
        assert output[..ix + 1][..ix] == output[..ix];
        assert (old(file).value + ByteOrder.BigEndianAll(output[..ix])) + ByteOrder.BigEndian(output[ix])
          == old(file).value + ByteOrder.BigEndianAll(output[..ix + 1]);
        file := Some(file.value + ByteOrder.StoredBytes(ByteOrder.Htonll(output[ix])));
      }
    }

    /** Every open cluster is output, in list order, and the list is emptied; the file is not written. */
    method FlushOpen() returns (output: seq<Word64>)
      requires Valid()
      modifies this, open
      ensures Valid() && events == old(events) + [Flush] && open.list == [] && file == old(file)
      ensures var before, after := Run(old(events), settings).out, Run(events, settings).out;
        before <= after && output == RawWords(after[|before|..], undef)
      ensures |output| == |old(open.list)| && forall i | 0 <= i < |output| :: output[i] == ToRaw(old(open.list)[i], undef)
    {
      output := [];
      ghost var st := Run(events, settings);
      for cix := 0 to |open.list|
        invariant output == RawWords(Wrap(st.open[..cix], |st.clicks|, true), undef)
        invariant Valid() && events == old(events) && open.list == old(open.list)
      {
        output := output + [ToRaw(open.list[cix], undef)];
      }
      assert st.open[..|open.list|] == st.open;
      open.list := [];
      events := events + [Flush];
      assert events[..|events| - 1] == old(events);
    }
  }
}
