/** The histogram thread: 16-bit bins per pixel, published and cleared from time to time. */
module Histograms {
  import opened Words
  import opened Packets

  const BINS: nat := 0x1_0000
  const WRAP: nat := 0x1_0000  // a bin is a uint16_t

  function BinOf(w: Word64): (b: nat)
    ensures b < BINS
  {
    X(w) + Y(w) * 256
  }

  /** Each pixel has a bin of its own. */
  lemma BinsDistinct(v: Word64, w: Word64)
    ensures BinOf(w) % 256 == X(w) && BinOf(w) / 256 == Y(w)
    ensures BinOf(v) == BinOf(w) <==> X(v) == X(w) && Y(v) == Y(w)
  {
    Place(X(v), Y(v));
    Place(X(w), Y(w));
  }

  lemma Place(x: nat, y: nat)
    requires x < 256
    ensures (x + y * 256) % 256 == x && (x + y * 256) / 256 == y
  {
  }

  /** How many packets hit the pixel. */
  function Count(ws: seq<Word64>, bin: nat): nat {
    if ws == [] then 0 else Count(ws[..|ws| - 1], bin) + if BinOf(ws[|ws| - 1]) == bin then 1 else 0
  }

  function Joined(batches: seq<seq<Word64>>): seq<Word64> {
    if batches == [] then [] else Joined(batches[..|batches| - 1]) + batches[|batches| - 1]
  }

  function BinSum(frames: seq<seq<nat>>, bin: nat): nat
    requires forall f | f in frames :: |f| == BINS
    requires bin < BINS
  {
    if frames == [] then 0 else BinSum(frames[..|frames| - 1], bin) + frames[|frames| - 1][bin]
  }

  /** A frame of bins that counted the packets, modulo the width of a bin. */
  ghost predicate Counts(frame: seq<nat>, ws: seq<Word64>) {
    |frame| == BINS && forall b | 0 <= b < BINS :: frame[b] == Count(ws, b) % WRAP
  }

  ghost predicate AllCount(frames: seq<seq<nat>>, batches: seq<seq<Word64>>) {
    |frames| == |batches| && forall k | 0 <= k < |frames| :: Counts(frames[k], batches[k])
  }

  lemma {:induction false} CountConcat(a: seq<Word64>, b: seq<Word64>, bin: nat)
    ensures Count(a + b, bin) == Count(a, bin) + Count(b, bin)
  {
    hide BinOf;
    if b == [] {
      assert a + b == a;
    } else {
      CountConcat(a, b[..|b| - 1], bin);
      assert (a + b)[..|a + b| - 1] == a + b[..|b| - 1];
    }
  }

  ghost predicate NoOverflow(batches: seq<seq<Word64>>, bin: nat) {
    forall k | 0 <= k < |batches| :: Count(batches[k], bin) <= 65535
  }

  lemma LastOverflow(batches: seq<seq<Word64>>, bin: nat)
    requires batches != []
    ensures var n := |batches| - 1;
      NoOverflow(batches, bin) <==> NoOverflow(batches[..n], bin) && Count(batches[n], bin) < WRAP
  {
    hide Count;
    var n := |batches| - 1;
    assert forall k | 0 <= k < n :: batches[..n][k] == batches[k];
  }

  lemma FrontCounts(frames: seq<seq<nat>>, batches: seq<seq<Word64>>)
    requires AllCount(frames, batches) && frames != []
    ensures var n := |frames| - 1;
      |batches| == n + 1 && AllCount(frames[..n], batches[..n]) && Counts(frames[n], batches[n])
    ensures forall f | f in frames :: |f| == BINS
  {
    hide Count;
  }

  lemma LastFrame(frames: seq<seq<nat>>, batches: seq<seq<Word64>>, bin: nat)
    requires AllCount(frames, batches) && frames != [] && bin < BINS
    ensures var n := |frames| - 1; BinSum(frames, bin) == BinSum(frames[..n], bin) + Count(batches[n], bin) % WRAP
  {
    hide AllCount, Count;
    FrontCounts(frames, batches);
  }

  /** The published bins of a pixel add up to the packets that hit it modulo 2^16, never exceed
      them, and add up to exactly them if and only if no frame let the bin overflow. */
  lemma {:induction false} Conservation(frames: seq<seq<nat>>, batches: seq<seq<Word64>>, bin: nat)
    requires AllCount(frames, batches) && bin < BINS
    ensures BinSum(frames, bin) % 65536 == Count(Joined(batches), bin) % 65536
    ensures BinSum(frames, bin) <= Count(Joined(batches), bin)
    ensures BinSum(frames, bin) == Count(Joined(batches), bin) <==> NoOverflow(batches, bin)
  {
    hide Count, Counts, NoOverflow, AllCount, BinSum, Joined;
    if frames == [] {
      NothingPublished(frames, batches, bin);
    } else {
      var n := |frames| - 1;
      FrontCounts(frames, batches);
      LastFrame(frames, batches, bin);
      LastBatch(batches, bin);
      LastOverflow(batches, bin);
      Conservation(frames[..n], batches[..n], bin);
      ModuloSum(BinSum(frames[..n], bin), Count(Joined(batches[..n]), bin), Count(batches[n], bin));
    }
  }

  lemma NothingPublished(frames: seq<seq<nat>>, batches: seq<seq<Word64>>, bin: nat)
    requires AllCount(frames, batches) && bin < BINS && frames == []
    ensures BinSum(frames, bin) == 0 && Count(Joined(batches), bin) == 0 && NoOverflow(batches, bin)
  {
  }

  lemma LastBatch(batches: seq<seq<Word64>>, bin: nat)
    requires batches != []
    ensures var n := |batches| - 1;
      Count(Joined(batches), bin) == Count(Joined(batches[..n]), bin) + Count(batches[n], bin)
  {
    hide Count;
    CountConcat(Joined(batches[..|batches| - 1]), batches[|batches| - 1], bin);
  }

  lemma {:induction false} CountSame(w: Word64, n: nat)
    ensures Count(seq(n, i => w), BinOf(w)) == n
  {
    hide BinOf;
    if n > 0 {
      CountSame(w, n - 1);
      assert seq(n, i => w)[..n - 1] == seq(n - 1, i => w);
    }
  }

  /** Overflow occurs: 65536 packets of one pixel in a frame leave its bin at zero. */
  lemma OverflowOccurs(w: Word64, frame: seq<nat>)
    requires Counts(frame, seq(65536, i => w))
    ensures var batch := seq(65536, i => w);
      && AllCount([frame], [batch]) && !NoOverflow([batch], BinOf(w))
      && BinSum([frame], BinOf(w)) == 0 && Count(Joined([batch]), BinOf(w)) == 65536
  {
    hide BinOf;
    var batch := seq(65536, i => w);
    CountSame(w, 65536);
    assert [batch][..0] == [] && [frame][..0] == [];
    assert Joined([batch]) == [] + batch == batch;
  }

  lemma ModuloSum(a: nat, b: nat, c: nat)
    requires a % WRAP == b % WRAP
    ensures (a + c % WRAP) % WRAP == (b + c) % WRAP
    ensures c % WRAP <= c && (c % WRAP == c <==> c < WRAP)
  {
  }

  class HistogramManager {
    const histogram: array<nat>
    ghost var frames: seq<seq<nat>>          // what was published
    ghost var batches: seq<seq<Word64>>      // the packets counted for each published frame
    ghost var current: seq<Word64>           // the packets counted since

    ghost predicate Valid()
      reads this, histogram
    {
      histogram.Length == BINS && Counts(histogram[..], current) && AllCount(frames, batches)
    }

    constructor ()
      ensures Valid() && frames == [] && current == [] && fresh(histogram)
    {
      histogram := new nat[BINS](i => 0);
      frames, batches, current := [], [], [];
    }

    /** At any time: published bins plus the current one against all packets handled so far. */
    lemma Conserved(bin: nat)
      requires Valid() && bin < BINS
      ensures var sum, hits := BinSum(frames, bin) + histogram[bin], Count(Joined(batches) + current, bin);
        && sum % 65536 == hits % 65536 && sum <= hits
        && (sum == hits <==> NoOverflow(batches, bin) && Count(current, bin) <= 65535)
    {
      hide Count, Joined, BinSum;
      Conservation(frames, batches, bin);
      CountConcat(Joined(batches), current, bin);
      assert histogram[..][bin] == Count(current, bin) % WRAP;
      ModuloSum(BinSum(frames, bin), Count(Joined(batches), bin), Count(current, bin));
    }

    method HandlePackets(data: seq<Word64>)
      requires Valid()
      modifies histogram, this`current
      ensures Valid() && current == old(current) + data
    {
      hide BinOf;
      for ix := 0 to |data|
        invariant Valid() && current == old(current) + data[..ix]
      {
        var b := BinOf(data[ix]);
        ghost var was := current;
        current := current + [data[ix]];
        assert current[..|current| - 1] == was;
        histogram[b] := (histogram[b] + 1) % WRAP;
      }
      assert data[..|data|] == data;
    }

    /** One poll: msg is the message received, if any, and due says that the output period is over. */
    method Poll(msg: Option<seq<Word64>>, due: bool) returns (published: Option<seq<nat>>)
      requires Valid()
      modifies this, histogram
      ensures Valid()
      ensures published.Some? <==> msg.Some? && msg.value != [] && due
      ensures published.None? ==>
        && frames == old(frames) && batches == old(batches)
        && current == old(current) + if msg.Some? then msg.value else []
      ensures published.Some? ==>
        && frames == old(frames) + [published.value]
        && batches == old(batches) + [old(current) + msg.value] && current == []
    {
      published := None;
      if msg.Some? && msg.value != [] {
        HandlePackets(msg.value);
        if due {
          published := Some(histogram[..]);
          frames, batches := frames + [histogram[..]], batches + [current];
          current := [];
          forall i | 0 <= i < histogram.Length { histogram[i] := 0; }
        }
      }
    }
  }
}
