/** From the raw words of the device to the bins of the histogram. */
module Pipeline {
  import opened Words
  import opened Packets
  import opened Rollover
  import opened RawPackets
  import opened Histograms

  /** How many words carry the address. */
  function CountAddr(ws: seq<Word64>, a: nat): nat {
    if ws == [] then 0 else CountAddr(ws[..|ws| - 1], a) + if Addr(ws[|ws| - 1]) == a then 1 else 0
  }

  /** A published click falls into the bin of a pixel if and only if its raw word has that pixel's address. */
  lemma BinOfPublished(s: Toa, w: Word64, x: nat, y: nat)
    requires RawPackets.Valid(s) && x < 0x100 && y < 0x100
    ensures InRange(Published(s, w)) && (BinOf(Pack(Published(s, w))) == x + y * 256 <==> Addr(w) == AddrOf(x, y))
  {
    hide AddrX, AddrY, AddrOf, Addr, Stamp, RawTot, X, Y, Time, Tot;
    PublishLossless(s, w);
    RawBounds(w);
    AddrToPixel(Addr(w));
    PixelToAddr(x, y);
    var p := Published(s, w);
    Place(p.x, p.y);
    Place(x, y);
  }

  lemma CountOne(w: Word64, bin: nat)
    ensures Histograms.Count([w], bin) == if BinOf(w) == bin then 1 else 0
  {
    hide BinOf;
    assert [w][..0] == [];
    assert Histograms.Count([], bin) == 0;
  }

  /** The packets counted for a pixel are the raw clicks with its address, whatever the rollover state. */
  lemma {:induction false} PixelCounts(s: Toa, ws: seq<Word64>, x: nat, y: nat)
    requires RawPackets.Valid(s) && x < 0x100 && y < 0x100
    ensures Histograms.Count(Publish(s, ws).1, x + y * 256) == CountAddr(ClicksOf(ws), AddrOf(x, y))
  {
    hide Addr, AddrOf, Published, Pack, InRange, BinOf, Next, FullToa, IsClick, Histograms.Count;
    var bin := x + y * 256;
    if ws == [] {
      CountNone(bin);
    } else {
      var n := |ws| - 1;
      var r := Publish(s, ws[..n]);
      PixelCounts(s, ws[..n], x, y);
      CountConcat(r.1, Emit(r.0, ws[n]), bin);
      if IsClick(ws[n]) {
        BinOfPublished(r.0, ws[n], x, y);
        CountOne(Pack(Published(r.0, ws[n])), bin);
        var c := ClicksOf(ws[..n]);
        assert (c + [ws[n]])[..|c + [ws[n]]| - 1] == c;
      } else {
        CountNone(bin);
        assert ClicksOf(ws) == ClicksOf(ws[..n]) + [] == ClicksOf(ws[..n]);
      }
    }
  }

  lemma CountNone(bin: nat)
    ensures Histograms.Count([], bin) == 0
  {
  }

  /** The whole way: the published bins of a pixel against the raw clicks with its address, for any batches. */
  lemma RawClicksConserved(s: Toa, ws: seq<Word64>, frames: seq<seq<nat>>, batches: seq<seq<Word64>>, x: nat, y: nat)
    requires RawPackets.Valid(s) && x < 0x100 && y < 0x100
    requires Joined(batches) == Publish(s, ws).1 && AllCount(frames, batches)
    ensures var sum, clicks := BinSum(frames, x + y * 256), CountAddr(ClicksOf(ws), AddrOf(x, y));
      && sum % 65536 == clicks % 65536 && sum <= clicks
      && (sum == clicks <==> NoOverflow(batches, x + y * 256))
  {
    hide AddrOf, CountAddr, Histograms.Count, Joined, BinSum, AllCount;
    PixelCounts(s, ws, x, y);
    Conservation(frames, batches, x + y * 256);
  }
}
