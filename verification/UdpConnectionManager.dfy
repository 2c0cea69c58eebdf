/** The UDP thread's object: the receive buffer, the rollover state and the .tpx3 file. */
module Udp {
  import opened Words
  import opened Rollover
  import opened RawPackets
  import opened Tpx3Files
  import opened PublishedTimes
  import Packets

  lemma NextGroup(d: seq<Byte>, ix: nat)
    requires 8 * ix + 8 <= |d|
    ensures var g := d[8 * ix..8 * ix + 8];
      && WordsOf(d[..8 * (ix + 1)]) == WordsOf(d[..8 * ix]) + [FromStored(g)]
      && ClickBytes(d[..8 * (ix + 1)]) == ClickBytes(d[..8 * ix]) + (if g[7] / 16 == 0xB then g else [])
  {
    hide FromStored;
    var c := d[..8 * (ix + 1)];
    assert c[..|c| - 8] == d[..8 * ix] && c[|c| - 8..] == d[8 * ix..8 * ix + 8];
  }

  class UdpConnectionManager {
    const buffer: array<Byte>
    var rolloverCounter: nat
    var halfwayToRollover: bool
    var lastToa: nat
    var tempBuffer: seq<Word64>
    var file: Option<seq<Byte>>
    // all datagrams received, those received since the file was opened, and all words sent
    ghost var datagrams: seq<seq<Byte>>
    ghost var recorded: seq<seq<Byte>>
    ghost var published: seq<Word64>
    ghost var history: seq<Event>  // the 34-bit times of the clicks, and the counter resets

    ghost predicate Valid()
      reads this
    {
      rolloverCounter < 16 && buffer.Length == BUFFER_SIZE
    }

    /** The words sent match the clicks received and carry the stamps of their history, which the rollover
        state follows; the file is that of the datagrams recorded in it. */
    ghost predicate Consistent()
      reads this
    {
      && Valid() && Matches(published, Arrived(datagrams))
      && State() == Track(history) && TimesOf(published) == StampsOf(history)
      && (forall d | d in recorded :: |d| <= BUFFER_SIZE)
      && (file.Some? ==> file.value == FileOf(recorded))
    }

    ghost function State(): Toa
      reads this
    {
      Toa(rolloverCounter, halfwayToRollover, lastToa)
    }

    constructor ()
      ensures Consistent() && State() == INITIAL && file == None && datagrams == [] && fresh(buffer)
    {
      buffer := new Byte[BUFFER_SIZE];
      rolloverCounter, halfwayToRollover, lastToa := 0, false, 0;
      tempBuffer := [];
      file := None;
      datagrams, recorded, published, history := [], [], [], [];
    }

    /** handleMessage: a datagram was received into the buffer. */
    method HandleMessage(d: seq<Byte>) returns (sent: Option<seq<Word64>>)
      requires Consistent() && |d| <= BUFFER_SIZE
      modifies this, buffer
      ensures Consistent() && datagrams == old(datagrams) + [d] && recorded == old(recorded) + [d]
      ensures published == old(published) + if sent.Some? then sent.value else []
      ensures history == old(history) + if sent.Some? then Heard(WordsOf(d)) else []
      ensures sent.None? <==> |d| == 0 || |d| % 8 != 0
      ensures file.Some? <==> old(file).Some?
    {
      hide Chunk, Matches, Arrived, FileOf, Publish, Track, StampsOf, Heard, TimesOf;
      forall i | 0 <= i < |d| { buffer[i] := d[i]; }
      assert buffer[..|d|] == d;
      sent := ParseBytes(|d|);
      FileAppend(recorded, d);
      if sent.Some? {
        MatchesNext(published, datagrams, d, old(State()));
        PublishTracks(history, WordsOf(d));
        TimesConcat(published, sent.value);
        published, history := published + sent.value, history + Heard(WordsOf(d));
      } else {
        MatchesIgnored(published, datagrams, d);
        assert published == published + [] && history == history + [];
      }
      datagrams, recorded := datagrams + [d], recorded + [d];
    }

    /** A reader of the .tpx3 file gets exactly the clicks received since it was opened. */
    lemma FileReads()
      requires Consistent() && file.Some?
      ensures Read(file.value) == Some(Arrived(recorded))
    {
      hide Read, Arrived;
      FileRoundTrip(recorded);
    }

    /** setSaveFile: an old file is closed; a new one, if wanted, is empty, or cannot be opened. */
    method SetSaveFile(wanted: bool, opens: bool) returns (ok: bool)
      requires Consistent()
      modifies this`file, this`recorded
      ensures Consistent() && recorded == []
      ensures ok <==> !wanted || opens
      ensures file == if wanted && opens then Some([]) else None
    {
      file, recorded := None, [];
      if !wanted {
        return true;
      }
      if opens {
        file := Some([]);
      }
      ok := file.Some?;
    }

    /** The file gains the datagram's chunk and the words of its clicks are published;
        a datagram of no bytes, or of a size that is not a multiple of 8, does nothing. */
    method ParseBytes(size: nat) returns (sent: Option<seq<Word64>>)
      requires Valid() && size <= buffer.Length
      modifies this`rolloverCounter, this`halfwayToRollover, this`lastToa, this`tempBuffer, this`file
      ensures Valid()
      ensures sent.None? <==> size == 0 || size % 8 != 0
      ensures file == if old(file).None? then None else Some(old(file).value + Chunk(buffer[..size]))
      ensures sent.None? ==> State() == old(State())
      ensures sent.Some? ==> (State(), sent.value) == Publish(old(State()), WordsOf(buffer[..size]))
    {
      ghost var d := buffer[..size];
      if size == 0 || size % 8 != 0 {
        assert Chunk(d) == [];
        assert file.Some? ==> file.value + [] == file.value;
        return None;
      }
      var numClicks := CountClicks(size);
      if numClicks > 0 && file.Some? {
        WriteChunk(size, numClicks * 8);
      } else {
        assert Chunk(d) == [] || file.None?;
        assert file.Some? ==> file.value + [] == file.value;
      }
      PublishRawData(size);
      sent := Some(tempBuffer);
    }

    method CountClicks(size: nat) returns (numClicks: nat)
      requires Valid() && size <= buffer.Length && size % 8 == 0
      ensures 8 * numClicks == |ClickBytes(buffer[..size])|
    {
      hide ClickBytes;
      numClicks := 0;
      assert ClickBytes([]) == [];
      for ix := 0 to size / 8
        invariant 8 * numClicks == |ClickBytes(buffer[..8 * ix])|
      {
        NextGroup(buffer[..], ix);
        assert buffer[..][..8 * ix] == buffer[..8 * ix] && buffer[..][..8 * (ix + 1)] == buffer[..8 * (ix + 1)];
        if buffer[8 * ix + 7] / 16 == 0xB {
          numClicks := numClicks + 1;
        }
      }
    }

    method WriteChunk(size: nat, chunkSize: nat)
      requires Valid() && size <= buffer.Length && size % 8 == 0 && file.Some?
      requires chunkSize == |ClickBytes(buffer[..size])| > 0
      modifies this`file
      ensures file == Some(old(file).value + Chunk(buffer[..size]))
    {
      hide ClickBytes;
      ghost var f := file.value;
      file := Some(file.value + [0x54, 0x50, 0x58, 0x33] + [0] + [0]);
      var sizeLsb, sizeMsb := chunkSize % 0x100, chunkSize / 0x100 % 0x100;
      file := Some(file.value + [sizeLsb] + [sizeMsb]);
      ghost var h := Header(chunkSize);
      assert file.value == f + h;
      assert ClickBytes([]) == [];
      for ix := 0 to size / 8
        invariant file.Some? && file.value == f + h + ClickBytes(buffer[..8 * ix])
      {
        NextGroup(buffer[..], ix);
        assert buffer[..][..8 * ix] == buffer[..8 * ix] && buffer[..][..8 * (ix + 1)] == buffer[..8 * (ix + 1)];
        assert buffer[8 * ix..8 * ix + 8] == buffer[..][8 * ix..8 * ix + 8];
        if buffer[8 * ix + 7] / 16 == 0xB {
          WriteGroup(ix);
        }
      }
      assert 8 * (size / 8) == size;
      ghost var c := ClickBytes(buffer[..size]);
      assert Chunk(buffer[..size]) == h + c;
      assert file.value == f + (h + c);
    }

    /** The inner loop of the writer: eight bytes. */
    method WriteGroup(ix: nat)
      requires 8 * ix + 8 <= buffer.Length && file.Some?
      modifies this`file
      ensures file.Some? && file.value == old(file).value + buffer[8 * ix..8 * ix + 8]
    {
      for jx := 0 to 8
        invariant file.Some? && file.value == old(file).value + buffer[8 * ix..8 * ix + jx]
      {
        file := Some(file.value + [buffer[8 * ix + jx]]);
      }
    }

    /** The publishing loop; the message sent is the content of tempBuffer. */
    method PublishRawData(size: nat)
      requires Valid() && size <= buffer.Length && size % 8 == 0
      modifies this`rolloverCounter, this`halfwayToRollover, this`lastToa, this`tempBuffer
      ensures Valid()
      ensures (State(), tempBuffer) == Publish(old(State()), WordsOf(buffer[..size]))
    {
      hide AddrX, AddrY, FromStored, Packets.Pack;
      tempBuffer := [];
      assert WordsOf([]) == [];
      for ix := 0 to size / 8
        invariant Valid()
        invariant (State(), tempBuffer) == Publish(old(State()), WordsOf(buffer[..8 * ix]))
      {
        NextGroup(buffer[..], ix);
        assert buffer[..][..8 * ix] == buffer[..8 * ix] && buffer[..][..8 * (ix + 1)] == buffer[..8 * (ix + 1)];
        assert buffer[8 * ix..8 * ix + 8] == buffer[..][8 * ix..8 * ix + 8];
        var packet := FromStored(buffer[8 * ix..8 * ix + 8]);
        HandlePacket(packet);
      }
    }

    /** One iteration of the publishing loop. */
    method HandlePacket(packet: Word64)
      requires Valid()
      modifies this`rolloverCounter, this`halfwayToRollover, this`lastToa, this`tempBuffer
      ensures Valid()
      ensures State() == Advance(old(State()), packet)
      ensures tempBuffer == old(tempBuffer) + Emit(old(State()), packet)
    {
      hide AddrX, AddrY, Addr, RawTot, RawStime, RawToa, RawFtoa;
      if packet / TWO_60 != 0xB {
        return;
      }
      PublishedInRange(State(), packet);
      ghost var click := Published(State(), packet);
      var addr := Addr(packet);
      var x, y, tot := AddrX(addr), AddrY(addr), RawTot(packet);
      var fullToa := RawStime(packet) * 0x4_0000 + RawToa(packet) * 16 + RawFtoa(packet);
      var threeQuarterTime := 3 * QUARTER;
      if fullToa > QUARTER && fullToa < threeQuarterTime {
        halfwayToRollover := true;
      }
      if halfwayToRollover && lastToa > threeQuarterTime && fullToa < QUARTER {
        halfwayToRollover := false;
        rolloverCounter := (rolloverCounter + 1) % 16;
      }
      var totToa := tot * TWO_38 + rolloverCounter * TWO_34 + fullToa;
      assert x == click.x && y == click.y && tot == click.tot && rolloverCounter * TWO_34 + fullToa == click.t;
      var parsedPacket: Word64 := x * Packets.TWO_56 + y * Packets.TWO_48 + totToa;
      tempBuffer := tempBuffer + [parsedPacket];
      lastToa := fullToa;
    }

    method ResetToaRolloverCounter()
      requires Consistent()
      modifies this`rolloverCounter, this`history
      ensures Consistent() && State() == Reset(old(State())) && history == old(history) + [CounterReset]
    {
      hide Track, StampsOf, TimesOf, Matches;
      OneMore(history, CounterReset);
      rolloverCounter := 0;
      history := history + [CounterReset];
    }

    /** At any time: the word sent for a click carries its true time, for every course of true times and resets
        that the history was observed from. */
    lemma TimesExact(es: seq<Event>, i: nat, j: nat, g: nat)
      requires Consistent() && history == Observed(es)
      requires i < |es| && es[i].Click? && j + g < QUARTER && Plausible(es[..i + 1], j, g)
      ensures var k, w := NumClicks(es[..i]), Truly(es[..i + 1]);
        && k < |published|
        && Packets.Time(published[k])
          == (es[i].t - w.base * PERIOD + if Epoch(es[i].t) < Epoch(w.max) then PERIOD else 0) % TWO_38
    {
      PublishedTimeExact(history, published, es, i, j, g);
      hide Track, Truly, Plausible, Epoch, Packets.Time, Observed, NumClicks;
    }
  }
}
