/** The .tpx3 file: chunks of click words behind an eight-byte header with a 16-bit size. */
module Tpx3Files {
  import opened Words
  import opened ByteOrder
  import opened RawPackets
  import opened Rollover

  const BUFFER_SIZE: nat := 40000

  /** "TPX3", chip number, mode */
  const MAGIC: seq<Byte> := [0x54, 0x50, 0x58, 0x33, 0, 0]

  function FromStored(b: seq<Byte>): Word64
    requires |b| == 8
  {
    FromBytes4(b[..4]) + FromBytes4(b[4..]) * TWO_32
  }

  /** The buffer read as the host's 64-bit words. */
  function WordsOf(b: seq<Byte>): seq<Word64> {
    if |b| < 8 then [] else WordsOf(b[..|b| - 8]) + [FromStored(b[|b| - 8..])]
  }

  /** The click groups of the buffer, recognised by the high half of their eighth byte. */
  function ClickBytes(b: seq<Byte>): (r: seq<Byte>)
    ensures |r| % 8 == 0 && |r| <= |b|
  {
    if |b| < 8 then []
    else ClickBytes(b[..|b| - 8]) + if b[|b| - 1] / 16 == 0xB then b[|b| - 8..] else []
  }

  function Header(size: nat): seq<Byte> { MAGIC + [size % 0x100, size / 0x100 % 0x100] }

  /** What parseBytes appends for one datagram. */
  function Chunk(d: seq<Byte>): seq<Byte> {
    if |d| % 8 != 0 || ClickBytes(d) == [] then [] else Header(|ClickBytes(d)|) + ClickBytes(d)
  }

  function FileOf(ds: seq<seq<Byte>>): seq<Byte> {
    if ds == [] then [] else Chunk(ds[0]) + FileOf(ds[1..])
  }

  /** The click words of the datagrams that are not refused. */
  function Arrived(ds: seq<seq<Byte>>): seq<Word64> {
    if ds == [] then []
    else (if |ds[0]| % 8 != 0 then [] else ClicksOf(WordsOf(ds[0]))) + Arrived(ds[1..])
  }

  /** A reader that follows the size field of each chunk. */
  function Read(f: seq<Byte>): Option<seq<Word64>>
    decreases |f|
  {
    if f == [] then Some([])
    else if |f| < 8 || f[..6] != MAGIC then None
    else
      var n := f[6] as nat + f[7] as nat * 0x100;
      if n % 8 != 0 || |f| < 8 + n then None
      else
        var rest := Read(f[8 + n..]);
        if rest.None? then None else Some(WordsOf(f[8..8 + n]) + rest.value)
  }

  /** The word is the one that the host stores as these bytes. */
  lemma StoredRoundTrip(b: seq<Byte>)
    requires |b| == 8
    ensures StoredBytes(FromStored(b)) == b
  {
    hide Bytes4, FromBytes4;
    Divided(FromStored(b), TWO_32, FromBytes4(b[4..]), FromBytes4(b[..4]));
    FromBytes4RoundTrip(b[..4]);
    FromBytes4RoundTrip(b[4..]);
  }

  /** Word k of a buffer is stored in its bytes 8 k to 8 k + 7. */
  lemma {:induction false} WordsStored(b: seq<Byte>)
    requires |b| % 8 == 0
    ensures |WordsOf(b)| == |b| / 8
    ensures forall k | 0 <= k < |b| / 8 :: StoredBytes(WordsOf(b)[k]) == b[8 * k..8 * k + 8]
  {
    hide FromStored, StoredBytes;
    if b != [] {
      var c, d := b[..|b| - 8], b[|b| - 8..];
      WordsStored(c);
      StoredRoundTrip(d);
      assert forall k | 0 <= k < |c| / 8 :: c[8 * k..8 * k + 8] == b[8 * k..8 * k + 8];
      assert 8 * (|b| / 8 - 1) == |b| - 8;
    }
  }

  lemma StoredClick(b: seq<Byte>)
    requires |b| == 8
    ensures IsClick(FromStored(b)) <==> b[7] / 16 == 0xB
  {
    var lo, hi := FromBytes4(b[..4]), FromBytes4(b[4..]);
    assert hi / 0x100_0000 == b[7] as int;
    assert FromStored(b) / TWO_60 == hi / 0x1000_0000;
  }

  lemma WordsAppended(b: seq<Byte>, c: seq<Byte>)
    requires |c| == 8
    ensures WordsOf(b + c) == WordsOf(b) + [FromStored(c)]
  {
    hide FromStored;
    var d := b + c;
    assert d[..|d| - 8] == b && d[|d| - 8..] == c;
  }

  /** The bytes written for a datagram are its click words, in order. */
  lemma {:induction false} ClickBytesAreClicks(b: seq<Byte>)
    ensures WordsOf(ClickBytes(b)) == ClicksOf(WordsOf(b))
    ensures |ClickBytes(b)| == 8 * |ClicksOf(WordsOf(b))|
  {
    hide FromStored, IsClick;
    if |b| >= 8 {
      var c, d := b[..|b| - 8], b[|b| - 8..];
      ClickBytesAreClicks(c);
      StoredClick(d);
      assert WordsOf(b) == WordsOf(c) + [FromStored(d)];
      assert WordsOf(b)[..|WordsOf(b)| - 1] == WordsOf(c);
      if d[7] / 16 == 0xB {
        WordsAppended(ClickBytes(c), d);
      } else {
        assert ClickBytes(b) == ClickBytes(c) + [] == ClickBytes(c);
        assert ClicksOf(WordsOf(b)) == ClicksOf(WordsOf(c)) + [] == ClicksOf(WordsOf(c));
      }
    }
  }

  lemma HeaderFields(n: nat)
    requires n < 0x1_0000
    ensures |Header(n)| == 8 && Header(n)[..6] == MAGIC && Header(n)[6] as nat + Header(n)[7] as nat * 0x100 == n
  {
  }

  lemma ReadFramed(c: seq<Byte>, rest: seq<Byte>)
    requires |c| < 0x1_0000 && |c| % 8 == 0 && Read(rest).Some?
    ensures Read(Header(|c|) + c + rest) == Some(WordsOf(c) + Read(rest).value)
  {
    hide WordsOf, Header;
    HeaderFields(|c|);
    var h := Header(|c|);
    var f := h + c + rest;
    assert f[..6] == h[..6] && f[6] == h[6] && f[7] == h[7];
    assert f[8..8 + |c|] == c && f[8 + |c|..] == rest;
  }

  lemma ChunkAhead(d: seq<Byte>, rest: seq<Byte>)
    requires |d| <= BUFFER_SIZE && Read(rest).Some?
    ensures Read(Chunk(d) + rest)
      == Some((if |d| % 8 != 0 then [] else ClicksOf(WordsOf(d))) + Read(rest).value)
  {
    hide WordsOf, ClickBytes, ClicksOf, Read, Header;
    ClickBytesAreClicks(d);
    var c := ClickBytes(d);
    if Chunk(d) == [] {
      assert Chunk(d) + rest == rest;
      assert |d| % 8 == 0 ==> ClicksOf(WordsOf(d)) == [];
      assert [] + Read(rest).value == Read(rest).value;
    } else {
      ReadFramed(c, rest);
    }
  }

  /** Nothing is written for a datagram that is refused or holds no click; otherwise eight bytes, the size in the
      last two, and eight bytes a click. */
  lemma ChunkLayout(d: seq<Byte>)
    requires |d| <= BUFFER_SIZE
    ensures Chunk(d) == [] <==> |d| % 8 != 0 || ClicksOf(WordsOf(d)) == []
    ensures Chunk(d) != [] ==>
      var c := Chunk(d);
      && |c| == 8 + 8 * |ClicksOf(WordsOf(d))| && c[..6] == [0x54, 0x50, 0x58, 0x33, 0, 0]
      && c[6] as int + c[7] as int * 0x100 == |c| - 8 && WordsOf(c[8..]) == ClicksOf(WordsOf(d))
  {
    hide WordsOf, ClickBytes, ClicksOf, Header;
    ClickBytesAreClicks(d);
    var bytes := ClickBytes(d);
    HeaderFields(|bytes|);
    assert Chunk(d) != [] ==> Chunk(d)[..8] == Header(|bytes|) && Chunk(d)[8..] == bytes;
    assert Header(|bytes|)[..6] == MAGIC;
    assert Chunk(d) != [] ==> Chunk(d)[..8][..6] == Chunk(d)[..6];
  }

  /** Round trip over any sequence of datagrams that fit the receive buffer. */
  lemma {:induction false} FileRoundTrip(ds: seq<seq<Byte>>)
    requires forall d | d in ds :: |d| <= BUFFER_SIZE
    ensures Read(FileOf(ds)) == Some(Arrived(ds))
  {
    hide WordsOf, ClickBytes, ClicksOf, Chunk;
    if ds != [] {
      FileRoundTrip(ds[1..]);
      hide Read;
      ChunkAhead(ds[0], FileOf(ds[1..]));
    }
  }

  /** Appending a datagram's chunk to the file of the earlier ones is the file of all of them. */
  lemma {:induction false} FileAppend(ds: seq<seq<Byte>>, d: seq<Byte>)
    ensures FileOf(ds + [d]) == FileOf(ds) + Chunk(d)
  {
    hide Chunk;
    if ds == [] {
      assert [d][1..] == [];
      assert FileOf([d]) == Chunk(d) + FileOf([]);
    } else {
      FileAppend(ds[1..], d);
      assert (ds + [d])[1..] == ds[1..] + [d];
    }
  }

  lemma {:induction false} ArrivedAppend(ds: seq<seq<Byte>>, d: seq<Byte>)
    ensures Arrived(ds + [d]) == Arrived(ds) + if |d| % 8 != 0 then [] else ClicksOf(WordsOf(d))
  {
    hide ClicksOf, WordsOf;
    if ds == [] {
      assert [d][1..] == [];
      assert Arrived([]) == [];
    } else {
      ArrivedAppend(ds[1..], d);
      assert (ds + [d])[1..] == ds[1..] + [d];
    }
  }

  // ----- the file against the published words -----

  /** Published word i keeps the low 60 bits of click i (the other four are the click mark). */
  ghost predicate Matches(published: seq<Word64>, clicks: seq<Word64>) {
    |published| == |clicks| && forall i | 0 <= i < |clicks| :: Recover(published[i]) == clicks[i] % TWO_60
  }

  lemma MatchesConcat(p: seq<Word64>, c: seq<Word64>, q: seq<Word64>, d: seq<Word64>)
    requires Matches(p, c) && Matches(q, d)
    ensures Matches(p + q, c + d)
  {
    hide Recover;
  }

  lemma MatchesNext(p: seq<Word64>, ds: seq<seq<Byte>>, d: seq<Byte>, s: Toa)
    requires RawPackets.Valid(s) && Matches(p, Arrived(ds)) && |d| % 8 == 0
    ensures Matches(p + Publish(s, WordsOf(d)).1, Arrived(ds + [d]))
  {
    hide Arrived, Recover, Publish, ClicksOf, WordsOf, Matches;
    ArrivedAppend(ds, d);
    PublishMatches(s, WordsOf(d));
    MatchesConcat(p, Arrived(ds), Publish(s, WordsOf(d)).1, ClicksOf(WordsOf(d)));
  }

  lemma PublishMatches(s: Toa, ws: seq<Word64>)
    requires RawPackets.Valid(s)
    ensures Matches(Publish(s, ws).1, ClicksOf(ws))
  {
    hide Recover, Publish, ClicksOf;
    PublishKeepsClicks(s, ws);
  }

  /** Ignoring a datagram of a wrong size. */
  lemma MatchesIgnored(p: seq<Word64>, ds: seq<seq<Byte>>, d: seq<Byte>)
    requires Matches(p, Arrived(ds)) && (|d| == 0 || |d| % 8 != 0)
    ensures Matches(p, Arrived(ds + [d]))
  {
    hide Recover;
    ArrivedAppend(ds, d);
    assert Arrived(ds) + [] == Arrived(ds);
  }
}
