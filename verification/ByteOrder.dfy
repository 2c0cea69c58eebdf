/** The byte-order functions of CommsThread.h on a little-endian host, and byte strings of words. */
module ByteOrder {
  import opened Words

  /** The four bytes of x as the host stores them, least significant first. */
  function Bytes4(x: Word32): (b: seq<Byte>)
    ensures |b| == 4
  {
    [x % 0x100, x / 0x100 % 0x100, x / 0x1_0000 % 0x100, x / 0x100_0000]
  }

  function FromBytes4(b: seq<Byte>): Word32
    requires |b| == 4
  {
    b[0] as int + b[1] as int * 0x100 + b[2] as int * 0x1_0000 + b[3] as int * 0x100_0000
  }

  /** htonl, and ntohl too: reverse the four bytes. */
  function Htonl(x: Word32): Word32 {
    FromBytes4([Bytes4(x)[3], Bytes4(x)[2], Bytes4(x)[1], Bytes4(x)[0]])
  }

  /** htonll: swap the halves and each half's bytes. */
  function Htonll(x: Word64): Word64 {
    Htonl(x / TWO_32) + Htonl(x % TWO_32) * TWO_32
  }

  /** The eight bytes of x as the host stores them. */
  function StoredBytes(x: Word64): (b: seq<Byte>)
    ensures |b| == 8
  {
    Bytes4(x % TWO_32) + Bytes4(x / TWO_32)
  }

  /** Network order: most significant byte first (Appendix B of RFC 791). */
  function BigEndian4(x: Word32): (b: seq<Byte>)
    ensures |b| == 4
  {
    [x / 0x100_0000, x / 0x1_0000 % 0x100, x / 0x100 % 0x100, x % 0x100]
  }

  function BigEndian(x: Word64): (b: seq<Byte>)
    ensures |b| == 8
  {
    BigEndian4(x / TWO_32) + BigEndian4(x % TWO_32)
  }

  function BigEndianAll(ws: seq<Word64>): (b: seq<Byte>)
    ensures |b| == 8 * |ws|
  {
    if ws == [] then [] else BigEndianAll(ws[..|ws| - 1]) + BigEndian(ws[|ws| - 1])
  }

  lemma Bytes4RoundTrip(x: Word32)
    ensures FromBytes4(Bytes4(x)) == x
  {
    assert x == x / 0x100 * 0x100 + x % 0x100;
    assert x / 0x100 == x / 0x1_0000 * 0x100 + x / 0x100 % 0x100;
    assert x / 0x1_0000 == x / 0x100_0000 * 0x100 + x / 0x1_0000 % 0x100;
  }

  lemma FromBytes4RoundTrip(b: seq<Byte>)
    requires |b| == 4
    ensures Bytes4(FromBytes4(b)) == b
  {
    var x := FromBytes4(b);
    Divided(x, 0x100, b[1] as int + b[2] as int * 0x100 + b[3] as int * 0x1_0000, b[0]);
    Divided(x, 0x1_0000, b[2] as int + b[3] as int * 0x100, b[0] as int + b[1] as int * 0x100);
    Divided(x, 0x100_0000, b[3], b[0] as int + b[1] as int * 0x100 + b[2] as int * 0x1_0000);
    Divided(b[1] as int + b[2] as int * 0x100 + b[3] as int * 0x1_0000, 0x100, b[2] as int + b[3] as int * 0x100, b[1]);
    Divided(b[2] as int + b[3] as int * 0x100, 0x100, b[3], b[2]);
  }

  lemma HtonlInvolution(x: Word32)
    ensures Htonl(Htonl(x)) == x
  {
    var b := Bytes4(x);
    FromBytes4RoundTrip([b[3], b[2], b[1], b[0]]);
    Bytes4RoundTrip(x);
  }

  lemma HtonllInvolution(x: Word64)
    ensures Htonll(Htonll(x)) == x
  {
    hide Htonl;
    HtonlInvolution(x / TWO_32);
    HtonlInvolution(x % TWO_32);
    Divided(Htonll(x), TWO_32, Htonl(x % TWO_32), Htonl(x / TWO_32));
  }

  lemma HtonlStoresBigEndian(x: Word32)
    ensures Bytes4(Htonl(x)) == BigEndian4(x)
  {
    FromBytes4RoundTrip(BigEndian4(x));
  }

  /** A word through htonll is stored most significant byte first. */
  lemma HtonllStoresBigEndian(x: Word64)
    ensures StoredBytes(Htonll(x)) == BigEndian(x)
  {
    hide Htonl, Bytes4, BigEndian4;
    var hi, lo := x / TWO_32, x % TWO_32;
    Divided(Htonll(x), TWO_32, Htonl(lo), Htonl(hi));
    HtonlStoresBigEndian(hi);
    HtonlStoresBigEndian(lo);
  }

  /** The same bytes as on the host, in the opposite order. */
  lemma BytesReversed(x: Word64)
    ensures forall i | 0 <= i < 8 :: BigEndian(x)[i] == StoredBytes(x)[7 - i]
  {
    HalfReversed(x % TWO_32);
    HalfReversed(x / TWO_32);
    hide BigEndian4, Bytes4;
  }

  lemma HalfReversed(x: Word32)
    ensures forall i | 0 <= i < 4 :: BigEndian4(x)[i] == Bytes4(x)[3 - i]
  {
  }

  function FromBigEndian(b: seq<Byte>): Word64
    requires |b| == 8
  {
    FromBytes4([b[3], b[2], b[1], b[0]]) * TWO_32 + FromBytes4([b[7], b[6], b[5], b[4]])
  }

  lemma BigEndianRoundTrip(x: Word64)
    ensures FromBigEndian(BigEndian(x)) == x
  {
    Bytes4RoundTrip(x / TWO_32);
    Bytes4RoundTrip(x % TWO_32);
  }

  /** A reader of the cluster file: eight big-endian bytes a word. */
  function ReadBigEndian(b: seq<Byte>): seq<Word64> {
    if |b| < 8 then [] else ReadBigEndian(b[..|b| - 8]) + [FromBigEndian(b[|b| - 8..])]
  }

  lemma ReadAppended(b: seq<Byte>, c: seq<Byte>)
    requires |c| == 8
    ensures ReadBigEndian(b + c) == ReadBigEndian(b) + [FromBigEndian(c)]
  {
    var d := b + c;
    assert d[..|d| - 8] == b && d[|d| - 8..] == c;
    hide FromBigEndian;
  }

  lemma {:induction false} ClusterFileRoundTrip(ws: seq<Word64>)
    ensures ReadBigEndian(BigEndianAll(ws)) == ws
  {
    hide BigEndian, FromBigEndian;
    if ws == [] {
      assert BigEndianAll(ws) == [];
    } else {
      var n := |ws| - 1;
      var b, c := BigEndianAll(ws[..n]), BigEndian(ws[n]);
      calc {
        ReadBigEndian(BigEndianAll(ws));
        ReadBigEndian(b + c);
        { ReadAppended(b, c); }
        ReadBigEndian(b) + [FromBigEndian(c)];
        { ClusterFileRoundTrip(ws[..n]); BigEndianRoundTrip(ws[n]); }
        ws[..n] + [ws[n]];
        ws;
      }
    }
  }
}
