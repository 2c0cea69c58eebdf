/** Command and reply frames of the device connection: 32-bit words in network byte order. */
module Frames {
  import opened Words
  import opened ByteOrder

  const REPLY_BIT: nat := 0x1_0000
  const TPX_BUFFER: nat := 1024  // mCommandBuffer and mResponseBuffer

  /** htonl of each word, as stored: most significant byte first. */
  function Network(ws: seq<Word32>): (b: seq<Byte>)
    ensures |b| == 4 * |ws|
  {
    if ws == [] then [] else Network(ws[..|ws| - 1]) + BigEndian4(ws[|ws| - 1])
  }

  /** The frame that sendCommand builds: command, length in bytes (cut to 32 bits), 0, chip 0, payload
      (a zero if empty). */
  function Frame(cmd: Word32, data: seq<Word32>): (b: seq<Byte>)
    ensures |b| == 4 * Max(4 + |data|, 5)
  {
    var n := Max(4 + |data|, 5);
    Network([cmd, n * 4 % TWO_32, 0, 0] + if data == [] then [0] else data)
  }

  function WordAt(b: seq<Byte>, k: nat): Word32
    requires 4 * k + 4 <= |b|
  {
    FromBytes4([b[4 * k + 3], b[4 * k + 2], b[4 * k + 1], b[4 * k]])
  }

  function Payload(b: seq<Byte>, n: nat): seq<Word32>
    requires 16 + 4 * n <= |b|
  {
    seq(n, i requires 0 <= i < n => WordAt(b, 4 + i))
  }

  /** getErrorString looks the low byte up among 11 messages and, for 6, the next byte among 12. */
  predicate KnownError(err: Word32) {
    err % 0x100 < 11 && (err % 0x100 == 6 ==> err / 0x100 % 0x100 < 12)
  }

  /** Outcome of commandRecv: a frame, a frame it refuses, or one for which it reads outside a table
      (an unknown error code) or its buffer (the unchecked subtraction from a length below 16). */
  datatype Parsed = Command(cmd: Word32, data: seq<Word32>) | Refused | OutOfBounds

  /** commandRecv on the bytes received. */
  function Parse(b: seq<Byte>): Parsed {
    if |b| < 20 || |b| % 4 != 0 then Refused
    else
      var cmd, size, err, chip := WordAt(b, 0), WordAt(b, 1), WordAt(b, 2), WordAt(b, 3);
      if cmd / REPLY_BIT % 2 == 0 then Refused
      else if err != 0 && !KnownError(err) then OutOfBounds
      else if chip != 0 then Refused
      else if |b| < size then Refused
      else if size < 16 then OutOfBounds
      else Command(cmd - REPLY_BIT, Payload(b, (size - 16) / 4))
  }

  /** The low two bytes of the error code are in the tables. */
  predicate KnownBytes(b: seq<Byte>)
    requires |b| >= 12
  {
    b[11] < 11 && (b[11] == 6 ==> b[10] < 12)
  }

  /** The frames the code does not guard against, by their bytes: a reply bit, and an unknown error code, or
      chip 0 and a length below 16. */
  predicate Harmful(b: seq<Byte>) {
    && |b| >= 20 && |b| % 4 == 0 && b[1] % 2 == 1
    && (!KnownBytes(b) || (b[12..16] == [0, 0, 0, 0] && b[4..7] == [0, 0, 0] && b[7] < 16))
  }

  lemma WordBytes(b: seq<Byte>)
    requires |b| == 4
    ensures var w := FromBytes4([b[3], b[2], b[1], b[0]]);
      && w / REPLY_BIT % 2 == b[1] % 2 && w % 0x100 == b[3] as int && w / 0x100 % 0x100 == b[2] as int
      && (w == 0 <==> b == [0, 0, 0, 0]) && (w < 16 <==> b[..3] == [0, 0, 0] && b[3] < 16)
  {
    var w := FromBytes4([b[3], b[2], b[1], b[0]]);
    var upper: nat := b[1] as int + 0x100 * b[0] as int;
    Divided(w, 0x1_0000, upper, b[3] as int + 0x100 * b[2] as int);
    Divided(w, 0x100, b[2] as int + 0x100 * upper, b[3]);
    Divided(b[2] as int + 0x100 * upper, 0x100, upper, b[2]);
    assert upper % 2 == b[1] as int % 2;
    if w < 16 {
      assert b[0] == 0 && b[1] == 0 && b[2] == 0;
    }
  }

  /** What the checks of commandRecv look at, in terms of the received bytes. */
  lemma HeaderBytes(b: seq<Byte>)
    requires |b| >= 20
    ensures WordAt(b, 0) / REPLY_BIT % 2 == b[1] % 2 && (KnownError(WordAt(b, 2)) <==> KnownBytes(b))
    ensures WordAt(b, 3) == 0 <==> b[12..16] == [0, 0, 0, 0]
    ensures WordAt(b, 1) < 16 <==> b[4..7] == [0, 0, 0] && b[7] < 16
  {
    hide FromBytes4;
    WordBytes(b[0..4]);
    WordBytes(b[4..8]);
    WordBytes(b[8..12]);
    WordBytes(b[12..16]);
    assert b[4..8][..3] == b[4..7];
  }

  lemma HarmfulExact(b: seq<Byte>)
    ensures Parse(b) == OutOfBounds <==> Harmful(b)
  {
    hide WordAt, Payload, KnownBytes, KnownError;
    if |b| >= 20 { HeaderBytes(b); }
    KnownZero();
  }

  lemma KnownZero()
    ensures KnownError(0)
  {
  }

  /** Which frames are refused: incomplete ones, ones without the reply bit, and, if the error code is in the
      tables, those for another chip or with a length of more than was received. */
  lemma RefusedExact(b: seq<Byte>)
    ensures Parse(b) == Refused <==>
      || |b| < 20 || |b| % 4 != 0 || b[1] % 2 == 0
      || (KnownBytes(b) && (b[12..16] != [0, 0, 0, 0]
                            || |b| < b[4] as int * 0x100_0000 + b[5] as int * 0x1_0000 + b[6] as int * 0x100 + b[7] as int))
  {
    hide Payload, KnownBytes, KnownError;
    if |b| >= 20 { HeaderBytes(b); }
    KnownZero();
  }

  /** Every string of whole words is the network form of its words. */
  lemma {:induction false} WordsOfFrame(b: seq<Byte>, n: nat)
    requires 4 * n <= |b|
    ensures Network(seq(n, k requires 0 <= k < n => WordAt(b, k))) == b[..4 * n]
  {
    hide WordAt, BigEndian4;
    if n > 0 {
      var ws := seq(n, k requires 0 <= k < n => WordAt(b, k));
      WordsOfFrame(b, n - 1);
      assert ws[..n - 1] == seq(n - 1, k requires 0 <= k < n - 1 => WordAt(b, k));
      WordStored(b, n - 1);
      assert b[..4 * (n - 1)] + b[4 * (n - 1)..4 * n] == b[..4 * n];
    }
  }

  lemma WordStored(b: seq<Byte>, k: nat)
    requires 4 * k + 4 <= |b|
    ensures BigEndian4(WordAt(b, k)) == b[4 * k..4 * k + 4]
  {
    FromBytes4RoundTrip([b[4 * k + 3], b[4 * k + 2], b[4 * k + 1], b[4 * k]]);
    hide FromBytes4;
  }

  lemma ParseFields(b: seq<Byte>)
    requires |b| >= 20 && |b| % 4 == 0
    ensures var r, cmd, size := Parse(b), WordAt(b, 0), WordAt(b, 1);
      && (r.Command? <==> cmd / REPLY_BIT % 2 == 1 && KnownError(WordAt(b, 2)) && WordAt(b, 3) == 0 && 16 <= size <= |b|)
      && (r.Command? ==> r.cmd == cmd - REPLY_BIT && r.data == Payload(b, (size - 16) / 4))
  {
    hide WordAt, Payload, KnownError;
    KnownZero();
  }

  lemma HeaderWords(cmd: Word32, size: Word32, err: Word32, chip: Word32, payload: seq<Word32>)
    ensures var b := Network([cmd, size, err, chip] + payload);
      && |b| == 16 + 4 * |payload|
      && WordAt(b, 0) == cmd && WordAt(b, 1) == size && WordAt(b, 2) == err && WordAt(b, 3) == chip
  {
    hide Network, WordAt;
    var ws := [cmd, size, err, chip] + payload;
    NetworkWord(ws, 0);
    NetworkWord(ws, 1);
    NetworkWord(ws, 2);
    NetworkWord(ws, 3);
  }

  /** The frame of any header and payload words, so any frame of whole words: when it is accepted, and that the
      length field decides how many of the payload words are the data. */
  lemma ParseWords(cmd: Word32, size: Word32, err: Word32, chip: Word32, payload: seq<Word32>)
    requires payload != []
    ensures var r := Parse(Network([cmd, size, err, chip] + payload));
      && (r.Command? <==> cmd / REPLY_BIT % 2 == 1 && KnownError(err) && chip == 0 && 16 <= size <= 16 + 4 * |payload|)
      && (r.Command? ==> r.cmd == cmd - REPLY_BIT && r.data == payload[..(size - 16) / 4])
  {
    hide Network, WordAt, KnownError, Parse, Payload;
    var b := Network([cmd, size, err, chip] + payload);
    HeaderWords(cmd, size, err, chip, payload);
    ParseFields(b);
    if Parse(b).Command? {
      DataWords([cmd, size, err, chip], payload, (size - 16) / 4);
    }
  }

  lemma DataWords(header: seq<Word32>, payload: seq<Word32>, n: nat)
    requires |header| == 4 && n <= |payload|
    ensures Payload(Network(header + payload), n) == payload[..n]
  {
    hide Network, Payload;
    PayloadWords(header + payload, n);
    assert (header + payload)[4..4 + n] == payload[..n];
  }

  lemma PayloadWords(ws: seq<Word32>, n: nat)
    requires 4 + n <= |ws|
    ensures Payload(Network(ws), n) == ws[4..4 + n]
  {
    hide Network, WordAt;
    forall i | 4 <= i < 4 + n ensures WordAt(Network(ws), i) == ws[i] {
      NetworkWord(ws, i);
    }
  }

  lemma {:induction false} NetworkWord(ws: seq<Word32>, k: nat)
    requires k < |ws|
    ensures WordAt(Network(ws), k) == ws[k]
  {
    hide BigEndian4, FromBytes4;
    var n := |ws| - 1;
    if k < n {
      NetworkWord(ws[..n], k);
    } else {
      NetworkLast(Network(ws[..n]), ws[n], k);
    }
  }

  lemma NetworkLast(b: seq<Byte>, w: Word32, k: nat)
    requires |b| == 4 * k
    ensures WordAt(b + BigEndian4(w), k) == w
  {
    var c := BigEndian4(w);
    assert forall i | 0 <= i < 4 :: (b + c)[4 * k + i] == c[i];
    Bytes4RoundTrip(w);
    hide FromBytes4;
  }

  lemma WordAtFront(b: seq<Byte>, rest: seq<Byte>, k: nat)
    requires 4 * k + 4 <= |b|
    ensures WordAt(b + rest, k) == WordAt(b, k)
  {
    assert forall i | 0 <= i < |b| :: (b + rest)[i] == b[i];
  }

  lemma PayloadFront(b: seq<Byte>, rest: seq<Byte>, n: nat)
    requires 16 + 4 * n <= |b|
    ensures Payload(b + rest, n) == Payload(b, n)
  {
    hide WordAt;
    forall i | 4 <= i < 4 + n ensures WordAt(b + rest, i) == WordAt(b, i) {
      WordAtFront(b, rest, i);
    }
  }

  /** What follows a frame in the same read is ignored, if it is whole words. */
  lemma ParseFront(b: seq<Byte>, rest: seq<Byte>)
    requires Parse(b).Command? && |rest| % 4 == 0
    ensures Parse(b + rest) == Parse(b)
  {
    hide WordAt, Payload;
    WordAtFront(b, rest, 0);
    WordAtFront(b, rest, 1);
    WordAtFront(b, rest, 2);
    WordAtFront(b, rest, 3);
    PayloadFront(b, rest, (WordAt(b, 1) - 16) / 4);
  }

  /** A reply in sendCommand's layout with the reply bit set passes every check and decodes to the same command
      and payload, except that an empty payload comes back as [0]; words received after it change nothing. */
  lemma ReplyRoundTrip(cmd: Word32, data: seq<Word32>, rest: seq<Byte>)
    requires cmd / REPLY_BIT % 2 == 0 && |data| < 0x1000_0000 && |rest| % 4 == 0
    ensures Parse(Frame(cmd + REPLY_BIT, data) + rest) == Command(cmd, if data == [] then [0] else data)
    ensures |data| <= 252 ==> |Frame(cmd + REPLY_BIT, data)| <= TPX_BUFFER
  {
    hide Network, Parse, KnownError;
    var payload: seq<Word32> := if data == [] then [0] else data;
    var size := (4 + |payload|) * 4;
    ReplyWords(cmd, data);
    KnownZero();
    assert (cmd + REPLY_BIT) / REPLY_BIT % 2 == 1;
    ParseWords(cmd + REPLY_BIT, size, 0, 0, payload);
    assert payload[..(size - 16) / 4] == payload;
    ParseFront(Frame(cmd + REPLY_BIT, data), rest);
  }

  lemma ReplyWords(cmd: Word32, data: seq<Word32>)
    requires cmd / REPLY_BIT % 2 == 0 && |data| < 0x1000_0000
    ensures var payload := if data == [] then [0] else data;
      && cmd + REPLY_BIT < TWO_32 && (4 + |payload|) * 4 < TWO_32
      && Frame(cmd + REPLY_BIT, data) == Network([cmd + REPLY_BIT, (4 + |payload|) * 4, 0, 0] + payload)
  {
    hide Network;
  }

  lemma ZeroWord()
    ensures BigEndian4(0) == [0, 0, 0, 0]
  {
  }

  lemma FrameWords(cmd: Word32, data: seq<Word32>)
    requires |data| < 0x1000_0000
    ensures var b, payload := Frame(cmd, data), if data == [] then [0] else data;
      |b| == 16 + 4 * |payload| && b == Network([cmd, |b|, 0, 0] + payload)
  {
    hide Network;
  }

  /** Every command frame: the command, the frame's own number of bytes, eight zero bytes (no error, chip 0), and the
      payload, each word most significant byte first. */
  lemma FrameLayout(cmd: Word32, data: seq<Word32>)
    requires |data| < 0x1000_0000
    ensures var b, payload := Frame(cmd, data), if data == [] then [0] else data;
      && |b| == 16 + 4 * |payload| && b[..4] == BigEndian4(cmd) && b[4..8] == BigEndian4(|b|)
      && b[8..16] == [0, 0, 0, 0, 0, 0, 0, 0]
      && forall i | 0 <= i < |payload| :: b[16 + 4 * i..20 + 4 * i] == BigEndian4(payload[i])
  {
    hide Network, WordAt, BigEndian4, Frame;
    FrameWords(cmd, data);
    ZeroWord();
    var b, payload: seq<Word32> := Frame(cmd, data), if data == [] then [0] else data;
    HeaderWords(cmd, |b|, 0, 0, payload);
    WordStored(b, 0);
    WordStored(b, 1);
    WordStored(b, 2);
    WordStored(b, 3);
    assert b[8..16] == b[8..12] + b[12..16];
    DataWords([cmd, |b|, 0, 0], payload, |payload|);
    forall i | 0 <= i < |payload| ensures b[16 + 4 * i..20 + 4 * i] == BigEndian4(payload[i]) {
      assert Payload(b, |payload|)[i] == WordAt(b, 4 + i);
      WordStored(b, 4 + i);
    }
  }

  /** The message that sendCommand builds, as the bytes of its words. */
  method BuildCommand(cmd: Word32, data: seq<Word32>) returns (bytes: seq<Byte>)
    ensures bytes == Frame(cmd, data)
  {
    hide Network, Bytes4, Htonl;
    var msgSize := Max(4 + |data|, 5);
    ghost var ws: seq<Word32> := [cmd, msgSize * 4 % TWO_32, 0, 0] + if data == [] then [0] else data;
    HtonlZero();
    var message: seq<Word32> := [Htonl(cmd), Htonl(msgSize * 4 % TWO_32), 0, 0];
    if data == [] {
      message := message + [0];
    } else {
      for i := 0 to |data|
        invariant |message| == 4 + i && forall k | 0 <= k < |message| :: message[k] == Htonl(ws[k])
      {
        message := message + [Htonl(data[i])];
      }
    }
    bytes := StoreAll(message, ws);
  }

  /** memcpy into a buffer that is large enough. */
  method CopyInto(buffer: array<Byte>, bytes: seq<Byte>)
    requires |bytes| <= buffer.Length
    modifies buffer
    ensures buffer[..|bytes|] == bytes && buffer[|bytes|..] == old(buffer[|bytes|..])
  {
    for i := 0 to |bytes|
      invariant buffer[..i] == bytes[..i] && buffer[|bytes|..] == old(buffer[|bytes|..])
    {
      buffer[i] := bytes[i];
      assert buffer[..i + 1] == buffer[..i] + [bytes[i]];
    }
  }

  lemma HtonlZero()
    ensures Htonl(0) == 0
  {
  }

  /** The bytes in memory of words that went through htonl. */
  method StoreAll(message: seq<Word32>, ghost ws: seq<Word32>) returns (b: seq<Byte>)
    requires |message| == |ws| && forall k | 0 <= k < |ws| :: message[k] == Htonl(ws[k])
    ensures b == Network(ws)
  {
    hide Htonl, Bytes4, BigEndian4;
    b := [];
    for i := 0 to |message|
      invariant b == Network(ws[..i])
    {
      HtonlStoresBigEndian(ws[i]);
      assert ws[..i + 1][..i] == ws[..i];
      b := b + Bytes4(message[i]);
    }
    assert ws[..|ws|] == ws;
  }

  /** The checks and the reading loop of commandRecv. */
  method ReadReply(received: seq<Byte>) returns (r: Parsed)
    ensures r == Parse(received)
  {
    hide WordAt;
    if |received| < 20 || |received| % 4 != 0 {
      return Refused;
    }
    var cmdInt := WordAt(received, 0);
    if cmdInt / REPLY_BIT % 2 == 0 {
      return Refused;
    }
    var numBytes, errorInt, chipNum := WordAt(received, 1), WordAt(received, 2), WordAt(received, 3);
    if errorInt != 0 && !KnownError(errorInt) {
      return OutOfBounds;
    }
    if chipNum != 0 || |received| < numBytes {
      return Refused;
    }
    if numBytes < 16 {
      return OutOfBounds;
    }
    var data: seq<Word32> := [];
    for i := 0 to (numBytes - 16) / 4
      invariant data == Payload(received, i)
    {
      data := data + [WordAt(received, 4 + i)];
    }
    r := Command(cmdInt - REPLY_BIT, data);
  }
}
