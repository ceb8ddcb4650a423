/**
 * ADB message framing: a 24-byte little-endian header, then the payload. Parsing is
 * proved to depend only on the bytes received, never on how they were chunked, and
 * to invert serialization.
 */
module AdbFraming {
  import opened Wrappers

  type Byte = x: int | 0 <= x < 256
  type U32 = x: int | 0 <= x < 0x1_0000_0000

  const HEADER_SIZE: nat := 24
  const MAX_PAYLOAD: nat := 4096
  const A_CNXN: U32 := 0x4e584e43
  const A_OPEN: U32 := 0x4e45504f
  const A_WRTE: U32 := 0x45545257
  const A_OKAY: U32 := 0x59414b4f
  const A_CLSE: U32 := 0x45534c43
  const A_AUTH: U32 := 0x48545541

  datatype Message = Message(command: U32, arg0: U32, arg1: U32, payload: seq<Byte>)

  // -- Header fields -----------------------------------------------------------------

  function Sum(data: seq<Byte>): nat {
    if data == [] then 0 else Sum(data[..|data| - 1]) + data[|data| - 1]
  }

  /** The 32-bit signed value JavaScript's bitwise operators produce. */
  function ToInt32(x: int): int {
    var m := x % 0x1_0000_0000;
    if m < 0x8000_0000 then m else m - 0x1_0000_0000
  }

  function LE32(v: U32): (b: seq<Byte>)
    ensures |b| == 4
  {
    [v % 256, v / 256 % 256, v / 65536 % 256, v / 16777216]
  }

  function ReadLE32(buf: seq<Byte>, offset: nat): (v: U32)
    requires offset + 4 <= |buf|
  {
    buf[offset] as int + 256 * buf[offset + 1] as int + 65536 * buf[offset + 2] as int
      + 16777216 * buf[offset + 3] as int
  }

  lemma ReadBack(buf: seq<Byte>, offset: nat, v: U32)
    requires offset + 4 <= |buf| && buf[offset..offset + 4] == LE32(v)
    ensures ReadLE32(buf, offset) == v
  {
    var b := buf[offset..offset + 4];
    assert b[0] == buf[offset] && b[1] == buf[offset + 1] && b[2] == buf[offset + 2] && b[3] == buf[offset + 3];
    assert v / 256 == v / 65536 * 256 + v / 256 % 256;
    assert v / 65536 == v / 16777216 * 256 + v / 65536 % 256;
  }

  /** Whether every header field of a message with this payload fits an unsigned 32-bit slot. */
  predicate Sendable(payload: seq<Byte>) {
    |payload| < 0x1_0000_0000 && ToInt32(Sum(payload)) >= 0
  }

  lemma {:induction false} SumBound(data: seq<Byte>)
    ensures Sum(data) <= 255 * |data|
  {
    if data != [] {
      SumBound(data[..|data| - 1]);
    }
  }

  /** The payload cap keeps every message sendable; the checksum first turns negative far beyond it. */
  lemma CapIsSendable(payload: seq<Byte>)
    requires |payload| <= MAX_PAYLOAD
    ensures Sendable(payload)
  {
    SumBound(payload);
  }

  function Header(command: U32, arg0: U32, arg1: U32, length: U32, sum: U32): (h: seq<Byte>)
    ensures |h| == HEADER_SIZE
  {
    LE32(command) + LE32(arg0) + LE32(arg1) + LE32(length) + LE32(sum) + LE32(0xffff_ffff - command)
  }

  function Encode(msg: Message): (bytes: seq<Byte>)
    requires Sendable(msg.payload)
    ensures |bytes| == HEADER_SIZE + |msg.payload|
  {
    Header(msg.command, msg.arg0, msg.arg1, |msg.payload|, ToInt32(Sum(msg.payload))) + msg.payload
  }

  // -- Serialization, as buffer writes --------------------------------------------------

  method Checksum(data: seq<Byte>) returns (c: int)
    ensures c == ToInt32(Sum(data))
  {
    var sum: int := 0;
    for i := 0 to |data|
      invariant sum == Sum(data[..i])
    {
      assert data[..i + 1][..i] == data[..i];
      sum := sum + data[i];
    }
    assert data[..|data|] == data;
    c := ToInt32(sum);
  }

  /** Fails, leaving the buffer alone, when the value is outside the unsigned 32-bit range. */
  method WriteUInt32LE(buf: array<Byte>, v: int, offset: nat) returns (ok: bool)
    requires offset + 4 <= buf.Length
    modifies buf
    ensures ok <==> 0 <= v < 0x1_0000_0000
    ensures buf[..] == if ok then old(buf[..])[..offset] + LE32(v) + old(buf[..])[offset + 4..] else old(buf[..])
  {
    ok := 0 <= v < 0x1_0000_0000;
    if ok {
      var b := LE32(v);
      buf[offset], buf[offset + 1], buf[offset + 2], buf[offset + 3] := b[0], b[1], b[2], b[3];
      assert buf[..] == old(buf[..])[..offset] + b + old(buf[..])[offset + 4..];
    }
  }

  /** None is the range error a header write raises. */
  method SerializeHeader(command: U32, arg0: U32, arg1: U32, payload: seq<Byte>) returns (h: Option<seq<Byte>>)
    ensures h.Some? <==> Sendable(payload)
    ensures h.Some? ==> h.value + payload == Encode(Message(command, arg0, arg1, payload))
  {
    var header := new Byte[HEADER_SIZE](_ => 0);
    var sum := Checksum(payload);
    ghost var all := LE32(command) + LE32(arg0) + LE32(arg1);
    var ok := WriteUInt32LE(header, command, 0);
    ok := WriteUInt32LE(header, arg0, 4);
    ok := WriteUInt32LE(header, arg1, 8);
    assert header[..12] == all;
    ok := WriteUInt32LE(header, |payload|, 12);
    if !ok {
      return None;
    }
    assert header[..16] == all + LE32(|payload|);
    ok := WriteUInt32LE(header, sum, 16);
    if !ok {
      return None;
    }
    assert header[..20] == all + LE32(|payload|) + LE32(sum);
    ok := WriteUInt32LE(header, 0xffff_ffff - command, 20);
    assert header[..] == all + LE32(|payload|) + LE32(sum) + LE32(0xffff_ffff - command);
    h := Some(header[..]);
  }

  // -- Parsing -----------------------------------------------------------------------

  /** The first whole message in the buffer and the bytes after it. */
  function ParseOne(buf: seq<Byte>): (r: Option<(Message, seq<Byte>)>)
    ensures r.Some? ==> |r.value.1| + HEADER_SIZE <= |buf|
  {
    if |buf| < HEADER_SIZE then None
    else
      var total := HEADER_SIZE + ReadLE32(buf, 12);
      if |buf| < total then None
      else Some((Message(ReadLE32(buf, 0), ReadLE32(buf, 4), ReadLE32(buf, 8), buf[HEADER_SIZE..total]),
                 buf[total..]))
  }

  /** Every whole message in the buffer, in order, and what is left over. */
  function ParseAll(buf: seq<Byte>): (seq<Message>, seq<Byte>)
    decreases |buf|
  {
    match ParseOne(buf)
    case None => ([], buf)
    case Some((msg, rest)) =>
      var (msgs, left) := ParseAll(rest);
      ([msg] + msgs, left)
  }

  lemma ParseOneExtends(a: seq<Byte>, b: seq<Byte>)
    requires ParseOne(a).Some?
    ensures ParseOne(a + b) == Some((ParseOne(a).value.0, ParseOne(a).value.1 + b))
  {
    var total := HEADER_SIZE + ReadLE32(a, 12);
    assert ReadLE32(a + b, 12) == ReadLE32(a, 12);
    assert (a + b)[HEADER_SIZE..total] == a[HEADER_SIZE..total];
    assert (a + b)[total..] == a[total..] + b;
  }

  /** Parsing now and parsing the left-over with more bytes later is parsing it all at once. */
  lemma {:induction false} ParseIncremental(a: seq<Byte>, b: seq<Byte>)
    ensures ParseAll(a + b).0 == ParseAll(a).0 + ParseAll(ParseAll(a).1 + b).0
    ensures ParseAll(a + b).1 == ParseAll(ParseAll(a).1 + b).1
    decreases |a|
  {
    hide ParseOne;
    if ParseOne(a).Some? {
      ParseOneExtends(a, b);
      ParseIncremental(ParseOne(a).value.1, b);
    }
  }

  lemma {:induction false} LeftOverIsIncomplete(buf: seq<Byte>)
    ensures ParseOne(ParseAll(buf).1).None?
    decreases |buf|
  {
    if ParseOne(buf).Some? {
      LeftOverIsIncomplete(ParseOne(buf).value.1);
    }
  }

  lemma HeaderReadsBack(msg: Message, rest: seq<Byte>)
    requires Sendable(msg.payload)
    ensures var buf := Encode(msg) + rest;
            && ReadLE32(buf, 0) == msg.command && ReadLE32(buf, 4) == msg.arg0
            && ReadLE32(buf, 8) == msg.arg1 && ReadLE32(buf, 12) == |msg.payload|
  {
    var buf := Encode(msg) + rest;
    assert buf[0..4] == LE32(msg.command);
    assert buf[4..8] == LE32(msg.arg0);
    assert buf[8..12] == LE32(msg.arg1);
    assert buf[12..16] == LE32(|msg.payload|);
    ReadBack(buf, 0, msg.command);
    ReadBack(buf, 4, msg.arg0);
    ReadBack(buf, 8, msg.arg1);
    ReadBack(buf, 12, |msg.payload|);
  }

  /** The last two header words, which the parser never looks at: byte sum and complemented command. */
  lemma TailOfHeader(msg: Message)
    requires Sendable(msg.payload)
    ensures ReadLE32(Encode(msg), 16) == Sum(msg.payload) % 0x1_0000_0000
    ensures ReadLE32(Encode(msg), 20) + msg.command == 0xffff_ffff
  {
    var buf := Encode(msg);
    var sum := ToInt32(Sum(msg.payload));
    assert sum == Sum(msg.payload) % 0x1_0000_0000;
    assert buf[16..20] == LE32(sum);
    assert buf[20..24] == LE32(0xffff_ffff - msg.command);
    ReadBack(buf, 16, sum);
    ReadBack(buf, 20, 0xffff_ffff - msg.command);
  }

  /** Every byte a sent message puts on the wire: six little-endian words, then the payload. */
  lemma WireFormat(msg: Message)
    requires Sendable(msg.payload)
    ensures var b := Encode(msg);
            && |b| == 24 + |msg.payload| && b[24..] == msg.payload
            && ReadLE32(b, 0) == msg.command && ReadLE32(b, 4) == msg.arg0 && ReadLE32(b, 8) == msg.arg1
            && ReadLE32(b, 12) == |msg.payload|
            && ReadLE32(b, 16) == Sum(msg.payload) % 0x1_0000_0000
            && ReadLE32(b, 20) == 0xffff_ffff - msg.command
  {
    HeaderReadsBack(msg, []);
    assert Encode(msg) + [] == Encode(msg);
    TailOfHeader(msg);
  }

  /** Equal header words are equal bytes, so `WireFormat` leaves no byte of a header open. */
  lemma WordsAreBytes(a: seq<Byte>, b: seq<Byte>)
    requires |a| == |b| == 24
    requires forall i | 0 <= i < 6 :: ReadLE32(a, 4 * i) == ReadLE32(b, 4 * i)
    ensures a == b
  {
    forall k | 0 <= k < 24 ensures a[k] == b[k] {
      var i := k / 4;
      assert ReadLE32(a, 4 * i) == ReadLE32(b, 4 * i);
      WordIsItsBytes(a[4 * i], a[4 * i + 1], a[4 * i + 2], a[4 * i + 3],
                     b[4 * i], b[4 * i + 1], b[4 * i + 2], b[4 * i + 3]);
    }
  }

  lemma WordIsItsBytes(a0: Byte, a1: Byte, a2: Byte, a3: Byte, b0: Byte, b1: Byte, b2: Byte, b3: Byte)
    requires a0 + 256 * a1 + 65536 * a2 + 16777216 * a3 == b0 + 256 * b1 + 65536 * b2 + 16777216 * b3
    ensures a0 == b0 && a1 == b1 && a2 == b2 && a3 == b3
  {
    LowestByte(a0, a1 + 256 * a2 + 65536 * a3, b0, b1 + 256 * b2 + 65536 * b3);
    LowestByte(a1, a2 + 256 * a3, b1, b2 + 256 * b3);
    LowestByte(a2, a3, b2, b3);
  }

  lemma LowestByte(low: Byte, high: int, low': Byte, high': int)
    requires low + 256 * high == low' + 256 * high'
    ensures low == low' && high == high'
  {
  }

  /** The four bytes of a word, lowest first, are the codes of the four letters of `name`. */
  predicate Spells(v: U32, name: string) {
    |name| == 4 && LE32(v)[0] == name[0] as int && LE32(v)[1] == name[1] as int
    && LE32(v)[2] == name[2] as int && LE32(v)[3] == name[3] as int
  }

  /** On the wire each command word reads as its own four letters. */
  lemma CommandsSpellTheirNames()
    ensures Spells(A_CNXN, "CNXN") && Spells(A_OPEN, "OPEN") && Spells(A_WRTE, "WRTE")
    ensures Spells(A_OKAY, "OKAY") && Spells(A_CLSE, "CLSE") && Spells(A_AUTH, "AUTH")
  {
  }

  /** The checksum adds up every byte wherever it stands. */
  lemma {:induction false} SumAdds(a: seq<Byte>, b: seq<Byte>)
    ensures Sum(a + b) == Sum(a) + Sum(b)
  {
    if b == [] {
      assert a + b == a;
    } else {
      var n := |b| - 1;
      SumAdds(a, b[..n]);
      assert (a + b)[..|a + b| - 1] == a + b[..n];
    }
  }

  /** A serialized message at the front of a buffer parses back to itself. */
  lemma EncodeParses(msg: Message, rest: seq<Byte>)
    requires Sendable(msg.payload)
    ensures ParseOne(Encode(msg) + rest) == Some((msg, rest))
  {
    HeaderReadsBack(msg, rest);
    var buf := Encode(msg) + rest;
    var total := HEADER_SIZE + |msg.payload|;
    assert buf[HEADER_SIZE..total] == msg.payload;
    assert buf[total..] == rest;
  }

  lemma ParseNothing(buf: seq<Byte>)
    requires buf == [] || ParseOne(buf).None?
    ensures ParseAll(buf) == ([], buf)
  {
  }

  lemma ParsePeelsOff(msg: Message, rest: seq<Byte>)
    requires Sendable(msg.payload)
    ensures ParseAll(Encode(msg) + rest) == ([msg] + ParseAll(rest).0, ParseAll(rest).1)
  {
    hide Encode;
    EncodeParses(msg, rest);
  }

  /** A proper prefix of a serialized message is never mistaken for a whole one. */
  lemma PartialDoesNotParse(msg: Message, n: nat)
    requires Sendable(msg.payload) && n < |Encode(msg)|
    ensures ParseOne(Encode(msg)[..n]).None?
  {
    if n >= HEADER_SIZE {
      HeaderReadsBack(msg, []);
      assert Encode(msg) + [] == Encode(msg);
      var p := Encode(msg)[..n];
      assert ReadLE32(p, 12) == ReadLE32(Encode(msg), 12);
    }
  }

  // -- Streams of messages in arbitrary chunks --------------------------------------------

  ghost predicate AllSendable(msgs: seq<Message>) {
    forall m | m in msgs :: Sendable(m.payload)
  }

  function EncodeAll(msgs: seq<Message>): seq<Byte>
    requires AllSendable(msgs)
  {
    if msgs == [] then [] else Encode(msgs[0]) + EncodeAll(msgs[1..])
  }

  function Flatten(chunks: seq<seq<Byte>>): seq<Byte> {
    if chunks == [] then [] else Flatten(chunks[..|chunks| - 1]) + chunks[|chunks| - 1]
  }

  /** The receiver: append a chunk to the buffer, route what is whole, keep the rest. */
  function Receive(chunks: seq<seq<Byte>>): (seq<Message>, seq<Byte>) {
    if chunks == [] then ([], [])
    else
      var (routed, buf) := Receive(chunks[..|chunks| - 1]);
      var (more, left) := ParseAll(buf + chunks[|chunks| - 1]);
      (routed + more, left)
  }

  /** On any byte stream, well formed or not, chunking is invisible. */
  lemma {:induction false} ChunkingInvisible(chunks: seq<seq<Byte>>)
    ensures Receive(chunks) == ParseAll(Flatten(chunks))
  {
    if chunks != [] {
      var n := |chunks| - 1;
      ChunkingInvisible(chunks[..n]);
      ParseIncremental(Flatten(chunks[..n]), chunks[n]);
    }
  }

  /** What a receiver holds part-way through a stream of serialized messages. */
  lemma {:induction false} PrefixParses(msgs: seq<Message>, n: nat) returns (k: nat)
    requires AllSendable(msgs) && n <= |EncodeAll(msgs)|
    ensures k <= |msgs|
    ensures ParseAll(EncodeAll(msgs)[..n]).0 == msgs[..k]
    ensures EncodeAll(msgs[..k]) + ParseAll(EncodeAll(msgs)[..n]).1 == EncodeAll(msgs)[..n]
    ensures k < |msgs| ==> |ParseAll(EncodeAll(msgs)[..n]).1| < |Encode(msgs[k])|
    ensures k == |msgs| ==> ParseAll(EncodeAll(msgs)[..n]).1 == []
    decreases |msgs|
  {
    hide Encode, ParseAll, ParseOne, Sendable;
    if msgs == [] {
      k := 0;
      assert EncodeAll(msgs)[..n] == [] && msgs[..0] == [];
      ParseNothing([]);
    } else {
      var all, first := EncodeAll(msgs), Encode(msgs[0]);
      if n < |first| {
        k := 0;
        assert all[..n] == first[..n];
        PartialDoesNotParse(msgs[0], n);
        ParseNothing(all[..n]);
        assert EncodeAll(msgs[..0]) == [];
      } else {
        var m := n - |first|;
        var part := EncodeAll(msgs[1..])[..m];
        assert all[..n] == first + part;
        ParsePeelsOff(msgs[0], part);
        var k' := PrefixParses(msgs[1..], m);
        k := k' + 1;
        assert msgs[..k] == [msgs[0]] + msgs[1..][..k'];
        assert msgs[..k][1..] == msgs[1..][..k'];
        assert EncodeAll(msgs[..k]) == first + EncodeAll(msgs[1..][..k']);
        assert first + EncodeAll(msgs[1..][..k']) + ParseAll(part).1 == first + part;
      }
    }
  }

  lemma {:induction false} FlattenSplit(chunks: seq<seq<Byte>>, i: nat)
    requires i <= |chunks|
    ensures exists tail :: Flatten(chunks) == Flatten(chunks[..i]) + tail
  {
    if i == |chunks| {
      assert chunks[..i] == chunks;
      assert Flatten(chunks) == Flatten(chunks[..i]) + [];
    } else {
      var n := |chunks| - 1;
      FlattenSplit(chunks[..n], i);
      assert chunks[..n][..i] == chunks[..i];
      var tail :| Flatten(chunks[..n]) == Flatten(chunks[..i]) + tail;
      assert Flatten(chunks) == Flatten(chunks[..i]) + (tail + chunks[n]);
    }
  }

  /**
   * Framing is lossless: after any number of chunks of a serialized stream, exactly
   * the messages wholly received have been routed, in order and unchanged, and less
   * than one whole message is buffered.
   */
  lemma FramingIsLossless(msgs: seq<Message>, chunks: seq<seq<Byte>>, i: nat) returns (k: nat)
    requires AllSendable(msgs) && Flatten(chunks) == EncodeAll(msgs) && i <= |chunks|
    ensures k <= |msgs| && Receive(chunks[..i]).0 == msgs[..k]
    ensures EncodeAll(msgs[..k]) + Receive(chunks[..i]).1 == Flatten(chunks[..i])
    ensures k < |msgs| ==> |Receive(chunks[..i]).1| < |Encode(msgs[k])|
    ensures i == |chunks| ==> k == |msgs| && Receive(chunks).1 == []
  {
    FlattenSplit(chunks, i);
    var tail :| Flatten(chunks) == Flatten(chunks[..i]) + tail;
    var n := |Flatten(chunks[..i])|;
    assert EncodeAll(msgs)[..n] == Flatten(chunks[..i]);
    ChunkingInvisible(chunks[..i]);
    k := PrefixParses(msgs, n);
    if i == |chunks| {
      assert chunks[..i] == chunks;
      if k < |msgs| {
        EncodeAllSplit(msgs, k);
      }
    }
  }

  lemma {:induction false} EncodeAllSplit(msgs: seq<Message>, k: nat)
    requires AllSendable(msgs) && k < |msgs|
    ensures |EncodeAll(msgs)| >= |EncodeAll(msgs[..k])| + |Encode(msgs[k])|
  {
    if k > 0 {
      EncodeAllSplit(msgs[1..], k - 1);
      assert msgs[..k][1..] == msgs[1..][..k - 1];
    }
  }
}
