/** The control codec: a 4-byte length and a MessagePack body, on an ordered byte stream. */
module Codec {
  import opened Bytes
  import opened Framing
  import opened Streams

  const LENGTH_SIZE := 4
  const MAX_MSG_SIZE := 1024 * 1024

  datatype Message = Message(typ: byte, payload: seq<byte>)

  /** `msgpack.Marshal` and `msgpack.Unmarshal` of a `Message`. */
  datatype PackerOps = PackerOps(
    marshal: Message -> seq<byte>,
    unmarshal: seq<byte> -> Option<Message>)

  ghost predicate Inverse(p: PackerOps) {
    forall m {:trigger p.marshal(m)} :: p.marshal(m) != [] && p.unmarshal(p.marshal(m)) == Some(m)
  }

  function TypeThenPayload(): (p: PackerOps)
    ensures Inverse(p)
  {
    var p := PackerOps(
      (m: Message) => [m.typ] + m.payload,
      (s: seq<byte>) => if s == [] then None else Some(Message(s[0], s[1..])));
    assert forall m: Message :: ([m.typ] + m.payload)[1..] == m.payload;
    p
  }

  type Packer = p: PackerOps | Inverse(p) witness TypeThenPayload()

  /** The bytes `Encode` writes. `uint32(len(data))` wraps, and nothing bounds the length. */
  function EncodeMessage(p: Packer, m: Message): seq<byte> {
    PutUint32(|p.marshal(m)|) + p.marshal(m)
  }

  function MessageEncoder(p: Packer): Message -> seq<byte> {
    m => EncodeMessage(p, m)
  }

  function EncodeMessages(p: Packer, ms: seq<Message>): seq<byte> {
    EncodeAll(MessageEncoder(p), ms)
  }

  /** A message within the limit that `Decode` enforces. */
  predicate Fits(p: Packer, m: Message) {
    |p.marshal(m)| <= MAX_MSG_SIZE
  }

  /** The checked length of the next message. */
  function ParseLength(s: seq<byte>, end: IoError): (r: Parsed<nat>)
    ensures r.Item? ==> |r.rest| < |s| && r.value <= MAX_MSG_SIZE
  {
    var header := FullRead(s, LENGTH_SIZE, end);
    if header.err.Some? then Stop(header.err.value, header.rest)
    else if Uint32(header.got) > MAX_MSG_SIZE then Stop(ShortBuffer, header.rest)
    else Item(Uint32(header.got), header.rest)
  }

  function ParseData(p: Packer, len: nat, s: seq<byte>, end: IoError): (r: Parsed<Message>)
    ensures |r.rest| <= |s|
  {
    var body := FullRead(s, len, end);
    if body.err.Some? then Stop(body.err.value, body.rest)
    else match p.unmarshal(body.got)
      case None => Stop(UnmarshalError, body.rest)
      case Some(m) => Item(m, body.rest)
  }

  /** `Decode` on a stream that still delivers `s` and then ends with `end`. */
  function ParseMessage(p: Packer, s: seq<byte>, end: IoError): (r: Parsed<Message>)
    ensures r.Item? ==> |r.rest| < |s|
  {
    match ParseLength(s, end)
    case Stop(e, rest) => Stop(e, rest)
    case Item(len, rest) => ParseData(p, len, rest, end)
  }

  function MessageParser(p: Packer, end: IoError): Parser<Message> {
    s => ParseMessage(p, s, end)
  }

  // ---------------------------------------------------------------- the imperative codec

  class Encoder {
    const packer: Packer
    const w: OutStream

    constructor (packer: Packer, w: OutStream)
      ensures this.packer == packer && this.w == w
    {
      this.packer, this.w := packer, w;
    }

    /** Writes the length and then the data. A failure leaves a prefix of the encoding. */
    method Encode(m: Message) returns (err: Option<IoError>, ghost n: nat)
      modifies w
      ensures n <= |EncodeMessage(packer, m)|
      ensures w.sent == old(w.sent) + EncodeMessage(packer, m)[..n]
      ensures err == None ==> n == |EncodeMessage(packer, m)|
      ensures w.failures == old(w.failures) + if err == None then 0 else 1
    {
      var data := packer.marshal(m);
      ghost var before, all := w.sent, EncodeMessage(packer, m);
      n, err := WriteSeq(PutUint32(|data|));
      assert PutUint32(|data|)[..n] == all[..n];
      if err == None {
        var k;
        k, err := WriteSeq(data);
        assert all[..4] + data[..k] == all[..4 + k];
        n := 4 + k;
      }
    }

    method WriteSeq(s: seq<byte>) returns (n: nat, err: Option<IoError>)
      modifies w
      ensures n <= |s| && w.sent == old(w.sent) + s[..n]
      ensures err == None ==> n == |s|
      ensures w.failures == old(w.failures) + if err == None then 0 else 1
    {
      var buf := new byte[|s|](i requires 0 <= i < |s| => s[i]);
      assert buf[..] == s;
      n, err := w.Write(buf, 0, buf.Length);
      assert buf[0..n] == s[..n];
    }
  }

  class Decoder {
    const packer: Packer
    const r: InStream

    constructor (packer: Packer, r: InStream)
      ensures this.packer == packer && this.r == r
    {
      this.packer, this.r := packer, r;
    }

    method Decode() returns (m: Message, err: Option<IoError>)
      modifies r`incoming
      ensures match ParseMessage(packer, old(r.incoming), r.atEnd)
              case Stop(e, rest) => err == Some(e) && r.incoming == rest
              case Item(x, rest) => err == None && m == x && r.incoming == rest
    {
      m := Message(0, []);
      var lenBuf := new byte[LENGTH_SIZE];
      ghost var header := FullRead(r.incoming, LENGTH_SIZE, r.atEnd);
      err := r.ReadFull(lenBuf, 0, LENGTH_SIZE);
      if err != None {
        return;
      }
      assert lenBuf[..] == header.got;
      var length := Uint32(lenBuf[..]);
      if length > MAX_MSG_SIZE {
        err := Some(ShortBuffer);
        return;
      }
      var data := new byte[length];
      err := r.ReadFull(data, 0, length);
      if err != None {
        return;
      }
      assert data[..] == FullRead(header.rest, length, r.atEnd).got;
      match packer.unmarshal(data[..])
      case None =>
        err := Some(UnmarshalError);
      case Some(x) =>
        m := x;
    }
  }

  // ---------------------------------------------------------------- properties

  /** The header holds the length modulo 2^32, and it alone decides whether `Decode` goes on. */
  lemma HeaderOf(len: nat, t: seq<byte>, end: IoError)
    ensures ParseLength(PutUint32(len) + t, end)
         == if len % 0x1_0000_0000 > MAX_MSG_SIZE then Stop(ShortBuffer, t) else Item(len % 0x1_0000_0000, t)
  {
    var s := PutUint32(len) + t;
    Uint32OfPut(len);
    assert s[..LENGTH_SIZE] == PutUint32(len) && s[LENGTH_SIZE..] == t;
  }

  /** `Decode` of any bytes, in numbers: it succeeds if and only if the announced length is at
      most 1048576, so many bytes follow, and exactly these unmarshal; and then it returns what
      they unmarshal to and leaves what follows them. */
  lemma DecodesAnnounced(p: Packer, s: seq<byte>, end: IoError)
    requires |s| >= 4
    ensures var len := 0x100_0000 * (s[0] as int) + 0x1_0000 * (s[1] as int) + 0x100 * (s[2] as int) + s[3] as int;
            && (len > 1048576 ==> ParseMessage(p, s, end) == Stop(ShortBuffer, s[4..]))
            && (len <= 1048576 && |s| < 4 + len ==>
                  ParseMessage(p, s, end) == Stop(if |s| > 4 && end == EOF then UnexpectedEOF else end, []))
            && (len <= 1048576 && |s| >= 4 + len ==>
                  && (p.unmarshal(s[4..4 + len]) == None ==>
                        ParseMessage(p, s, end) == Stop(UnmarshalError, s[4 + len..]))
                  && (p.unmarshal(s[4..4 + len]).Some? ==>
                        ParseMessage(p, s, end) == Item(p.unmarshal(s[4..4 + len]).value, s[4 + len..])))
  {
    var len := 0x100_0000 * (s[0] as int) + 0x1_0000 * (s[1] as int) + 0x100 * (s[2] as int) + s[3] as int;
    assert s[..4][..2] == [s[0], s[1]] && s[..4][2..] == [s[2], s[3]];
    assert Uint32(s[..4]) == len;
    if |s| >= 4 + len {
      assert s[4..][..len] == s[4..4 + len] && s[4..][len..] == s[4 + len..];
    }
  }

  /** And with fewer than four bytes there is no length to read. */
  lemma DecodesNoLength(p: Packer, s: seq<byte>, end: IoError)
    requires |s| < 4
    ensures ParseMessage(p, s, end) == Stop(if s != [] && end == EOF then UnexpectedEOF else end, [])
  {
  }

  /** The four bytes of the length, most significant first, and then the data. */
  lemma EncodedBytes(p: Packer, m: Message)
    ensures var len := |p.marshal(m)|;
            EncodeMessage(p, m) == [len / 0x100_0000 % 0x100, len / 0x1_0000 % 0x100, len / 0x100 % 0x100, len % 0x100]
                                   + p.marshal(m)
  {
    PutUint32Bytes(|p.marshal(m)|);
  }

  /** `Decode` gives a message back, and leaves exactly what follows it, if and only if its
      encoding is at most `MaxMsgSize` bytes. This covers lengths that wrap in the header. */
  lemma DecodesIffFits(p: Packer, m: Message, rest: seq<byte>, end: IoError)
    ensures ParseMessage(p, EncodeMessage(p, m) + rest, end) == Item(m, rest) <==> Fits(p, m)
  {
    var data := p.marshal(m);
    var len := |data| % 0x1_0000_0000;
    assert ParseLength(EncodeMessage(p, m) + rest, end)
        == if len > MAX_MSG_SIZE then Stop(ShortBuffer, data + rest) else Item(len, data + rest) by {
      Associate(PutUint32(|data|), data, rest);
      HeaderOf(|data|, data + rest, end);
    }
    if Fits(p, m) {
      SmallMod(|data|);
      assert (data + rest)[..len] == data && (data + rest)[len..] == rest;
    } else if len <= MAX_MSG_SIZE {
      assert |FullRead(data + rest, len, end).rest| == |data| + |rest| - len;
    }
  }

  /** An oversized message is rejected after exactly the four bytes of its length, which
      leaves its body in the stream (the length being one the header can hold). */
  lemma OversizedRejected(p: Packer, m: Message, rest: seq<byte>, end: IoError)
    requires !Fits(p, m) && |p.marshal(m)| < 0x1_0000_0000
    ensures ParseMessage(p, EncodeMessage(p, m) + rest, end) == Stop(ShortBuffer, p.marshal(m) + rest)
  {
    var data := p.marshal(m);
    Associate(PutUint32(|data|), data, rest);
    HeaderOf(|data|, data + rest, end);
    SmallMod(|data|);
  }

  lemma SmallMod(n: nat)
    requires n < 0x1_0000_0000
    ensures n % 0x1_0000_0000 == n
  {
  }

  lemma MessageCut(p: Packer, m: Message, j: nat, end: IoError)
    requires Fits(p, m) && j < |EncodeMessage(p, m)|
    ensures ParseMessage(p, EncodeMessage(p, m)[..j], end) == Stop(CutError(j, LENGTH_SIZE, end), [])
  {
    if j >= LENGTH_SIZE {
      var data := p.marshal(m);
      var part := data[..j - LENGTH_SIZE];
      assert EncodeMessage(p, m)[..j] == PutUint32(|data|) + part;
      HeaderOf(|data|, part, end);
      SmallMod(|data|);
    }
  }

  lemma MessagesRead(p: Packer, ms: seq<Message>, end: IoError)
    requires forall m | m in ms :: Fits(p, m)
    ensures MessageParser(p, end)([]) == Stop(end, [])
    ensures forall m | m in ms :: Reads(MessageEncoder(p), MessageParser(p, end), LENGTH_SIZE, end, m)
  {
    forall m | m in ms ensures Reads(MessageEncoder(p), MessageParser(p, end), LENGTH_SIZE, end, m) {
      forall rest ensures MessageParser(p, end)(MessageEncoder(p)(m) + rest) == Item(m, rest) {
        DecodesIffFits(p, m, rest, end);
      }
      forall j | 0 <= j < |MessageEncoder(p)(m)|
        ensures MessageParser(p, end)(MessageEncoder(p)(m)[..j]) == Stop(CutError(j, LENGTH_SIZE, end), [])
      {
        MessageCut(p, m, j, end);
      }
    }
  }

  /** Repeated `Decode` on a stream of messages cut at any byte returns exactly the complete
      messages, in order; a clean EOF is reported only between messages or right after a
      length. Uncut, it returns all of them. */
  lemma MessagesRoundTrip(p: Packer, ms: seq<Message>, k: nat, end: IoError)
    requires forall m | m in ms :: Fits(p, m)
    requires k <= |EncodeMessages(p, ms)|
    ensures var n, l := Complete(MessageEncoder(p), ms, k), Leftover(MessageEncoder(p), ms, k);
            && k == |EncodeMessages(p, ms[..n])| + l
            && (if n == |ms| then l == 0 else l < |EncodeMessage(p, ms[n])|)
            && Drain(MessageParser(p, end), EncodeMessages(p, ms)[..k])
               == Drained(ms[..n], CutError(l, LENGTH_SIZE, end))
    ensures k == |EncodeMessages(p, ms)| ==>
      Drain(MessageParser(p, end), EncodeMessages(p, ms)[..k]) == Drained(ms, end)
  {
    MessagesRead(p, ms, end);
    CutSplits(MessageEncoder(p), ms, k);
    CutStream(MessageEncoder(p), MessageParser(p, end), LENGTH_SIZE, end, ms, k);
    CompleteAll(MessageEncoder(p), ms);
    assert ms[..|ms|] == ms;
  }

  /** Messages before the first oversized one are received; then the reader stops with
      `io.ErrShortBuffer` (for lengths below 2^32, which the header can hold). */
  lemma StopsAtOversized(p: Packer, ms: seq<Message>, big: Message, rest: seq<byte>, end: IoError)
    requires forall m | m in ms :: Fits(p, m)
    requires !Fits(p, big) && |p.marshal(big)| < 0x1_0000_0000
    ensures Drain(MessageParser(p, end), EncodeMessages(p, ms) + (EncodeMessage(p, big) + rest))
         == Drained(ms, ShortBuffer)
  {
    var tail := EncodeMessage(p, big) + rest;
    var parse := MessageParser(p, end);
    assert Drain(parse, tail) == Drained([], ShortBuffer) by {
      OversizedRejected(p, big, rest, end);
      assert parse(tail) == Stop(ShortBuffer, p.marshal(big) + rest);
    }
    MessagesRead(p, ms, end);
    DrainAfter(MessageEncoder(p), MessageParser(p, end), LENGTH_SIZE, end, ms, tail);
    assert ms + [] == ms;
  }
}
