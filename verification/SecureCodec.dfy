/** The control codec on top of the encrypting connection: `SendMessage` and `RecvMessage`
    with a `ChaCha20Conn` as the writer and the reader, and the end-to-end guarantee. */
module SecureCodec {
  import opened Bytes
  import opened Framing
  import opened Streams
  import R = Records
  import opened ChaCha20
  import opened Codec

  /** Everything that `c` will still deliver, and the error after it. */
  ghost function Ahead(c: ChaCha20Conn): seq<byte>
    requires c.readAt <= c.readBuf.Length
    reads c, c.readBuf, c.inbound
  {
    R.Pending(c.aead, c.Leftover(), c.inbound.incoming, c.inbound.atEnd)
  }

  ghost function AtEnd(c: ChaCha20Conn): IoError
    reads c, c.inbound
  {
    Drain(R.FrameParser(c.aead, c.inbound.atEnd), c.inbound.incoming).error
  }

  /** The connection can read into `b`, which is not one of its own arrays. */
  ghost predicate CanRead(c: ChaCha20Conn, b: array<byte>)
    reads c, c.readBuf, c.framePool, c.readPool
  {
    c.Valid() && b != c.readBuf && b !in c.readPool.all && b !in c.framePool.all
  }

  /** One `Read` of the connection, seen from above: it takes its bytes off the front of the
      plaintext stream, or reports the end of it. This is the contract of a plain stream. */
  method ReadSome(c: ChaCha20Conn, b: array<byte>, lo: nat) returns (k: nat, err: Option<IoError>, ghost out: seq<byte>)
    requires CanRead(c, b)
    requires lo < b.Length
    modifies c`readBuf, c`readAt, b, c.inbound`incoming, c.readPool, c.readPool.all
    ensures CanRead(c, b) && fresh(c.readPool.all - old(c.readPool.all))
    ensures c.readBuf == old(c.readBuf) || fresh(c.readBuf)
    ensures k == |out| <= b.Length - lo && b[..] == Splice(old(b[..]), lo, out)
    ensures err == None ==> old(Ahead(c)) == out + Ahead(c) && AtEnd(c) == old(AtEnd(c))
    ensures err == None ==> k > 0 || |c.inbound.incoming| < |old(c.inbound.incoming)|
    ensures err != None ==> old(Ahead(c)) == out == [] && err == Some(old(AtEnd(c)))
    ensures |c.inbound.incoming| <= |old(c.inbound.incoming)|
  {
    ghost var r := R.ReadOnce(c.aead, c.Leftover(), c.inbound.incoming, c.inbound.atEnd, b.Length - lo);
    R.ReadTakesPrefix(c.aead, c.Leftover(), c.inbound.incoming, c.inbound.atEnd, b.Length - lo);
    R.ReadProgress(c.aead, c.Leftover(), c.inbound.incoming, c.inbound.atEnd, b.Length - lo);
    out := r.out;
    k, err := c.Read(b, lo, b.Length);
  }

  ghost predicate Filled(b: array<byte>, n: nat, s: seq<byte>)
    reads b
  {
    n <= b.Length && n <= |s| && b[..n] == s[..n]
  }

  /** `b[..n]` holds the first `n` bytes of the stream `s`, which ends with `e`; the rest of it
      is still ahead, unless the end was reported. */
  ghost predicate Reading(c: ChaCha20Conn, b: array<byte>, n: nat, s: seq<byte>, e: IoError, err: Option<IoError>)
    reads c, c.readBuf, c.inbound, c.framePool, c.readPool, b
  {
    && CanRead(c, b) && Filled(b, n, s)
    && (if err == None then Ahead(c) == s[n..] && AtEnd(c) == e else n == |s| < b.Length && err == Some(e))
  }

  /** One round of `ReadFull`. */
  method ReadMore(c: ChaCha20Conn, b: array<byte>, n: nat, ghost s: seq<byte>, ghost e: IoError)
    returns (k: nat, err: Option<IoError>)
    requires n < b.Length && Reading(c, b, n, s, e, None)
    modifies c`readBuf, c`readAt, b, c.inbound`incoming, c.readPool, c.readPool.all
    ensures Reading(c, b, n + k, s, e, err) && fresh(c.readPool.all - old(c.readPool.all))
    ensures c.readBuf == old(c.readBuf) || fresh(c.readBuf)
    ensures |c.inbound.incoming| <= old(|c.inbound.incoming|)
    ensures err == None ==> k > 0 || |c.inbound.incoming| < old(|c.inbound.incoming|)
  {
    ghost var before := b[..];
    ghost var out;
    k, err, out := ReadSome(c, b, n);
    Advance(s, n, out, Ahead(c), before, err == None);
  }

  /** The loop of `io.ReadFull`, over the stream `s` that ends with `e`. */
  method ReadLoop(c: ChaCha20Conn, b: array<byte>, ghost s: seq<byte>, ghost e: IoError)
    returns (n: nat, err: Option<IoError>)
    requires CanRead(c, b) && Ahead(c) == s && AtEnd(c) == e
    modifies c`readBuf, c`readAt, b, c.inbound`incoming, c.readPool, c.readPool.all
    ensures Reading(c, b, n, s, e, err) && fresh(c.readPool.all - old(c.readPool.all))
    ensures c.readBuf == old(c.readBuf) || fresh(c.readBuf)
    ensures err == None ==> n == b.Length
  {
    n, err := 0, None;
    assert s[0..] == s && b[..0] == s[..0];
    while n < b.Length && err == None
      invariant Reading(c, b, n, s, e, err) && fresh(c.readPool.all - old(c.readPool.all))
      invariant c.readBuf == old(c.readBuf) || fresh(c.readBuf)
      decreases err == None, |c.inbound.incoming|, b.Length - n
    {
      var k;
      k, err := ReadMore(c, b, n, s, e);
      n := n + k;
    }
  }

  /** `io.ReadFull(c, b)`: frames are fetched as needed and the rest of the last one stays
      in the connection. The result is that of reading the plaintext stream directly. */
  method ReadFull(c: ChaCha20Conn, b: array<byte>) returns (err: Option<IoError>)
    requires CanRead(c, b)
    modifies c`readBuf, c`readAt, b, c.inbound`incoming, c.readPool, c.readPool.all
    ensures CanRead(c, b) && fresh(c.readPool.all - old(c.readPool.all))
    ensures c.readBuf == old(c.readBuf) || fresh(c.readBuf)
    ensures var full := FullRead(old(Ahead(c)), b.Length, old(AtEnd(c)));
            && err == full.err
            && (err == None ==> b[..] == full.got && Ahead(c) == full.rest && AtEnd(c) == old(AtEnd(c)))
  {
    var n;
    n, err := ReadLoop(c, b, Ahead(c), AtEnd(c));
    if n > 0 && err == Some(EOF) {
      err := Some(UnexpectedEOF);
    }
  }

  /** One more piece `out` of the stream `s`, of which `n` bytes were read before. */
  lemma Advance(s: seq<byte>, n: nat, out: seq<byte>, rest: seq<byte>, before: seq<byte>, ok: bool)
    requires n <= |s| && n + |out| <= |before| && before[..n] == s[..n]
    requires if ok then s[n..] == out + rest else s[n..] == [] == out
    ensures n + |out| <= |s|
    ensures Splice(before, n, out)[..n + |out|] == s[..n + |out|]
    ensures ok ==> rest == s[n + |out|..]
  {
    if ok {
      assert s[n..][..|out|] == out && s[n..][|out|..] == rest;
    }
    assert s[..n] + out == s[..n + |out|];
  }

  /** A send of `data` that failed has put whole `frames` on the wire and the first `tail`
      bytes of one more, and together they carry no more than the front of `data`. */
  ghost predicate PartlySent(c: ChaCha20Conn, before: seq<byte>, frames: seq<R.Frame>, next: R.Frame, tail: nat, data: seq<byte>)
    reads c.outbound
  {
    && (forall f | f in frames :: R.Emitted(f)) && R.Emitted(next)
    && R.Plain(frames) + next.payload <= data
    && tail <= |R.EncodeFrame(c.aead, next)|
    && c.outbound.sent == before + R.EncodeFrames(c.aead, frames) + R.EncodeFrame(c.aead, next)[..tail]
  }

  ghost predicate FullySent(c: ChaCha20Conn, before: seq<byte>, frames: seq<R.Frame>, data: seq<byte>)
    reads c.outbound
  {
    && (forall f | f in frames :: R.Emitted(f))
    && R.Plain(frames) == data
    && c.outbound.sent == before + R.EncodeFrames(c.aead, frames)
  }

  /** `Encode(msg)` with the encrypting connection as the writer: the length and the data
      are written, chunked and sealed separately. */
  method SendMessage(c: ChaCha20Conn, p: Packer, m: Message)
    returns (err: Option<IoError>, ghost frames: seq<R.Frame>, ghost next: R.Frame, ghost tail: nat)
    requires c.CanWrite()
    modifies c.outbound, c.random, c.framePool, c.framePool.all
    ensures c.CanWrite() && fresh(c.framePool.all - old(c.framePool.all))
    ensures c.Failures() == old(c.Failures()) + if err == None then 0 else 1
    ensures if err == None then FullySent(c, old(c.outbound.sent), frames, EncodeMessage(p, m))
            else PartlySent(c, old(c.outbound.sent), frames, next, tail, EncodeMessage(p, m))
    ensures err == None ==> R.Payloads(frames) == [PutUint32(|p.marshal(m)|)] + R.Chunks(p.marshal(m))
  {
    ghost var before := c.outbound.sent;
    var data := p.marshal(m);
    ghost var header;
    err, header, next, tail := WriteAll(c, PutUint32(|data|));
    frames := header;
    if err == None {
      ghost var body;
      err, body, next, tail := WriteAll(c, data);
      frames := header + body;
      HeaderThenBody(c.aead, before, header, body, next.payload);
      OneChunk(PutUint32(|data|));
    }
  }

  lemma OneChunk(s: seq<byte>)
    requires 0 < |s| <= R.MAX_PAYLOAD
    ensures R.Chunks(s) == [s]
  {
    assert s[|s|..] == [];
  }

  lemma HeaderThenBody(a: R.Aead, before: seq<byte>, header: seq<R.Frame>, body: seq<R.Frame>, more: seq<byte>)
    ensures before + R.EncodeFrames(a, header) + R.EncodeFrames(a, body) == before + R.EncodeFrames(a, header + body)
    ensures R.Plain(header) + R.Plain(body) == R.Plain(header + body)
    ensures R.Plain(header) + (R.Plain(body) + more) == R.Plain(header + body) + more
    ensures R.Payloads(header + body) == R.Payloads(header) + R.Payloads(body)
  {
    R.PlainAppend(header, body);
    EncodeAllAppend(R.FrameEncoder(a), header, body);
    Associate(before, R.EncodeFrames(a, header), R.EncodeFrames(a, body));
    Associate(R.Plain(header), R.Plain(body), more);
  }

  method WriteAll(c: ChaCha20Conn, s: seq<byte>)
    returns (err: Option<IoError>, ghost frames: seq<R.Frame>, ghost next: R.Frame, ghost tail: nat)
    requires c.CanWrite()
    modifies c.outbound, c.random, c.framePool, c.framePool.all
    ensures c.CanWrite() && fresh(c.framePool.all - old(c.framePool.all))
    ensures c.Failures() == old(c.Failures()) + if err == None then 0 else 1
    ensures if err == None then FullySent(c, old(c.outbound.sent), frames, s)
            else PartlySent(c, old(c.outbound.sent), frames, next, tail, s)
    ensures err == None ==> R.Payloads(frames) == R.Chunks(s)
  {
    var buf := new byte[|s|](i requires 0 <= i < |s| => s[i]);
    assert buf[0..buf.Length] == s;
    var n;
    n, err, frames, next, tail := c.Write(buf, 0, buf.Length);
    if err == None {
      ChaCha20Conn.AllSent(frames, s);
    } else {
      assert s == s[..n] + s[n..];
    }
  }

  /** `Decode()` with the encrypting connection as the reader. It returns what `Decode` on
      the plaintext stream itself would return; what a rejected message leaves unread is
      still there. */
  method RecvMessage(c: ChaCha20Conn, p: Packer) returns (m: Message, err: Option<IoError>)
    requires c.Valid()
    modifies c`readBuf, c`readAt, c.inbound`incoming, c.readPool, c.readPool.all
    ensures c.Valid() && fresh(c.readPool.all - old(c.readPool.all))
    ensures c.readBuf == old(c.readBuf) || fresh(c.readBuf)
    ensures match ParseMessage(p, old(Ahead(c)), old(AtEnd(c)))
            case Stop(e, rest) => err == Some(e) && (rest != [] ==> Ahead(c) == rest && AtEnd(c) == old(AtEnd(c)))
            case Item(x, rest) => err == None && m == x && Ahead(c) == rest && AtEnd(c) == old(AtEnd(c))
  {
    m := Message(0, []);
    var length;
    length, err := RecvLength(c);
    if err != None {
      return;
    }
    var data := new byte[length];
    err := ReadFull(c, data);
    if err != None {
      return;
    }
    match p.unmarshal(data[..])
    case None =>
      err := Some(UnmarshalError);
    case Some(x) =>
      m := x;
  }

  method RecvLength(c: ChaCha20Conn) returns (length: nat, err: Option<IoError>)
    requires c.Valid()
    modifies c`readBuf, c`readAt, c.inbound`incoming, c.readPool, c.readPool.all
    ensures c.Valid() && fresh(c.readPool.all - old(c.readPool.all))
    ensures c.readBuf == old(c.readBuf) || fresh(c.readBuf)
    ensures match ParseLength(old(Ahead(c)), old(AtEnd(c)))
            case Stop(e, rest) => err == Some(e) && (rest != [] ==> Ahead(c) == rest && AtEnd(c) == old(AtEnd(c)))
            case Item(len, rest) => err == None && length == len && Ahead(c) == rest && AtEnd(c) == old(AtEnd(c))
  {
    length := 0;
    var lenBuf := new byte[LENGTH_SIZE];
    err := ReadFull(c, lenBuf);
    if err == None {
      length := Uint32(lenBuf[..]);
      if length > MAX_MSG_SIZE {
        err := Some(ShortBuffer);
      }
    }
  }

  /** End to end. Messages are encoded, cut into records in any way, sealed, the last of them
      perhaps only in part, and the wire is cut after any byte. The receiver gets a prefix of
      the messages: exactly those whose bytes lie in the complete records. With nothing cut it
      gets all of them, and then the end of the connection. */
  lemma EndToEnd(p: Packer, a: R.Aead, ms: seq<Message>, fs: seq<R.Frame>, k: nat, end: IoError)
    requires forall m | m in ms :: Fits(p, m)
    requires forall f | f in fs :: R.Emitted(f)
    requires R.Plain(fs) <= EncodeMessages(p, ms)
    requires k <= |R.EncodeFrames(a, fs)|
    ensures var records := Drain(R.FrameParser(a, end), R.EncodeFrames(a, fs)[..k]);
            var plain := R.Plain(records.items);
            var got := Drain(MessageParser(p, records.error), plain);
            && plain <= EncodeMessages(p, ms)
            && got.items == ms[..Complete(MessageEncoder(p), ms, |plain|)]
            && (k == |R.EncodeFrames(a, fs)| && R.Plain(fs) == EncodeMessages(p, ms) ==> got == Drained(ms, end))
  {
    var records := Drain(R.FrameParser(a, end), R.EncodeFrames(a, fs)[..k]);
    var plain := R.Plain(records.items);
    R.PlainOfCut(a, fs, k, end);
    assert EncodeMessages(p, ms)[..|plain|] == plain;
    MessagesRoundTrip(p, ms, |plain|, records.error);
  }

  // ---------------------------------------------------------------- conversations

  /** Calls of `SendMessage` one after the other, up to the first error. */
  method SendAll(c: ChaCha20Conn, p: Packer, ms: seq<Message>)
    returns (n: nat, err: Option<IoError>, ghost frames: seq<R.Frame>, ghost next: R.Frame, ghost tail: nat)
    requires c.CanWrite()
    modifies c.outbound, c.random, c.framePool, c.framePool.all
    ensures c.CanWrite() && fresh(c.framePool.all - old(c.framePool.all))
    ensures n <= |ms|
    ensures c.Failures() == old(c.Failures()) + if err == None then 0 else 1
    ensures if err == None then n == |ms| && FullySent(c, old(c.outbound.sent), frames, EncodeMessages(p, ms))
            else n < |ms| && StoppedWithin(c, old(c.outbound.sent), frames, next, tail, p, ms, n)
  {
    ghost var before := c.outbound.sent;
    n, err, frames, next, tail := 0, None, [], R.Frame([], []), 0;
    while n < |ms|
      invariant c.CanWrite() && fresh(c.framePool.all - old(c.framePool.all))
      invariant n <= |ms| && err == None && FullySent(c, before, frames, EncodeMessages(p, ms[..n]))
      invariant c.Failures() == old(c.Failures())
    {
      ghost var more;
      err, more, next, tail := SendMessage(c, p, ms[n]);
      OneMoreMessage(p, ms, n);
      HeaderThenBody(c.aead, before, frames, more, next.payload);
      frames := frames + more;
      if err != None {
        return;
      }
      n := n + 1;
    }
    assert ms[..n] == ms;
  }

  /** The first `n` messages are out, and of the next one no more than its front. */
  ghost predicate StoppedWithin(c: ChaCha20Conn, before: seq<byte>, frames: seq<R.Frame>, next: R.Frame, tail: nat,
                                p: Packer, ms: seq<Message>, n: nat)
    requires n < |ms|
    reads c.outbound
  {
    && PartlySent(c, before, frames, next, tail, EncodeMessages(p, ms[..n + 1]))
    && EncodeMessages(p, ms[..n]) <= R.Plain(frames)
  }

  lemma OneMoreMessage(p: Packer, ms: seq<Message>, n: nat)
    requires n < |ms|
    ensures EncodeMessages(p, ms[..n + 1]) == EncodeMessages(p, ms[..n]) + EncodeMessage(p, ms[n])
  {
    assert ms[..n + 1] == ms[..n] + [ms[n]];
    EncodeAllAppend(MessageEncoder(p), ms[..n], [ms[n]]);
    EncodeAllOne(MessageEncoder(p), ms[n]);
  }

  /** The loop of `handleControlStream`: messages are received until the first error. */
  method ReceiveAll(c: ChaCha20Conn, p: Packer) returns (ms: seq<Message>, err: IoError)
    requires c.Valid()
    modifies c`readBuf, c`readAt, c.inbound`incoming, c.readPool, c.readPool.all
    ensures c.Valid() && fresh(c.readPool.all - old(c.readPool.all))
    ensures Drained(ms, err) == Drain(MessageParser(p, old(AtEnd(c))), old(Ahead(c)))
  {
    ghost var s, parse := Ahead(c), MessageParser(p, AtEnd(c));
    ghost var e := AtEnd(c);
    ms := [];
    var failed: Option<IoError> := None;
    while failed == None
      invariant c.Valid() && fresh(c.readPool.all - old(c.readPool.all))
      invariant c.readBuf == old(c.readBuf) || fresh(c.readBuf)
      invariant failed == None ==> AtEnd(c) == e && Received(parse, s, ms, Ahead(c))
      invariant failed.Some? ==> Drain(parse, s) == Drained(ms, failed.value)
      decreases failed == None, |Ahead(c)|
    {
      ghost var before := Ahead(c);
      var m;
      m, failed := RecvMessage(c, p);
      ReceivedNext(parse, s, ms, before);
      if failed == None {
        ms := ms + [m];
      }
    }
    err := failed.value;
  }

  /** The messages `ms` are read off the stream `s`, and `rest` follows. */
  ghost predicate Received(parse: Parser<Message>, s: seq<byte>, ms: seq<Message>, rest: seq<byte>) {
    Drain(parse, s) == Drained(ms + Drain(parse, rest).items, Drain(parse, rest).error)
  }

  lemma ReceivedNext(parse: Parser<Message>, s: seq<byte>, ms: seq<Message>, rest: seq<byte>)
    requires Received(parse, s, ms, rest)
    ensures parse(rest).Stop? ==> Drain(parse, s) == Drained(ms, parse(rest).error)
    ensures parse(rest).Item? ==>
      |parse(rest).rest| < |rest| && Received(parse, s, ms + [parse(rest).value], parse(rest).rest)
  {
    var item := parse(rest);
    if item.Item? {
      Associate(ms, [item.value], Drain(parse, item.rest).items);
    } else {
      assert ms + [] == ms;
    }
  }

  /** What `ReceiveAll` gets from the bytes on a wire. */
  ghost function MessagesOn(p: Packer, a: R.Aead, wire: seq<byte>, end: IoError): seq<Message> {
    var records := Drain(R.FrameParser(a, end), wire);
    Drain(MessageParser(p, records.error), R.Plain(records.items)).items
  }

  /** A whole conversation. `SendAll` succeeded for `n` messages, and left part of the next one;
      the wire is cut after any byte, and `ReceiveAll` runs on the other side. It receives a
      prefix of what was sent; with nothing cut, the `n` messages, and the next one only if all
      of that had gone out in spite of the error. */
  lemma Conversation(p: Packer, a: R.Aead, ms: seq<Message>, n: nat, frames: seq<R.Frame>, next: R.Frame, tail: nat, k: nat, end: IoError)
    requires (forall m | m in ms :: Fits(p, m)) && n < |ms|
    requires (forall f | f in frames :: R.Emitted(f)) && R.Emitted(next) && tail <= |R.EncodeFrame(a, next)|
    requires EncodeMessages(p, ms[..n]) <= R.Plain(frames)
    requires R.Plain(frames) + next.payload <= EncodeMessages(p, ms[..n + 1])
    requires k <= |R.EncodeFrames(a, frames)| + tail
    ensures var wire := R.EncodeFrames(a, frames) + R.EncodeFrame(a, next)[..tail];
            var got := MessagesOn(p, a, wire[..k], end);
            && |got| <= n + 1 && got == ms[..|got|]
            && (k == |wire| ==> n <= |got|)
  {
    var wire := R.EncodeFrames(a, frames) + R.EncodeFrame(a, next)[..tail];
    R.EncodeFramesSnoc(a, frames, next);
    assert wire[..k] == R.EncodeFrames(a, frames + [next])[..k];
    assert R.Plain(frames + [next]) == R.Plain(frames) + next.payload by {
      R.PlainAppend(frames, [next]);
      R.PlainOne(next);
    }
    var records := Drain(R.FrameParser(a, end), wire[..k]).items;
    GotFrom(p, a, ms[..n + 1], frames + [next], k, end);
    if k == |wire| {
      assert |EncodeMessages(p, ms[..n])| <= |R.Plain(records)| by {
        R.FailedWriteReaches(a, frames, next, tail, end);
        assert wire[..k] == wire;
      }
      assert ms[..n + 1][..n] == ms[..n];
      CompleteWithin(p, ms[..n + 1], n, |R.Plain(records)|);
    }
  }

  lemma GotFrom(p: Packer, a: R.Aead, ms: seq<Message>, fs: seq<R.Frame>, k: nat, end: IoError)
    requires forall m | m in ms :: Fits(p, m)
    requires forall f | f in fs :: R.Emitted(f)
    requires R.Plain(fs) <= EncodeMessages(p, ms)
    requires k <= |R.EncodeFrames(a, fs)|
    ensures var plain := R.Plain(Drain(R.FrameParser(a, end), R.EncodeFrames(a, fs)[..k]).items);
            MessagesOn(p, a, R.EncodeFrames(a, fs)[..k], end) == ms[..Complete(MessageEncoder(p), ms, |plain|)]
  {
    EndToEnd(p, a, ms, fs, k, end);
  }

  /** Whole messages within the first `k` bytes are complete. */
  lemma {:induction false} CompleteWithin(p: Packer, ms: seq<Message>, n: nat, k: nat)
    requires n <= |ms| && |EncodeMessages(p, ms[..n])| <= k
    ensures n <= Complete(MessageEncoder(p), ms, k)
    decreases n
  {
    if n > 0 {
      assert ms[..n][1..] == ms[1..][..n - 1];
      CompleteWithin(p, ms[1..], n - 1, k - |EncodeMessage(p, ms[0])|);
    }
  }
}
