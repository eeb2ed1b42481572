/** The record format of the ChaCha20-Poly1305 layer as functions on byte sequences: how
    a write is chunked and framed, and what a reader makes of any bytes on the wire. */
module Records {
  import opened Bytes
  import opened Framing

  const LENGTH_SIZE := 2
  const NONCE_SIZE := 12
  const TAG_SIZE := 16
  const MAX_PAYLOAD: nat := 65536 - NONCE_SIZE - TAG_SIZE - LENGTH_SIZE

  /** The two halves of a `cipher.AEAD` under one key. */
  datatype AeadOps = AeadOps(
    seal: (seq<byte>, seq<byte>) -> seq<byte>,
    open: (seq<byte>, seq<byte>) -> Option<seq<byte>>)

  /** Section 2.8 of RFC 8439: the ciphertext is as long as the plaintext, the tag has 16
      bytes, and opening under the same nonce gives the plaintext back. */
  ghost predicate Lawful(a: AeadOps) {
    forall n, p {:trigger a.seal(n, p)} | |n| == NONCE_SIZE ::
      |a.seal(n, p)| == |p| + TAG_SIZE && a.open(n, a.seal(n, p)) == Some(p)
  }

  /** A lawful pair exists: no encryption at all, and sixteen zero bytes. */
  function Padding(): (a: AeadOps)
    ensures Lawful(a)
  {
    var zeros: seq<byte> := seq(TAG_SIZE, _ => 0);
    var a := AeadOps(
      (n, p) => p + zeros,
      (n, c) => if |c| >= TAG_SIZE then Some(c[..|c| - TAG_SIZE]) else None);
    assert forall p: seq<byte> :: (p + zeros)[..|p + zeros| - TAG_SIZE] == p;
    a
  }

  type Aead = a: AeadOps | Lawful(a) witness Padding()

  // ---------------------------------------------------------------- writing

  datatype Frame = Frame(nonce: seq<byte>, payload: seq<byte>)

  /** What `writeFrame` can have produced: a full nonce and a payload that fits. */
  predicate Emitted(f: Frame) {
    |f.nonce| == NONCE_SIZE && 0 < |f.payload| <= MAX_PAYLOAD
  }

  function EncodeFrame(a: Aead, f: Frame): seq<byte> {
    var ciphertext := a.seal(f.nonce, f.payload);
    PutUint16(NONCE_SIZE + |ciphertext|) + f.nonce + ciphertext
  }

  function FrameEncoder(a: Aead): Frame -> seq<byte> {
    f => EncodeFrame(a, f)
  }

  function EncodeFrames(a: Aead, fs: seq<Frame>): seq<byte> {
    EncodeAll(FrameEncoder(a), fs)
  }

  function Payloads(fs: seq<Frame>): (ps: seq<seq<byte>>)
    ensures |ps| == |fs|
    ensures forall i | 0 <= i < |fs| :: ps[i] == fs[i].payload
  {
    seq(|fs|, i requires 0 <= i < |fs| => fs[i].payload)
  }

  function Plain(fs: seq<Frame>): seq<byte> {
    Flatten(Payloads(fs))
  }

  lemma PlainAppend(xs: seq<Frame>, ys: seq<Frame>)
    ensures Plain(xs + ys) == Plain(xs) + Plain(ys)
  {
    assert Payloads(xs + ys) == Payloads(xs) + Payloads(ys);
    FlattenAppend(Payloads(xs), Payloads(ys));
  }

  lemma PlainOne(f: Frame)
    ensures Plain([f]) == f.payload
  {
    assert Payloads([f]) == [f.payload];
    FlattenOne(f.payload);
  }

  lemma PlainCons(f: Frame, fs: seq<Frame>)
    ensures Plain([f] + fs) == f.payload + Plain(fs)
  {
    PlainAppend([f], fs);
    PlainOne(f);
  }

  /** The chunk `Write` takes next from the bytes `b` that are left. */
  function NextChunk(b: seq<byte>): seq<byte> {
    if |b| > MAX_PAYLOAD then b[..MAX_PAYLOAD] else b
  }

  /** How `Write` cuts its argument. */
  function Chunks(b: seq<byte>): seq<seq<byte>>
    decreases |b|
  {
    if b == [] then [] else [NextChunk(b)] + Chunks(b[|NextChunk(b)|..])
  }

  /** Chunking loses, adds and reorders nothing; every chunk fits a frame; and all but the last
      are as large as can be. */
  lemma {:induction false} ChunksExact(b: seq<byte>)
    ensures Flatten(Chunks(b)) == b
    ensures forall c | c in Chunks(b) :: 0 < |c| <= MAX_PAYLOAD
    ensures |Chunks(b)| == (|b| + 65505) / 65506
    ensures forall i | 0 <= i < |Chunks(b)| - 1 :: |Chunks(b)[i]| == 65506
    decreases |b|
  {
    if b != [] {
      var c := NextChunk(b);
      ChunksExact(b[|c|..]);
      assert b == c + b[|c|..];
      CeilingStep(|b|);
    }
  }

  lemma CeilingStep(n: nat)
    requires n > 0
    ensures (n + 65505) / 65506 == 1 + (n - Min(n, 65506) + 65505) / 65506
  {
  }

  lemma EncodeFramesSnoc(a: Aead, fs: seq<Frame>, f: Frame)
    ensures EncodeFrames(a, fs + [f]) == EncodeFrames(a, fs) + EncodeFrame(a, f)
  {
    EncodeAllAppend(FrameEncoder(a), fs, [f]);
    EncodeAllOne(FrameEncoder(a), f);
  }

  /** Thirty bytes of overhead per frame. */
  lemma {:induction false} WireSize(a: Aead, fs: seq<Frame>)
    requires forall f | f in fs :: Emitted(f)
    ensures |EncodeFrames(a, fs)| == |Plain(fs)| + 30 * |fs|
  {
    if fs != [] {
      assert fs[0] in fs && fs == [fs[0]] + fs[1..];
      PlainCons(fs[0], fs[1..]);
      WireSize(a, fs[1..]);
    }
  }

  /** A `Write` of L bytes puts L + 30 * ceil(L / 65506) bytes on the wire. */
  lemma WriteSize(a: Aead, fs: seq<Frame>, b: seq<byte>)
    requires forall f | f in fs :: Emitted(f)
    requires Payloads(fs) == Chunks(b)
    ensures |EncodeFrames(a, fs)| == |b| + 30 * ((|b| + 65505) / 65506)
  {
    ChunksExact(b);
    WireSize(a, fs);
  }

  // ---------------------------------------------------------------- reading

  /** The length of the next frame. */
  function ParseHeader(s: seq<byte>, end: IoError): (r: Parsed<nat>)
    ensures |r.rest| <= |s|
    ensures r.Item? ==> |r.rest| < |s| && NONCE_SIZE + TAG_SIZE <= r.value < 65536
  {
    var header := FullRead(s, LENGTH_SIZE, end);
    if header.err.Some? then Stop(header.err.value, header.rest)
    else if Uint16(header.got) < NONCE_SIZE + TAG_SIZE then Stop(InvalidFrameLength, header.rest)
    else Item(Uint16(header.got), header.rest)
  }

  /** A frame of `len` bytes after its header. */
  function ParseBody(a: Aead, len: nat, s: seq<byte>, end: IoError): (r: Parsed<Frame>)
    requires NONCE_SIZE <= len
    ensures |r.rest| <= |s|
  {
    var body := FullRead(s, len, end);
    if body.err.Some? then Stop(body.err.value, body.rest)
    else match a.open(body.got[..NONCE_SIZE], body.got[NONCE_SIZE..])
      case None => Stop(OpenFailed, body.rest)
      case Some(plaintext) => Item(Frame(body.got[..NONCE_SIZE], plaintext), body.rest)
  }

  /** `readFrame` on a stream that still delivers `s` and then ends with `end`. */
  function ParseFrame(a: Aead, s: seq<byte>, end: IoError): (r: Parsed<Frame>)
    ensures |r.rest| <= |s|
    ensures r.Item? ==> |r.rest| < |s|
  {
    match ParseHeader(s, end)
    case Stop(e, rest) => Stop(e, rest)
    case Item(len, rest) => ParseBody(a, len, rest, end)
  }

  function FrameParser(a: Aead, end: IoError): Parser<Frame> {
    s => ParseFrame(a, s, end)
  }

  /** The frame a writer emits fits the 16-bit header with room for the whole length. */
  lemma FrameFits(a: Aead, f: Frame)
    requires Emitted(f)
    ensures |EncodeFrame(a, f)| == LENGTH_SIZE + NONCE_SIZE + |f.payload| + TAG_SIZE <= 65536
    ensures Uint16(EncodeFrame(a, f)[..2]) == |EncodeFrame(a, f)| - LENGTH_SIZE <= 65534
    ensures EncodeFrame(a, f)[0] == (28 + |f.payload|) / 256 && EncodeFrame(a, f)[1] == (28 + |f.payload|) % 256
    ensures EncodeFrame(a, f)[2..14] == f.nonce
    ensures EncodeFrame(a, f)[14..] == a.seal(f.nonce, f.payload)
  {
    var ciphertext := a.seal(f.nonce, f.payload);
    Uint16OfPut(NONCE_SIZE + |ciphertext|);
    assert EncodeFrame(a, f)[..2] == PutUint16(NONCE_SIZE + |ciphertext|);
  }

  lemma FrameRoundTrip(a: Aead, f: Frame, rest: seq<byte>, end: IoError)
    requires Emitted(f)
    ensures ParseFrame(a, EncodeFrame(a, f) + rest, end) == Item(f, rest)
  {
    var e := EncodeFrame(a, f);
    FrameFits(a, f);
    assert (e + rest)[..2] == e[..2];
    assert (e + rest)[2..] == e[2..] + rest;
    var body := e[2..];
    assert (body + rest)[..|body|] == body;
    assert (body + rest)[|body|..] == rest;
    assert body[..12] == f.nonce && body[12..] == e[14..];
  }

  lemma FrameCut(a: Aead, f: Frame, j: nat, end: IoError)
    requires Emitted(f) && j < |EncodeFrame(a, f)|
    ensures ParseFrame(a, EncodeFrame(a, f)[..j], end) == Stop(CutError(j, LENGTH_SIZE, end), [])
  {
    var e := EncodeFrame(a, f);
    FrameFits(a, f);
    if j >= 2 {
      assert e[..j][..2] == e[..2];
      assert |e[..j][2..]| < Uint16(e[..2]);
    }
  }

  lemma FramesRead(a: Aead, fs: seq<Frame>, end: IoError)
    requires forall f | f in fs :: Emitted(f)
    ensures FrameParser(a, end)([]) == Stop(end, [])
    ensures forall f | f in fs :: Reads(FrameEncoder(a), FrameParser(a, end), LENGTH_SIZE, end, f)
  {
    forall f | f in fs ensures Reads(FrameEncoder(a), FrameParser(a, end), LENGTH_SIZE, end, f) {
      forall rest ensures FrameParser(a, end)(FrameEncoder(a)(f) + rest) == Item(f, rest) {
        FrameRoundTrip(a, f, rest, end);
      }
      forall j | 0 <= j < |FrameEncoder(a)(f)|
        ensures FrameParser(a, end)(FrameEncoder(a)(f)[..j]) == Stop(CutError(j, LENGTH_SIZE, end), [])
      {
        FrameCut(a, f, j, end);
      }
    }
  }

  /** Truncation: whatever byte the wire is cut at, the receiver gets exactly the frames
      that are complete. The error is a clean EOF only at a frame boundary or just after
      a length header (when the transport itself ended cleanly). */
  lemma Truncation(a: Aead, fs: seq<Frame>, k: nat, end: IoError)
    requires forall f | f in fs :: Emitted(f)
    requires k <= |EncodeFrames(a, fs)|
    ensures var n, l := Complete(FrameEncoder(a), fs, k), Leftover(FrameEncoder(a), fs, k);
            && k == |EncodeFrames(a, fs[..n])| + l
            && (if n == |fs| then l == 0 else l < |EncodeFrame(a, fs[n])|)
            && Drain(FrameParser(a, end), EncodeFrames(a, fs)[..k])
               == Drained(fs[..n], CutError(l, LENGTH_SIZE, end))
  {
    FramesRead(a, fs, end);
    CutSplits(FrameEncoder(a), fs, k);
    CutStream(FrameEncoder(a), FrameParser(a, end), LENGTH_SIZE, end, fs, k);
  }

  /** What a receiver decrypts from a cut wire is a prefix of what was sent, and all of it if
      nothing was cut. */
  lemma PlainOfCut(a: Aead, fs: seq<Frame>, k: nat, end: IoError)
    requires forall f | f in fs :: Emitted(f)
    requires k <= |EncodeFrames(a, fs)|
    ensures var d := Drain(FrameParser(a, end), EncodeFrames(a, fs)[..k]);
            && Plain(d.items) <= Plain(fs)
            && (k == |EncodeFrames(a, fs)| ==> d == Drained(fs, end))
  {
    var d := Drain(FrameParser(a, end), EncodeFrames(a, fs)[..k]);
    var n := Complete(FrameEncoder(a), fs, k);
    assert d.items == fs[..n] by {
      Truncation(a, fs, k, end);
    }
    assert Plain(fs[..n]) <= Plain(fs) by {
      assert fs == fs[..n] + fs[n..];
      PlainAppend(fs[..n], fs[n..]);
    }
    if k == |EncodeFrames(a, fs)| {
      assert EncodeFrames(a, fs)[..k] == EncodeFrames(a, fs);
      FramesRead(a, fs, end);
      WholeStream(FrameEncoder(a), FrameParser(a, end), LENGTH_SIZE, end, fs);
    }
  }

  /** After a failed `Write` the wire holds the accepted frames and a prefix `t` of one
      more. The receiver gets the accepted bytes, and the next chunk exactly when its
      frame had gone out whole in spite of the error. */
  lemma FailedWriteReaches(a: Aead, fs: seq<Frame>, next: Frame, t: nat, end: IoError)
    requires (forall f | f in fs :: Emitted(f)) && Emitted(next)
    requires t <= |EncodeFrame(a, next)|
    ensures Plain(Drain(FrameParser(a, end), EncodeFrames(a, fs) + EncodeFrame(a, next)[..t]).items)
         == if t == |EncodeFrame(a, next)| then Plain(fs) + next.payload else Plain(fs)
  {
    var n := if t == |EncodeFrame(a, next)| then |fs| + 1 else |fs|;
    assert Drain(FrameParser(a, end), EncodeFrames(a, fs) + EncodeFrame(a, next)[..t]).items == (fs + [next])[..n] by {
      FramesRead(a, fs + [next], end);
      FrameFits(a, next);
      CutAfter(FrameEncoder(a), FrameParser(a, end), LENGTH_SIZE, end, fs, next, t);
    }
    PlainAppend(fs, [next]);
    PlainOne(next);
    assert (fs + [next])[..|fs|] == fs && (fs + [next])[..|fs| + 1] == fs + [next];
  }

  // ---------------------------------------------------------------- Read calls

  /** The outcome of one `ChaCha20Conn.Read` with a buffer of `m` bytes. */
  datatype ReadResult = ReadResult(
    out: seq<byte>, err: Option<IoError>, leftover: seq<byte>, incoming: seq<byte>)

  function Min(x: nat, y: nat): nat {
    if x <= y then x else y
  }

  function ReadOnce(a: Aead, leftover: seq<byte>, incoming: seq<byte>, end: IoError, m: nat): ReadResult {
    if leftover != [] then
      var n := Min(m, |leftover|);
      ReadResult(leftover[..n], None, leftover[n..], incoming)
    else
      match ParseFrame(a, incoming, end)
      case Stop(e, rest) => ReadResult([], Some(e), [], rest)
      case Item(f, rest) =>
        var n := Min(m, |f.payload|);
        ReadResult(f.payload[..n], None, f.payload[n..], rest)
  }

  /** A `Read` that finds leftover plaintext, in numbers. */
  lemma ReadsLeftover(a: Aead, leftover: seq<byte>, s: seq<byte>, end: IoError, m: nat)
    requires leftover != []
    ensures var k := if m < |leftover| then m else |leftover|;
            ReadOnce(a, leftover, s, end, m) == ReadResult(leftover[..k], None, leftover[k..], s)
  {
  }

  /** A `Read` of a wire that does not hold a whole frame, in numbers. */
  lemma ReadsNoFrame(a: Aead, s: seq<byte>, end: IoError, m: nat)
    ensures |s| < 2 ==>
      ReadOnce(a, [], s, end, m) == ReadResult([], Some(if |s| == 1 && end == EOF then UnexpectedEOF else end), [], [])
    ensures |s| >= 2 && 256 * (s[0] as int) + s[1] as int < 28 ==>
      ReadOnce(a, [], s, end, m) == ReadResult([], Some(InvalidFrameLength), [], s[2..])
    ensures |s| >= 2 && 28 <= 256 * (s[0] as int) + s[1] as int && |s| < 2 + (256 * (s[0] as int) + s[1] as int) ==>
      ReadOnce(a, [], s, end, m) == ReadResult([], Some(if |s| > 2 && end == EOF then UnexpectedEOF else end), [], [])
  {
  }

  /** A `Read` of a wire with a whole frame at its front: the plaintext is delivered if and only
      if the AEAD opens the frame; otherwise nothing is, and the error says so. Either way
      exactly the frame is consumed. */
  lemma ReadsFrame(a: Aead, s: seq<byte>, end: IoError, m: nat)
    requires |s| >= 2 && 28 <= 256 * (s[0] as int) + s[1] as int <= |s| - 2
    ensures var len := 256 * (s[0] as int) + s[1] as int;
            var p := a.open(s[2..14], s[14..2 + len]);
            && (p == None ==> ReadOnce(a, [], s, end, m) == ReadResult([], Some(OpenFailed), [], s[2 + len..]))
            && (p.Some? ==>
                  var k := if m < |p.value| then m else |p.value|;
                  ReadOnce(a, [], s, end, m) == ReadResult(p.value[..k], None, p.value[k..], s[2 + len..]))
  {
    var len := 256 * (s[0] as int) + s[1] as int;
    assert s[..2] == [s[0], s[1]];
    assert s[2..][..len][..12] == s[2..14];
    assert s[2..][..len][12..] == s[14..2 + len];
    assert s[2..][len..] == s[2 + len..];
  }

  /** Bytes are delivered from the wire only out of a whole frame that the AEAD opened. */
  lemma DeliveredWasOpened(a: Aead, s: seq<byte>, end: IoError, m: nat)
    requires ReadOnce(a, [], s, end, m).err == None
    ensures |s| >= 2 && 28 <= 256 * (s[0] as int) + s[1] as int <= |s| - 2
    ensures var p := a.open(s[2..14], s[14..2 + (256 * (s[0] as int) + s[1] as int)]);
            p.Some? && ReadOnce(a, [], s, end, m).out <= p.value
  {
    ReadsNoFrame(a, s, end, m);
    ReadsFrame(a, s, end, m);
  }

  /** Everything the connection will still deliver before its first error. */
  function Pending(a: Aead, leftover: seq<byte>, incoming: seq<byte>, end: IoError): seq<byte> {
    leftover + Plain(Drain(FrameParser(a, end), incoming).items)
  }

  /** A `Read` takes its bytes off the front of the pending plaintext and changes nothing
      else about it; an error comes only when nothing is pending, and is the error that
      ended the stream of frames. True of any bytes on the wire. */
  lemma ReadTakesPrefix(a: Aead, leftover: seq<byte>, incoming: seq<byte>, end: IoError, m: nat)
    ensures var r := ReadOnce(a, leftover, incoming, end, m);
            && |r.out| <= m
            && (r.err == None ==>
                  && Pending(a, leftover, incoming, end) == r.out + Pending(a, r.leftover, r.incoming, end)
                  && Drain(FrameParser(a, end), r.incoming).error == Drain(FrameParser(a, end), incoming).error)
            && (r.err != None ==>
                  && Pending(a, leftover, incoming, end) == r.out == []
                  && r.err == Some(Drain(FrameParser(a, end), incoming).error))
  {
    if leftover == [] {
      PendingUnfold(a, incoming, end);
      var p := ParseFrame(a, incoming, end);
      if p.Item? {
        TakeFront(p.value.payload, Min(m, |p.value.payload|), Plain(Drain(FrameParser(a, end), p.rest).items));
      }
    } else {
      TakeFront(leftover, Min(m, |leftover|), Plain(Drain(FrameParser(a, end), incoming).items));
    }
  }

  lemma TakeFront(x: seq<byte>, n: nat, y: seq<byte>)
    requires n <= |x|
    ensures x + y == x[..n] + (x[n..] + y)
  {
  }

  /** A successful `Read` with a buffer delivers bytes or consumes part of the wire. */
  lemma ReadProgress(a: Aead, leftover: seq<byte>, incoming: seq<byte>, end: IoError, m: nat)
    requires m > 0
    ensures var r := ReadOnce(a, leftover, incoming, end, m);
            && |r.incoming| <= |incoming|
            && (r.err == None ==> |r.out| > 0 || |r.incoming| < |incoming|)
  {
  }

  lemma PendingUnfold(a: Aead, incoming: seq<byte>, end: IoError)
    ensures var d := Drain(FrameParser(a, end), incoming);
            match ParseFrame(a, incoming, end)
            case Stop(e, _) => Plain(d.items) == [] && d.error == e
            case Item(f, rest) =>
              var more := Drain(FrameParser(a, end), rest);
              Plain(d.items) == f.payload + Plain(more.items) && d.error == more.error
  {
    var parse := FrameParser(a, end);
    var p := ParseFrame(a, incoming, end);
    assert parse(incoming) == p;
    if p.Item? {
      PlainCons(p.value, Drain(parse, p.rest).items);
    }
  }

  /** Any number of `Read` calls with any buffer sizes, up to the first error. */
  datatype Session = Session(delivered: seq<byte>, err: Option<IoError>, leftover: seq<byte>, incoming: seq<byte>)

  function ReadMany(a: Aead, leftover: seq<byte>, incoming: seq<byte>, end: IoError, sizes: seq<nat>): Session
    decreases |sizes|
  {
    if sizes == [] then Session([], None, leftover, incoming)
    else
      var r := ReadOnce(a, leftover, incoming, end, sizes[0]);
      if r.err.Some? then Session(r.out, r.err, r.leftover, r.incoming)
      else
        var more := ReadMany(a, r.leftover, r.incoming, end, sizes[1..]);
        more.(delivered := r.out + more.delivered)
  }

  /** For every sequence of buffer sizes, zero included: delivered bytes ++ what is still
      pending is the plaintext of the stream; after an error nothing is missing. */
  lemma {:induction false} SessionsConserve(
      a: Aead, leftover: seq<byte>, incoming: seq<byte>, end: IoError, sizes: seq<nat>)
    ensures var s := ReadMany(a, leftover, incoming, end, sizes);
            if s.err == None then
              Pending(a, leftover, incoming, end) == s.delivered + Pending(a, s.leftover, s.incoming, end)
            else
              && s.delivered == Pending(a, leftover, incoming, end)
              && s.err == Some(Drain(FrameParser(a, end), incoming).error)
    decreases |sizes|
  {
    if sizes != [] {
      ReadTakesPrefix(a, leftover, incoming, end, sizes[0]);
      var r := ReadOnce(a, leftover, incoming, end, sizes[0]);
      if r.err == None {
        SessionsConserve(a, r.leftover, r.incoming, end, sizes[1..]);
        var s := ReadMany(a, r.leftover, r.incoming, end, sizes[1..]);
        Associate(r.out, s.delivered, Pending(a, s.leftover, s.incoming, end));
      }
    }
  }
}
