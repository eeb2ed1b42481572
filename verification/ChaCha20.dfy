/** The encrypting connection itself: frames are sealed in place in recycled arrays, and
    plaintext that does not fit the caller's buffer waits in `readBuf`. */
module ChaCha20 {
  import opened Bytes
  import opened Framing
  import opened Records
  import opened Streams

  const FRAME_BUFFER := LENGTH_SIZE + NONCE_SIZE + MAX_PAYLOAD + TAG_SIZE
  const READ_BUFFER := 65536

  /** `aead.Seal(dst[at:at], nonce, plaintext, nil)`: appends in place when the capacity of
      `dst` suffices, and to a newly allocated slice when it does not. */
  method Seal(aead: Aead, dst: array<byte>, at: nat, nonce: seq<byte>, plaintext: seq<byte>)
    returns (out: array<byte>, start: nat)
    requires |nonce| == NONCE_SIZE && at <= dst.Length
    modifies dst
    ensures start + |plaintext| + TAG_SIZE <= out.Length
    ensures out[start..start + |plaintext| + TAG_SIZE] == aead.seal(nonce, plaintext)
    ensures if at + |plaintext| + TAG_SIZE <= dst.Length
            then out == dst && start == at && out[..at] == old(dst[..at])
            else fresh(out)
  {
    var ciphertext := aead.seal(nonce, plaintext);
    if at + |ciphertext| <= dst.Length {
      out, start := dst, at;
    } else {
      out, start := new byte[|ciphertext|], 0;
    }
    forall i | 0 <= i < |ciphertext| {
      out[start + i] := ciphertext[i];
    }
  }

  /** `copy(b[lo..hi], src)`. */
  method CopyInto(b: array<byte>, lo: nat, hi: nat, src: seq<byte>) returns (n: nat)
    requires lo <= hi <= b.Length
    modifies b
    ensures n == Min(hi - lo, |src|)
    ensures b[..] == Splice(old(b[..]), lo, src[..n])
  {
    n := Min(hi - lo, |src|);
    forall i | 0 <= i < n {
      b[lo + i] := src[i];
    }
  }

  class ChaCha20Conn {
    const aead: Aead
    const inbound: InStream
    const outbound: OutStream
    const random: Random
    const framePool: SyncPool
    const readPool: SyncPool
    /** `c.readBuf` is the slice `readBuf[readAt..]`. */
    var readBuf: array<byte>
    var readAt: nat

    /** All that writing relies on. */
    ghost predicate CanWrite()
      reads framePool
    {
      framePool.Valid() && framePool.size == FRAME_BUFFER
    }

    /** How many calls of the transport and of `crypto/rand` have failed. */
    ghost function Failures(): nat
      reads outbound, random
    {
      outbound.failures + random.failures
    }

    ghost predicate Valid()
      reads this, readBuf, framePool, readPool
    {
      && CanWrite()
      && readAt <= readBuf.Length
      && readPool.Valid() && readPool.size == READ_BUFFER
      && framePool != readPool
      && framePool.all !! readPool.all
      && readBuf !in framePool.all && readBuf !in readPool.all
    }

    ghost function Leftover(): seq<byte>
      requires readAt <= readBuf.Length
      reads this, readBuf
    {
      readBuf[readAt..]
    }

    constructor (aead: Aead, inbound: InStream, outbound: OutStream, random: Random, framePool: SyncPool, readPool: SyncPool)
      requires framePool.Valid() && framePool.size == FRAME_BUFFER
      requires readPool.Valid() && readPool.size == READ_BUFFER
      requires framePool != readPool && framePool.all !! readPool.all
      ensures Valid() && Leftover() == []
      ensures this.aead == aead && this.inbound == inbound && this.outbound == outbound && this.random == random
      ensures this.framePool == framePool && this.readPool == readPool
    {
      this.aead := aead;
      this.inbound := inbound;
      this.outbound := outbound;
      this.random := random;
      this.framePool := framePool;
      this.readPool := readPool;
      readBuf := new byte[0];
      readAt := 0;
    }

    /** Builds the frame for `payload` in `buf`, in place: a random nonce, the ciphertext
        right behind it, and the length. Whatever the buffer held before, its front is then
        exactly the frame. */
    method FillFrame(buf: array<byte>, payload: seq<byte>) returns (frameLen: nat, err: Option<IoError>, ghost frame: Frame)
      requires buf.Length == FRAME_BUFFER && 0 < |payload| <= MAX_PAYLOAD
      modifies buf, random
      ensures frame.payload == payload && Emitted(frame)
      ensures err == None || err == Some(RandError)
      ensures random.failures == old(random.failures) + if err == None then 0 else 1
      ensures random.drawn == if err == None then old(random.drawn) + [frame.nonce] else old(random.drawn)
      ensures err == None ==> LENGTH_SIZE + frameLen == |EncodeFrame(aead, frame)| <= buf.Length
      ensures err == None ==> buf[..LENGTH_SIZE + frameLen] == EncodeFrame(aead, frame)
    {
      frameLen := 0;
      err := random.Read(buf, LENGTH_SIZE, LENGTH_SIZE + NONCE_SIZE);
      var nonce := buf[LENGTH_SIZE..LENGTH_SIZE + NONCE_SIZE];
      frame := Frame(nonce, payload);
      if err != None {
        return;
      }
      var out, start := Seal(aead, buf, LENGTH_SIZE + NONCE_SIZE, nonce, payload);
      assert buf[LENGTH_SIZE..LENGTH_SIZE + NONCE_SIZE] == buf[..LENGTH_SIZE + NONCE_SIZE][LENGTH_SIZE..] == nonce;
      frameLen := NONCE_SIZE + |payload| + TAG_SIZE;
      var header := PutUint16(frameLen);
      ghost var sealed := buf[..];
      buf[0], buf[1] := header[0], header[1];
      assert buf[..2] == header;
      assert buf[2..14] == sealed[2..14];
      assert buf[14..2 + frameLen] == sealed[14..2 + frameLen];
      assert buf[..2 + frameLen] == buf[..2] + buf[2..14] + buf[14..2 + frameLen];
    }

    /** Sends one frame holding `b[lo..hi]`; a failed send leaves a prefix of it on the wire. */
    method WriteFrame(b: array<byte>, lo: nat, hi: nat) returns (err: Option<IoError>, ghost frame: Frame, ghost tail: nat)
      requires CanWrite() && b !in framePool.all
      requires lo < hi <= b.Length && hi - lo <= MAX_PAYLOAD
      modifies outbound, random, framePool, framePool.all
      ensures CanWrite() && fresh(framePool.all - old(framePool.all))
      ensures framePool.AllBack(old(framePool.free), old(framePool.all))
      ensures frame.payload == b[lo..hi] && Emitted(frame)
      ensures Failures() == old(Failures()) + if err == None then 0 else 1
      ensures random.drawn == old(random.drawn) + [frame.nonce]
           || (random.drawn == old(random.drawn) && err == Some(RandError) && tail == 0)
      ensures err == None ==> random.drawn == old(random.drawn) + [frame.nonce]
      ensures tail <= |EncodeFrame(aead, frame)|
      ensures outbound.sent == old(outbound.sent) + EncodeFrame(aead, frame)[..tail]
      ensures err == None ==> tail == |EncodeFrame(aead, frame)|
    {
      var buf := framePool.Get();
      var frameLen;
      frameLen, err, frame := FillFrame(buf, b[lo..hi]);
      tail := 0;
      if err == None {
        tail, err := Send(buf, LENGTH_SIZE + frameLen);
      }
      framePool.Put(buf);
    }

    method Send(buf: array<byte>, len: nat) returns (n: nat, err: Option<IoError>)
      requires len <= buf.Length
      modifies outbound
      ensures n <= len && outbound.sent == old(outbound.sent) + buf[..len][..n]
      ensures outbound.failures == old(outbound.failures) + if err == None then 0 else 1
      ensures err == None ==> n == len
    {
      n, err := outbound.Write(buf, 0, len);
      assert buf[0..0 + n] == buf[..len][..n];
    }

    /** One round of the loop in `Write`: `frames` carried the first `n` bytes of `data`, what
        is left is `b[at..hi]`, and `frame` carries the next chunk of it. */
    method WriteNext(b: array<byte>, at: nat, hi: nat, ghost data: seq<byte>, ghost n: nat,
                     ghost before: seq<byte>, ghost frames: seq<Frame>)
      returns (size: nat, err: Option<IoError>, ghost frame: Frame, ghost tail: nat)
      requires CanWrite() && b !in framePool.all
      requires at < hi <= b.Length && n <= |data| && b[at..hi] == data[n..]
      requires Sent(before, frames, data, n)
      modifies outbound, random, framePool, framePool.all
      ensures CanWrite() && fresh(framePool.all - old(framePool.all))
      ensures framePool.AllBack(old(framePool.free), old(framePool.all))
      ensures 0 < size <= hi - at
      ensures Failures() == old(Failures()) + if err == None then 0 else 1
      ensures err == None ==> random.drawn == old(random.drawn) + [frame.nonce]
      ensures err == None ==> Sent(before, frames + [frame], data, n + size) && b[at + size..hi] == data[n + size..]
      ensures err != None ==> Cut(before, frames, frame, tail, data[n..])
    {
      size := Min(hi - at, MAX_PAYLOAD);
      assert NextChunk(data[n..]) == b[at..at + size];
      err, frame, tail := WriteFrame(b, at, at + size);
      if err == None {
        OneMore(aead, frames, frame, data, n);
        WireGrows(aead, before, frames, frame);
        assert b[at..hi][size..] == data[n..][size..];
      }
    }

    static lemma WireGrows(a: Aead, before: seq<byte>, frames: seq<Frame>, frame: Frame)
      ensures before + EncodeFrames(a, frames) + EncodeFrame(a, frame)[..|EncodeFrame(a, frame)|]
           == before + EncodeFrames(a, frames + [frame])
    {
      var e := EncodeFrame(a, frame);
      EncodeFramesSnoc(a, frames, frame);
      assert e[..|e|] == e;
      Associate(before, EncodeFrames(a, frames), e);
    }

    /** The wire after a failed write: the accepted `frames`, and the first `tail` bytes of
        the frame for the chunk of `rest` that was being sent. */
    ghost predicate Cut(before: seq<byte>, frames: seq<Frame>, frame: Frame, tail: nat, rest: seq<byte>)
      reads outbound
    {
      && Emitted(frame) && frame.payload == NextChunk(rest)
      && tail <= |EncodeFrame(aead, frame)|
      && outbound.sent == before + EncodeFrames(aead, frames) + EncodeFrame(aead, frame)[..tail]
    }

    /** Sends `b[lo..hi]` as a sequence of frames, each with a nonce of its own draw. `n` bytes
        were accepted. There is an error if and only if a call of the transport or of
        `crypto/rand` has failed, which ends the write; at most one more frame, `next`, has
        then reached the wire, in whole or in part. */
    method Write(b: array<byte>, lo: nat, hi: nat)
      returns (n: nat, err: Option<IoError>, ghost frames: seq<Frame>, ghost next: Frame, ghost tail: nat)
      requires CanWrite() && b !in framePool.all
      requires lo <= hi <= b.Length
      modifies outbound, random, framePool, framePool.all
      ensures CanWrite() && fresh(framePool.all - old(framePool.all))
      ensures Failures() == old(Failures()) + if err == None then 0 else 1
      ensures err == None ==> random.drawn == old(random.drawn) + Nonces(frames)
      ensures framePool.AllBack(old(framePool.free), old(framePool.all))
      ensures n <= hi - lo && Sending(frames, b[lo..hi], n)
      ensures err == None ==> n == hi - lo && outbound.sent == old(outbound.sent) + EncodeFrames(aead, frames)
      ensures err != None ==> lo + n < hi && Cut(old(outbound.sent), frames, next, tail, b[lo..hi][n..])
    {
      ghost var before := outbound.sent;
      ghost var data := b[lo..hi];
      n, err, frames, next, tail := 0, None, [], Frame([], []), 0;
      var at := lo;
      assert data[0..] == data;
      while at < hi
        invariant CanWrite() && b !in framePool.all && fresh(framePool.all - old(framePool.all))
        invariant framePool.AllBack(old(framePool.free), old(framePool.all))
        invariant lo <= at <= hi && n == at - lo && b[at..hi] == data[n..] && data == b[lo..hi]
        invariant Sent(before, frames, data, n) && err == None
        invariant Failures() == old(Failures()) && random.drawn == old(random.drawn) + Nonces(frames)
      {
        var size;
        size, err, next, tail := WriteNext(b, at, hi, data, n, before, frames);
        if err != None {
          return;
        }
        at := at + size;
        NoncesAppend(old(random.drawn), frames, next);
        frames, n := frames + [next], n + size;
      }
    }

    /** The frames sent so far carry the first `n` bytes of `data`, cut as `Chunks` cuts. */
    static ghost predicate Sending(frames: seq<Frame>, data: seq<byte>, n: nat) {
      && n <= |data|
      && (forall f | f in frames :: Emitted(f))
      && Plain(frames) == data[..n]
      && Chunks(data) == Payloads(frames) + Chunks(data[n..])
    }

    static function Nonces(frames: seq<Frame>): seq<seq<byte>> {
      seq(|frames|, i requires 0 <= i < |frames| => frames[i].nonce)
    }

    static lemma NoncesAppend(drawn: seq<seq<byte>>, frames: seq<Frame>, frame: Frame)
      ensures drawn + Nonces(frames) + [frame.nonce] == drawn + Nonces(frames + [frame])
    {
      assert Nonces(frames + [frame]) == Nonces(frames) + [frame.nonce];
    }

    /** The frames are all that was put on the wire since it held `before`. */
    ghost predicate Sent(before: seq<byte>, frames: seq<Frame>, data: seq<byte>, n: nat)
      reads outbound
    {
      Sending(frames, data, n) && outbound.sent == before + EncodeFrames(aead, frames)
    }

    static lemma OneMore(a: Aead, frames: seq<Frame>, frame: Frame, data: seq<byte>, n: nat)
      requires Sending(frames, data, n) && n < |data|
      requires Emitted(frame) && frame.payload == NextChunk(data[n..])
      ensures Sending(frames + [frame], data, n + |frame.payload|)
    {
      PlainAppend(frames, [frame]);
      PlainOne(frame);
      var m := n + |frame.payload|;
      assert data[..n] + frame.payload == data[..m];
      assert data[n..][|frame.payload|..] == data[m..];
      assert Payloads(frames + [frame]) == Payloads(frames) + [frame.payload];
    }

    /** Once all of `data` is accepted the frames are exactly its chunks. */
    static lemma AllSent(frames: seq<Frame>, data: seq<byte>)
      requires Sending(frames, data, |data|)
      ensures Plain(frames) == data && Payloads(frames) == Chunks(data)
    {
      assert data[..|data|] == data;
    }

    method ReadHeader() returns (frameLen: nat, err: Option<IoError>)
      modifies inbound`incoming
      ensures match ParseHeader(old(inbound.incoming), inbound.atEnd)
              case Stop(e, rest) => err == Some(e) && inbound.incoming == rest
              case Item(len, rest) => err == None && inbound.incoming == rest && frameLen == len
    {
      var lenBuf := new byte[LENGTH_SIZE];
      frameLen := 0;
      err := inbound.ReadFull(lenBuf, 0, LENGTH_SIZE);
      if err == None {
        assert lenBuf[..] == FullRead(old(inbound.incoming), LENGTH_SIZE, inbound.atEnd).got;
        frameLen := Uint16(lenBuf[..]);
        if frameLen < NONCE_SIZE + TAG_SIZE {
          err := Some(InvalidFrameLength);
        }
      }
    }

    /** Reads one frame into a recycled buffer and opens it into fresh storage. */
    method ReadFrame() returns (plaintext: array<byte>, err: Option<IoError>)
      requires Valid()
      modifies inbound`incoming, readPool, readPool.all
      ensures Valid() && fresh(readPool.all - old(readPool.all))
      ensures readPool.AllBack(old(readPool.free), old(readPool.all))
      ensures fresh(plaintext) && plaintext !in readPool.all
      ensures match ParseFrame(aead, old(inbound.incoming), inbound.atEnd)
              case Stop(e, rest) => err == Some(e) && inbound.incoming == rest
              case Item(f, rest) => err == None && inbound.incoming == rest && plaintext[..] == f.payload
    {
      var frameLen;
      frameLen, err := ReadHeader();
      if err != None {
        plaintext := new byte[0];
        return;
      }
      plaintext, err := ReadBody(frameLen);
    }

    /** The part of `readFrame` that holds a recycled buffer. */
    method ReadBody(frameLen: nat) returns (plaintext: array<byte>, err: Option<IoError>)
      requires Valid() && NONCE_SIZE <= frameLen <= READ_BUFFER
      modifies inbound`incoming, readPool, readPool.all
      ensures Valid() && fresh(readPool.all - old(readPool.all))
      ensures readPool.AllBack(old(readPool.free), old(readPool.all))
      ensures fresh(plaintext) && plaintext !in readPool.all
      ensures match ParseBody(aead, frameLen, old(inbound.incoming), inbound.atEnd)
              case Stop(e, rest) => err == Some(e) && inbound.incoming == rest
              case Item(f, rest) => err == None && inbound.incoming == rest && plaintext[..] == f.payload
    {
      plaintext := new byte[0];
      ghost var s := inbound.incoming;
      var buf := readPool.Get();
      err := inbound.ReadFull(buf, 0, frameLen);
      if err == None {
        assert buf[..frameLen] == FullRead(s, frameLen, inbound.atEnd).got;
        plaintext, err := Open(buf, frameLen);
      }
      readPool.Put(buf);
    }

    /** `aead.Open(nil, frame[:12], frame[12:], nil)` for the frame in `buf[..frameLen]`. */
    method Open(buf: array<byte>, frameLen: nat) returns (plaintext: array<byte>, err: Option<IoError>)
      requires NONCE_SIZE <= frameLen <= buf.Length
      ensures fresh(plaintext)
      ensures match aead.open(buf[..frameLen][..NONCE_SIZE], buf[..frameLen][NONCE_SIZE..])
              case None => err == Some(OpenFailed)
              case Some(p) => err == None && plaintext[..] == p
    {
      var frame := buf[..frameLen];
      match aead.open(frame[..NONCE_SIZE], frame[NONCE_SIZE..])
      case None =>
        plaintext, err := new byte[0], Some(OpenFailed);
      case Some(p) =>
        plaintext, err := new byte[|p|](i requires 0 <= i < |p| => p[i]), None;
        assert plaintext[..] == p;
    }

    /** One `Read` into `b[lo..hi]`. */
    method Read(b: array<byte>, lo: nat, hi: nat) returns (n: nat, err: Option<IoError>)
      requires Valid() && b != readBuf && b !in readPool.all && b !in framePool.all
      requires lo <= hi <= b.Length
      modifies this`readBuf, this`readAt, b, inbound`incoming, readPool, readPool.all
      ensures Valid() && fresh(readPool.all - old(readPool.all))
      ensures readPool.AllBack(old(readPool.free), old(readPool.all))
      ensures readBuf == old(readBuf) || fresh(readBuf)
      ensures var r := ReadOnce(aead, old(Leftover()), old(inbound.incoming), inbound.atEnd, hi - lo);
              && n == |r.out| <= hi - lo
              && err == r.err
              && Leftover() == r.leftover
              && inbound.incoming == r.incoming
              && b[..] == Splice(old(b[..]), lo, r.out)
      ensures lo + n <= hi && b[..lo] == old(b[..lo]) && b[lo + n..] == old(b[lo + n..])
      ensures err != None ==> n == 0 && b[..] == old(b[..]) && Leftover() == old(Leftover()) == []
    {
      err := None;
      if readAt < readBuf.Length {
        n := CopyInto(b, lo, hi, readBuf[readAt..]);
        readAt := readAt + n;
        return;
      }
      n := 0;
      var plaintext;
      plaintext, err := ReadFrame();
      if err != None {
        return;
      }
      n := CopyInto(b, lo, hi, plaintext[..]);
      if n < plaintext.Length {
        readBuf, readAt := plaintext, n;
      }
    }
  }

  /** Leftover plaintext is stable: between two reads of `c`, any other connection over the
      same pools may read and write, through the very buffers `c` used, without changing
      what `c` has pending. */
  method OthersLeaveLeftover(c: ChaCha20Conn, d: ChaCha20Conn, b: array<byte>)
    requires c != d && c.Valid() && d.Valid()
    requires c.framePool == d.framePool && c.readPool == d.readPool
    requires c.inbound != d.inbound && c.outbound != d.outbound
    requires b != c.readBuf && b != d.readBuf && b !in d.readPool.all && b !in d.framePool.all
    modifies d, b, d.inbound, d.outbound, d.random, d.readPool, d.readPool.all, d.framePool, d.framePool.all
    ensures c.Valid() && c.Leftover() == old(c.Leftover())
    ensures c.inbound.incoming == old(c.inbound.incoming) && c.outbound.sent == old(c.outbound.sent)
  {
    var wn, werr, frames, next, tail := d.Write(b, 0, b.Length);
    var n, err := d.Read(b, 0, b.Length);
  }
}
