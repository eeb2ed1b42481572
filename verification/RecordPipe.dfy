/** One direction of an encrypted connection as a system of small steps: the writer's frames
    and the reader's partial reads interleave in any order, and the transport hands over any
    number of bytes at a time. The system refines a plain byte pipe. */
module RecordPipe {
  import opened Bytes
  import opened Framing
  import opened Records

  datatype Pipe = Pipe(
    written: seq<byte>,        // plaintext accepted by `Write` so far
    wire: seq<byte>,           // bytes sent that the reader has not fetched
    fetched: seq<byte>,        // what the `readFrame` in progress has fetched
    readBuf: seq<byte>,        // leftover plaintext
    delivered: seq<byte>,      // plaintext returned by `Read` so far
    error: Option<IoError>)

  datatype Event =
    | Emit(frame: Frame)       // `writeFrame` sends one frame
    | Fetch(k: nat)            // the transport returns `k` bytes to `readFrame`
    | Finish(m: nat)           // `readFrame` returns inside a `Read` with an `m`-byte buffer
    | Take(m: nat)             // a `Read` with an `m`-byte buffer finds leftover plaintext

  const EMPTY := Pipe([], [], [], [], [], None)

  function FrameLen(fetched: seq<byte>): nat
    requires |fetched| >= LENGTH_SIZE
  {
    Uint16(fetched[..LENGTH_SIZE])
  }

  /** How many bytes the `io.ReadFull` in progress still waits for. */
  function Need(fetched: seq<byte>): int {
    if |fetched| < LENGTH_SIZE then LENGTH_SIZE - |fetched|
    else LENGTH_SIZE + FrameLen(fetched) - |fetched|
  }

  predicate Enabled(s: Pipe, e: Event) {
    match e
    case Emit(f) => Emitted(f)
    case Fetch(k) => s.readBuf == [] && s.error == None && 0 < k <= |s.wire| && k <= Need(s.fetched)
    case Finish(_) => s.readBuf == [] && s.error == None && |s.fetched| >= LENGTH_SIZE
                      && (FrameLen(s.fetched) < NONCE_SIZE + TAG_SIZE || Need(s.fetched) == 0)
    case Take(_) => s.readBuf != []
  }

  function Step(a: Aead, s: Pipe, e: Event): Pipe
    requires Enabled(s, e)
  {
    match e
    case Emit(f) => s.(wire := s.wire + EncodeFrame(a, f), written := s.written + f.payload)
    case Fetch(k) => s.(fetched := s.fetched + s.wire[..k], wire := s.wire[k..])
    case Finish(m) =>
      if FrameLen(s.fetched) < NONCE_SIZE + TAG_SIZE then s.(fetched := [], error := Some(InvalidFrameLength))
      else (
        match a.open(s.fetched[2..14], s.fetched[14..])
        case None => s.(fetched := [], error := Some(OpenFailed))
        case Some(p) =>
          var n := Min(m, |p|);
          s.(fetched := [], readBuf := p[n..], delivered := s.delivered + p[..n])
      )
    case Take(m) =>
      var n := Min(m, |s.readBuf|);
      s.(readBuf := s.readBuf[n..], delivered := s.delivered + s.readBuf[..n])
  }

  /** `fs` are the frames that left the writer and are not opened yet. */
  ghost predicate Inv(a: Aead, s: Pipe, fs: seq<Frame>) {
    && (forall f | f in fs :: Emitted(f))
    && s.fetched + s.wire == EncodeFrames(a, fs)
    && (fs != [] ==> |s.fetched| <= |EncodeFrame(a, fs[0])|)
    && s.written == s.delivered + s.readBuf + Plain(fs)
    && s.error == None
  }

  /** What has been fetched is the beginning of the oldest frame, and once the header is
      there `Need` is exactly what that frame still lacks. */
  lemma FetchedIsFrame(a: Aead, s: Pipe, fs: seq<Frame>)
    requires Inv(a, s, fs) && s.fetched != []
    ensures fs != [] && s.fetched == EncodeFrame(a, fs[0])[..|s.fetched|]
    ensures |s.fetched| >= LENGTH_SIZE ==>
      && FrameLen(s.fetched) >= NONCE_SIZE + TAG_SIZE
      && Need(s.fetched) == |EncodeFrame(a, fs[0])| - |s.fetched|
  {
    var e := EncodeFrame(a, fs[0]);
    FrameFits(a, fs[0]);
    assert s.fetched == (s.fetched + s.wire)[..|s.fetched|] == e[..|s.fetched|];
    if |s.fetched| >= LENGTH_SIZE {
      assert s.fetched[..2] == e[..2];
    }
  }

  /** Every step of every interleaving keeps the invariant. */
  lemma StepKeeps(a: Aead, s: Pipe, fs: seq<Frame>, e: Event) returns (fs': seq<Frame>)
    requires Inv(a, s, fs) && Enabled(s, e)
    ensures Inv(a, Step(a, s, e), fs')
    ensures fs' == match e { case Emit(f) => fs + [f] case Finish(_) => fs[1..] case _ => fs }
  {
    match e
    case Emit(f) =>
      EmitKeeps(a, s, fs, f);
      fs' := fs + [f];
    case Fetch(k) =>
      fs' := fs;
      FetchKeeps(a, s, fs, k);
    case Finish(m) =>
      FinishKeeps(a, s, fs, m);
      fs' := fs[1..];
    case Take(m) =>
      fs' := fs;
      TakeKeeps(a, s, fs, m);
  }

  lemma EmitKeeps(a: Aead, s: Pipe, fs: seq<Frame>, f: Frame)
    requires Inv(a, s, fs) && Emitted(f)
    ensures Inv(a, Step(a, s, Emit(f)), fs + [f])
  {
    var t := Step(a, s, Emit(f));
    assert t.fetched + t.wire == EncodeFrames(a, fs + [f]) by {
      EncodeFramesSnoc(a, fs, f);
      Associate(s.fetched, s.wire, EncodeFrame(a, f));
    }
    assert t.written == t.delivered + t.readBuf + Plain(fs + [f]) by {
      PlainAppend(fs, [f]);
      PlainOne(f);
      Associate(s.delivered + s.readBuf, Plain(fs), f.payload);
    }
    assert |t.fetched| <= |EncodeFrame(a, (fs + [f])[0])| by {
      if fs == [] {
        assert s.fetched == [];
      }
    }
  }

  lemma TakeKeeps(a: Aead, s: Pipe, fs: seq<Frame>, m: nat)
    requires Inv(a, s, fs) && Enabled(s, Take(m))
    ensures Inv(a, Step(a, s, Take(m)), fs)
  {
    var n := Min(m, |s.readBuf|);
    assert s.delivered + s.readBuf == s.delivered + s.readBuf[..n] + s.readBuf[n..] by {
      assert s.readBuf == s.readBuf[..n] + s.readBuf[n..];
    }
  }

  lemma FetchKeeps(a: Aead, s: Pipe, fs: seq<Frame>, k: nat)
    requires Inv(a, s, fs) && Enabled(s, Fetch(k))
    ensures Inv(a, Step(a, s, Fetch(k)), fs)
  {
    assert s.fetched + s.wire[..k] + s.wire[k..] == s.fetched + s.wire;
    if s.fetched != [] {
      FetchedIsFrame(a, s, fs);
    }
    if fs != [] {
      FrameFits(a, fs[0]);
    }
  }

  lemma FinishKeeps(a: Aead, s: Pipe, fs: seq<Frame>, m: nat)
    requires Inv(a, s, fs) && Enabled(s, Finish(m))
    ensures fs != [] && Inv(a, Step(a, s, Finish(m)), fs[1..])
  {
    FetchedIsFrame(a, s, fs);
    var f, e := fs[0], EncodeFrame(a, fs[0]);
    var n := Min(m, |f.payload|);
    assert s.fetched == e && a.open(s.fetched[2..14], s.fetched[14..]) == Some(f.payload) by {
      FrameFits(a, f);
    }
    assert s.wire == EncodeFrames(a, fs[1..]) by {
      assert (e + s.wire)[|e|..] == s.wire;
    }
    assert s.written == s.delivered + f.payload[..n] + f.payload[n..] + Plain(fs[1..]) by {
      assert [f] + fs[1..] == fs;
      PlainCons(f, fs[1..]);
      Regroup(s.delivered, f.payload, n, Plain(fs[1..]));
    }
  }

  lemma Regroup(x: seq<byte>, y: seq<byte>, n: nat, z: seq<byte>)
    requires n <= |y|
    ensures x + [] + (y + z) == x + y[..n] + y[n..] + z
  {
  }

  ghost predicate Runs(a: Aead, s: Pipe, es: seq<Event>)
    decreases |es|
  {
    es == [] || (Enabled(s, es[0]) && Runs(a, Step(a, s, es[0]), es[1..]))
  }

  function Run(a: Aead, s: Pipe, es: seq<Event>): Pipe
    requires Runs(a, s, es)
    decreases |es|
  {
    if es == [] then s else Run(a, Step(a, s, es[0]), es[1..])
  }

  lemma {:induction false} RunKeeps(a: Aead, s: Pipe, fs: seq<Frame>, es: seq<Event>) returns (fs': seq<Frame>)
    requires Inv(a, s, fs) && Runs(a, s, es)
    ensures Inv(a, Run(a, s, es), fs')
    decreases |es|
  {
    if es == [] {
      fs' := fs;
    } else {
      fs' := StepKeeps(a, s, fs, es[0]);
      fs' := RunKeeps(a, Step(a, s, es[0]), fs', es[1..]);
    }
  }

  /** The record layer refines a plain byte pipe. After any run, whatever the interleaving,
      the buffer sizes and the segmentation: what was written is what was delivered, then
      the leftover, then the decryption of the bytes still in transit; no error occurred;
      and if nothing is in transit, everything written has been delivered. */
  lemma PipeRefinement(a: Aead, es: seq<Event>, end: IoError)
    requires Runs(a, EMPTY, es)
    ensures var s := Run(a, EMPTY, es);
            && s.error == None
            && s.written == s.delivered + Pending(a, s.readBuf, s.fetched + s.wire, end)
            && s.delivered <= s.written
            && (s.fetched == [] && s.wire == [] && s.readBuf == [] ==> s.delivered == s.written)
  {
    var s := Run(a, EMPTY, es);
    assert Inv(a, EMPTY, []);
    var fs := RunKeeps(a, EMPTY, [], es);
    assert Drain(FrameParser(a, end), s.fetched + s.wire).items == fs by {
      FramesRead(a, fs, end);
      WholeStream(FrameEncoder(a), FrameParser(a, end), LENGTH_SIZE, end, fs);
    }
    Associate(s.delivered, s.readBuf, Plain(fs));
  }

  /** The frame the small-step reader opens is the frame one uninterrupted `Read` of the
      same bytes would have returned. */
  lemma FinishIsRead(a: Aead, s: Pipe, fs: seq<Frame>, m: nat, end: IoError)
    requires Inv(a, s, fs) && Enabled(s, Finish(m))
    ensures var r := ReadOnce(a, s.readBuf, s.fetched + s.wire, end, m);
            var t := Step(a, s, Finish(m));
            && r.err == t.error
            && t.delivered == s.delivered + r.out
            && t.readBuf == r.leftover && t.fetched + t.wire == r.incoming
  {
    FinishKeeps(a, s, fs, m);
    FetchedIsFrame(a, s, fs);
    assert s.fetched == EncodeFrame(a, fs[0]);
    FrameFits(a, fs[0]);
    FrameRoundTrip(a, fs[0], s.wire, end);
  }

  predicate ByReader(e: Event) {
    !e.Emit?
  }

  /** The reader never gets stuck: from every reachable state its own steps alone deliver
      everything that was written. */
  lemma {:induction false} ReaderDrains(a: Aead, s: Pipe, fs: seq<Frame>) returns (es: seq<Event>)
    requires Inv(a, s, fs)
    ensures Runs(a, s, es) && (forall e | e in es :: ByReader(e))
    ensures Run(a, s, es).delivered == Run(a, s, es).written == s.written
    decreases |fs|, |s.wire|, |s.readBuf|
  {
    if s.readBuf == [] && fs == [] {
      es := [];
    } else {
      var e := NextRead(a, s, fs);
      var fs' := StepKeeps(a, s, fs, e);
      es := ReaderDrains(a, Step(a, s, e), fs');
      var all := [e] + es;
      assert all[0] == e && all[1..] == es;
      es := all;
    }
  }

  lemma NextRead(a: Aead, s: Pipe, fs: seq<Frame>) returns (e: Event)
    requires Inv(a, s, fs) && (s.readBuf != [] || fs != [])
    ensures ByReader(e) && Enabled(s, e)
    ensures e.Take? ==> |Step(a, s, e).readBuf| < |s.readBuf|
    ensures e.Finish? ==> fs != []
  {
    if s.readBuf != [] {
      e := Take(1);
    } else {
      FrameFits(a, fs[0]);
      if s.fetched != [] {
        FetchedIsFrame(a, s, fs);
      }
      if |s.fetched| == |EncodeFrame(a, fs[0])| {
        e := Finish(0);
      } else {
        assert |s.fetched + s.wire| >= |EncodeFrame(a, fs[0])|;
        e := Fetch(1);
      }
    }
  }
}
