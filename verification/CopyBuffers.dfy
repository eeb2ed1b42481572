/** `copyBuffer` as it is written: a loop over one recycled buffer, with byte counters. */
module CopyBuffers {
  import opened Bytes
  import opened Streams
  import opened Relay

  /** What one `Read` call of a connection returns. */
  datatype ReadEvent = ReadEvent(data: seq<byte>, err: Option<IoError>)

  /** A source with any finite behaviour: reads may be short or empty, and an error may come
      together with data. The last event ends the source. */
  class Source {
    var script: seq<ReadEvent>
    ghost var delivered: seq<byte>

    ghost predicate Valid(bufferSize: nat)
      reads this
    {
      && (forall e | e in script :: |e.data| <= bufferSize)
      && script != [] && script[|script| - 1].err.Some?
    }

    constructor (script: seq<ReadEvent>)
      ensures this.script == script && delivered == []
    {
      this.script, delivered := script, [];
    }

    method Read(b: array<byte>) returns (n: nat, err: Option<IoError>)
      requires Valid(b.Length)
      modifies this, b
      ensures var e := old(script)[0];
              && n == |e.data| <= b.Length && err == e.err
              && b[..n] == e.data
              && delivered == old(delivered) + e.data
              && script == old(script)[1..]
      ensures err == None ==> Valid(b.Length)
    {
      var e := script[0];
      n, err := |e.data|, e.err;
      forall i | 0 <= i < n {
        b[i] := e.data[i];
      }
      script, delivered := script[1..], delivered + e.data;
    }
  }

  /** A destination that may fail, or accept less than offered with or without an error. */
  class Sink {
    var accepted: seq<byte>
    /** The errors of the writes that did not accept everything, `ErrShortWrite` for a short
        write without one. */
    ghost var refusals: seq<IoError>

    constructor ()
      ensures accepted == [] && refusals == []
    {
      accepted, refusals := [], [];
    }

    method Write(b: array<byte>, n: nat) returns (wn: nat, werr: Option<IoError>)
      requires n <= b.Length
      modifies this
      ensures wn <= n && accepted == old(accepted) + b[..wn]
      ensures refusals == old(refusals) + Refusal(n, wn, werr)
    {
      wn :| 0 <= wn <= n;
      werr := *;
      accepted := accepted + b[..wn];
      refusals := refusals + Refusal(n, wn, werr);
    }
  }

  function Refusal(n: nat, wn: nat, werr: Option<IoError>): seq<IoError> {
    if werr.Some? then [werr.value] else if wn != n then [ShortWrite] else []
  }

  class Stats {
    var bytesIn: int
    var bytesOut: int

    constructor ()
      ensures bytesIn == 0 && bytesOut == 0
    {
      bytesIn, bytesOut := 0, 0;
    }

    method AddBytesIn(n: int)
      modifies this`bytesIn
      ensures bytesIn == old(bytesIn) + n
    {
      bytesIn := bytesIn + n;
    }

    method AddBytesOut(n: int)
      modifies this`bytesOut
      ensures bytesOut == old(bytesOut) + n
    {
      bytesOut := bytesOut + n;
    }
  }

  class BufferPool {
    const pool: SyncPool

    ghost predicate Valid()
      reads pool
    {
      pool.Valid()
    }

    constructor (size: nat)
      ensures Valid() && fresh(pool) && pool.size == size && pool.all == {}
    {
      pool := new SyncPool(size);
    }

    method Get() returns (buf: array<byte>)
      requires Valid()
      modifies pool
      ensures Valid() && buf in pool.all && buf !in pool.free && buf.Length == pool.size
      ensures pool.all == old(pool.all) + {buf} && (buf in old(pool.all) || fresh(buf))
      ensures forall x | x in pool.free :: x in old(pool.free)
      ensures forall x | x in old(pool.free) :: x == buf || x in pool.free
    {
      buf := pool.Get();
    }

    /** Takes a buffer back; nil and buffers of another length are not pooled. */
    method Put(buf: array?<byte>)
      requires Valid() && (buf != null ==> buf !in pool.free)
      modifies pool
      ensures Valid()
      ensures if buf != null && buf.Length == pool.size
              then pool.free == old(pool.free) + [buf] && pool.all == old(pool.all) + {buf}
              else pool.free == old(pool.free) && pool.all == old(pool.all)
    {
      if buf != null && buf.Length == pool.size {
        pool.Put(buf);
      }
    }
  }

  /** Writes the `n` bytes at the front of `buf`, counting what is read and what is accepted.
      On return `done` says whether `copyBuffer` is to return `err` at once. */
  method Forward(dst: Sink, buf: array<byte>, n: nat, stats: Stats?) returns (wn: nat, done: bool, err: Option<IoError>, ghost werr: Option<IoError>)
    requires n <= buf.Length
    modifies dst, stats
    ensures wn <= n && dst.accepted == old(dst.accepted) + buf[..n][..wn]
    ensures stats != null ==>
      stats.bytesIn == old(stats.bytesIn) + n && stats.bytesOut == old(stats.bytesOut) + wn
    ensures done == (werr.Some? || wn != n)
    ensures dst.refusals == old(dst.refusals) + if err == None then [] else [err.value]
    ensures err == if werr.Some? then werr else if wn != n then Some(ShortWrite) else None
  {
    if stats != null {
      stats.AddBytesIn(n);
    }
    var e;
    wn, e := dst.Write(buf, n);
    assert buf[..wn] == buf[..n][..wn];
    werr := e;
    if wn > 0 && stats != null {
      stats.AddBytesOut(wn);
    }
    if e != None {
      done, err := true, e;
    } else if wn != n {
      done, err := true, Some(ShortWrite);
    } else {
      done, err := false, None;
    }
  }

  /** One round of the loop of `copyBuffer`. */
  method CopyOnce(dst: Sink, src: Source, buf: array<byte>, stats: Stats?, ghost loop: Loop, ghost steps: seq<LoopEvent>)
    returns (wn: nat, done: bool, err: Option<IoError>, ghost refused: Option<IoError>, ghost loop': Loop, ghost steps': seq<LoopEvent>)
    requires src.Valid(buf.Length) && buf.Length == BUFFER_SIZE
    requires At(loop, steps) && loop.pc == Reading
    modifies dst, src, stats, buf
    ensures At(loop', steps')
    ensures loop.read <= loop'.read && loop.written <= loop'.written && |loop'.written| == |loop.written| + wn
    ensures src.delivered == old(src.delivered) + loop'.read[|loop.read|..]
    ensures dst.accepted == old(dst.accepted) + loop'.written[|loop.written|..]
    ensures stats != null ==>
      && stats.bytesIn == old(stats.bytesIn) + |loop'.read| - |loop.read|
      && stats.bytesOut == old(stats.bytesOut) + wn
    ensures loop'.pc == if done then Ended(err) else Reading
    ensures src.script == old(src.script)[1..]
    ensures !done ==> src.Valid(buf.Length)
    ensures var e := old(src.script)[0];
            && loop'.read == loop.read + e.data
            && dst.refusals == old(dst.refusals) + (if refused == None then [] else [refused.value])
            && (done <==> refused.Some? || e.err.Some?)
            && (refused.Some? ==> err == refused)
            && (refused == None ==> wn == |e.data| && err == if e.err == Some(EOF) then None else e.err)
  {
    refused := None;
    var n;
    n, err := src.Read(buf);
    ghost var data := buf[..n];
    loop', steps' := Advance(loop, steps, Read(data, err));
    assert (loop.read + data)[|loop.read|..] == data;
    wn, done := 0, false;
    if n > 0 {
      var early;
      ghost var werr;
      wn, done, early, werr := Forward(dst, buf, n, stats);
      loop', steps' := Advance(loop', steps', Write(wn, werr));
      assert (loop.written + data[..wn])[|loop.written|..] == data[..wn];
      if done {
        err, refused := early, early;
        return;
      }
    }
    if err != None {
      done := true;
      if err == Some(EOF) {
        err := None;
      }
    }
  }

  /** The run `steps` of one copy loop has reached `loop`. */
  ghost predicate At(loop: Loop, steps: seq<LoopEvent>) {
    LoopRuns(START, steps) && LoopRun(START, steps) == loop && LoopInv(loop)
  }

  function DataOf(events: seq<ReadEvent>): seq<byte> {
    if events == [] then [] else DataOf(events[..|events| - 1]) + events[|events| - 1].data
  }

  /** What the reads before `k` returned, none of them an error. */
  ghost predicate ReadBefore(script: seq<ReadEvent>, k: nat, read: seq<byte>) {
    k <= |script| && read == DataOf(script[..k]) && forall i | 0 <= i < k :: script[i].err == None
  }

  /** `copyBuffer` has made the first `k` reads of the script, and `refused` tells whether a write
      was not accepted in full. All reads but the last were free of errors. If no write was
      refused, the last read had an error, everything read was forwarded, and the result is that
      error, or nil for EOF; otherwise it is the error of the refused write. */
  ghost predicate Copied(script: seq<ReadEvent>, k: nat, refused: Option<IoError>, read: seq<byte>, total: nat, err: Option<IoError>) {
    && 0 < k <= |script| && read == DataOf(script[..k])
    && (forall i | 0 <= i < k - 1 :: script[i].err == None)
    && (refused == None ==>
          && script[k - 1].err.Some? && total == |read|
          && err == if script[k - 1].err == Some(EOF) then None else script[k - 1].err)
    && (refused.Some? ==> err == refused)
  }

  lemma ReadOneMore(script: seq<ReadEvent>, k: nat, read: seq<byte>)
    requires ReadBefore(script, k, read) && k < |script|
    ensures DataOf(script[..k + 1]) == read + script[k].data
    ensures script[k].err == None ==> ReadBefore(script, k + 1, read + script[k].data)
  {
    assert script[..k + 1][..k] == script[..k];
  }

  /** The loop of `copyBuffer`. */
  method CopyLoop(dst: Sink, src: Source, buf: array<byte>, stats: Stats?)
    returns (total: nat, err: Option<IoError>, ghost k: nat, ghost refused: Option<IoError>, ghost loop: Loop, ghost steps: seq<LoopEvent>)
    requires src.Valid(buf.Length) && buf.Length == BUFFER_SIZE
    modifies dst, src, stats, buf
    ensures At(loop, steps) && loop.pc == Ended(err) && total == |loop.written|
    ensures src.delivered == old(src.delivered) + loop.read && dst.accepted == old(dst.accepted) + loop.written
    ensures Copied(old(src.script), k, refused, loop.read, total, err) && src.script == old(src.script)[k..]
    ensures dst.refusals == old(dst.refusals) + if refused == None then [] else [refused.value]
    ensures stats != null ==>
      stats.bytesIn == old(stats.bytesIn) + |loop.read| && stats.bytesOut == old(stats.bytesOut) + total
  {
    ghost var read0, accepted0, script0 := src.delivered, dst.accepted, src.script;
    total, err, k, refused, loop, steps := 0, None, 0, None, START, [];
    var done := false;
    while !done
      invariant k <= |script0| && src.script == script0[k..]
      invariant !done ==> src.Valid(BUFFER_SIZE) && refused == None && ReadBefore(script0, k, loop.read) && total == |loop.read|
      invariant done ==> Copied(script0, k, refused, loop.read, total, err)
      invariant dst.refusals == old(dst.refusals) + if refused == None then [] else [refused.value]
      invariant At(loop, steps) && total == |loop.written|
      invariant loop.pc == if done then Ended(err) else Reading
      invariant src.delivered == read0 + loop.read && dst.accepted == accepted0 + loop.written
      invariant stats != null ==>
        stats.bytesIn == old(stats.bytesIn) + |loop.read| && stats.bytesOut == old(stats.bytesOut) + total
      decreases !done, |src.script|
    {
      ghost var before := loop;
      ReadOneMore(script0, k, loop.read);
      var wn;
      wn, done, err, refused, loop, steps := CopyOnce(dst, src, buf, stats, loop, steps);
      Extends(read0, before.read, loop.read);
      Extends(accepted0, before.written, loop.written);
      total, k := total + wn, k + 1;
    }
  }

  /** Copies `src` to `dst` until an error. The server passes its counters, the client none.

      `total` is exactly what `dst` accepted, and that is the front of what was read. `k` reads
      were made, and `Copied` tells when the call ends and what it returns. The counters grow
      by what was read and by what was accepted, so their difference is what was not forwarded.
      `steps` is the run of `Relay.Loop` that the call went through. */
  method CopyBuffer(dst: Sink, src: Source, buffers: BufferPool, stats: Stats?)
    returns (total: nat, err: Option<IoError>, ghost read: seq<byte>, ghost k: nat, ghost refused: Option<IoError>, ghost steps: seq<LoopEvent>)
    requires buffers.Valid() && buffers.pool.size == BUFFER_SIZE && src.Valid(BUFFER_SIZE)
    modifies dst, src, stats, buffers.pool, buffers.pool.all
    ensures buffers.Valid() && buffers.pool.AllBack(old(buffers.pool.free), old(buffers.pool.all))
    ensures src.delivered == old(src.delivered) + read
    ensures total <= |read| && dst.accepted == old(dst.accepted) + read[..total]
    ensures Copied(old(src.script), k, refused, read, total, err) && src.script == old(src.script)[k..]
    ensures dst.refusals == old(dst.refusals) + if refused == None then [] else [refused.value]
    ensures err == None ==> total == |read| && old(src.script)[k - 1].err == Some(EOF)
    ensures stats != null ==>
      stats.bytesIn == old(stats.bytesIn) + |read| && stats.bytesOut == old(stats.bytesOut) + total
    ensures LoopRuns(START, steps) && LoopRun(START, steps) == Loop(read, read[..total], Ended(err))
  {
    var buf := buffers.Get();
    ghost var loop;
    total, err, k, refused, loop, steps := CopyLoop(dst, src, buf, stats);
    read := loop.read;
    assert loop.written == read[..total];
    buffers.Put(buf);
  }

  lemma Extends(base: seq<byte>, x: seq<byte>, y: seq<byte>)
    requires x <= y
    ensures base + x + y[|x|..] == base + y
  {
  }

  ghost method Advance(loop: Loop, steps: seq<LoopEvent>, e: LoopEvent) returns (loop': Loop, steps': seq<LoopEvent>)
    requires LoopRuns(START, steps) && LoopRun(START, steps) == loop && LoopInv(loop) && Possible(loop, e)
    ensures LoopRuns(START, steps') && LoopRun(START, steps') == loop' && LoopInv(loop')
    ensures loop' == LoopStep(loop, e) && loop'.written <= loop'.read
  {
    loop', steps' := LoopStep(loop, e), steps + [e];
    LoopKeeps(loop, e);
    LoopRunSnoc(START, steps, e);
  }
}
