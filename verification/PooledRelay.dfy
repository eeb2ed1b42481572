/** Any number of copy loops, started and finished at any time, over one shared pool of
    buffers. The bytes a loop writes are those in its buffer at that moment; the system
    refines one in which every loop has private storage. */
module PooledRelay {
  import opened Bytes
  import opened Relay

  type BufId = nat
  type LoopId = nat

  /** Like `Relay.Pc`, but the bytes between a read and the write are in the buffer, and only
      their number is in the loop. */
  datatype PooledPc =
    | PReading
    | PWriting(n: nat, srcErr: Option<IoError>)
    | PEnded(result: Option<IoError>)

  datatype PooledLoop = PooledLoop(buf: BufId, read: seq<byte>, written: seq<byte>, pc: PooledPc)

  /** `free` are the buffers in the `sync.Pool`, with their multiplicity. */
  datatype System = System(
    contents: map<BufId, seq<byte>>,
    free: multiset<BufId>,
    loops: map<LoopId, PooledLoop>)

  const NOTHING := System(map[], multiset{}, map[])

  datatype Event =
    | Alloc(id: LoopId, buf: BufId)      // `Get` finds the pool empty and makes a buffer
    | Reuse(id: LoopId, buf: BufId)      // `Get` returns a pooled buffer
    | Evict(buf: BufId)                  // the runtime drops a pooled buffer
    | Step(id: LoopId, event: LoopEvent) // the loop reads or writes
    | Finish(id: LoopId)                 // the deferred `Put`, then the loop is gone

  predicate PooledPossible(l: PooledLoop, e: LoopEvent) {
    match e
    case Read(data, _) => l.pc.PReading? && |data| <= BUFFER_SIZE
    case Write(wn, _) => l.pc.PWriting? && wn <= l.pc.n
    case Close => false
  }

  predicate CanStep(s: System, e: Event) {
    match e
    case Alloc(id, buf) => id !in s.loops && buf !in s.contents
    case Reuse(id, buf) => id !in s.loops && buf in s.free
    case Evict(buf) => buf in s.free
    case Step(id, ev) => id in s.loops && PooledPossible(s.loops[id], ev)
    case Finish(id) => id in s.loops && s.loops[id].pc.PEnded?
  }

  /** Reading overwrites the front of the loop's buffer, whoever else may hold it. */
  function Overwrite(stale: seq<byte>, data: seq<byte>): seq<byte> {
    data + if |data| <= |stale| then stale[|data|..] else []
  }

  function LoopAfter(l: PooledLoop, content: seq<byte>, e: LoopEvent): PooledLoop
    requires PooledPossible(l, e) && (l.pc.PWriting? ==> l.pc.n <= |content|)
  {
    match e
    case Read(data, err) =>
      if data != [] then l.(read := l.read + data, pc := PWriting(|data|, err))
      else if err.Some? then l.(pc := PEnded(SourceResult(err.value)))
      else l
    case Write(wn, werr) =>
      l.(written := l.written + content[..wn],
         pc := if werr.Some? then PEnded(werr)
               else if wn != l.pc.n then PEnded(Some(ShortWrite))
               else if l.pc.srcErr.Some? then PEnded(SourceResult(l.pc.srcErr.value))
               else PReading)
  }

  function Next(s: System, e: Event): System
    requires Inv(s) && CanStep(s, e)
  {
    match e
    case Alloc(id, buf) =>
      s.(contents := s.contents[buf := seq(BUFFER_SIZE, _ => 0)],
         loops := s.loops[id := PooledLoop(buf, [], [], PReading)])
    case Reuse(id, buf) =>
      s.(free := s.free - multiset{buf}, loops := s.loops[id := PooledLoop(buf, [], [], PReading)])
    case Evict(buf) => s.(free := s.free - multiset{buf})
    case Step(id, ev) =>
      var l := s.loops[id];
      var content := s.contents[l.buf];
      s.(contents := if ev.Read? then s.contents[l.buf := Overwrite(content, ev.data)] else s.contents,
         loops := s.loops[id := LoopAfter(l, content, ev)])
    case Finish(id) =>
      // `Put` takes back only buffers of the pool's length.
      var buf := s.loops[id].buf;
      s.(free := if |s.contents[buf]| == BUFFER_SIZE then s.free + multiset{buf} else s.free,
         loops := s.loops - {id})
  }

  /** Every buffer is in the pool at most once, or held by exactly one loop, and always has
      the pool's length. */
  predicate Inv(s: System) {
    && (forall b | b in s.free :: s.free[b] == 1 && b in s.contents)
    && (forall b | b in s.contents :: |s.contents[b]| == BUFFER_SIZE)
    && (forall i | i in s.loops :: s.loops[i].buf in s.contents && s.loops[i].buf !in s.free)
    && (forall i, k | i in s.loops && k in s.loops && i != k :: s.loops[i].buf != s.loops[k].buf)
    && (forall i | i in s.loops :: s.loops[i].pc.PWriting? ==> s.loops[i].pc.n <= BUFFER_SIZE)
  }

  /** A pooled loop as a loop with private storage. */
  function Private(s: System, i: LoopId): Loop
    requires Inv(s) && i in s.loops
  {
    var l := s.loops[i];
    Loop(l.read, l.written,
         match l.pc
         case PReading => Reading
         case PWriting(n, srcErr) => Writing(s.contents[l.buf][..n], srcErr)
         case PEnded(result) => Ended(result))
  }

  /** One step of any loop is exactly that step of its private counterpart, and leaves every
      other loop, with the bytes it has still to write, as it was. */
  lemma StepRefines(s: System, e: Event)
    requires Inv(s) && CanStep(s, e)
    ensures Inv(Next(s, e))
    ensures forall i | i in s.loops && i in Next(s, e).loops ::
      Private(Next(s, e), i)
      == if e.Step? && i == e.id then LoopStep(Private(s, i), e.event) else Private(s, i)
    ensures e.Step? ==> Possible(Private(s, e.id), e.event)
    ensures forall i | i in Next(s, e).loops && i !in s.loops :: Private(Next(s, e), i) == START
  {
    InvKept(s, e);
    if e.Step? {
      StepIsPrivate(s, e.id, e.event);
    } else {
      PoolIsInvisible(s, e);
    }
  }

  /** `Get` and `Put` and the runtime change nothing that a loop can see. */
  lemma PoolIsInvisible(s: System, e: Event)
    requires Inv(s) && CanStep(s, e) && Inv(Next(s, e)) && !e.Step?
    ensures forall i | i in s.loops && i in Next(s, e).loops :: Private(Next(s, e), i) == Private(s, i)
    ensures forall i | i in Next(s, e).loops && i !in s.loops :: Private(Next(s, e), i) == START
  {
    Unchanged(s, Next(s, e));
  }

  lemma Unchanged(s: System, t: System)
    requires Inv(s) && Inv(t)
    requires forall b | b in s.contents :: b in t.contents && t.contents[b] == s.contents[b]
    requires forall i | i in s.loops && i in t.loops :: t.loops[i] == s.loops[i]
    requires forall i | i in t.loops && i !in s.loops ::
      t.loops[i].pc == PReading && t.loops[i].read == t.loops[i].written == []
    ensures forall i | i in s.loops && i in t.loops :: Private(t, i) == Private(s, i)
    ensures forall i | i in t.loops && i !in s.loops :: Private(t, i) == START
  {
  }

  /** `Get` hands a loop a buffer of 512 KiB that is then not in the pool, and the deferred `Put`
      gives it back. */
  lemma GetAndPut(s: System, e: Event)
    requires Inv(s) && CanStep(s, e)
    ensures e.Alloc? || e.Reuse? ==>
      var t := Next(s, e);
      e.id in t.loops && t.loops[e.id].buf == e.buf && e.buf !in t.free && |t.contents[e.buf]| == 524288
    ensures e.Finish? ==> e.id !in Next(s, e).loops && Next(s, e).free == s.free + multiset{s.loops[e.id].buf}
  {
  }

  lemma InvKept(s: System, e: Event)
    requires Inv(s) && CanStep(s, e)
    ensures Inv(Next(s, e))
  {
    match e
    case Alloc(id, buf) => AllocKept(s, id, buf);
    case Reuse(id, buf) => ReuseKept(s, id, buf);
    case Evict(buf) => EvictKept(s, buf);
    case Step(id, ev) => StepKept(s, id, ev);
    case Finish(id) => FinishKept(s, id);
  }

  lemma AllocKept(s: System, id: LoopId, buf: BufId)
    requires Inv(s) && CanStep(s, Alloc(id, buf))
    ensures Inv(Next(s, Alloc(id, buf)))
  {
    var t := Next(s, Alloc(id, buf));
    assert t.free == s.free && buf !in t.free;
    assert forall i | i in t.loops && i != id :: i in s.loops && t.loops[i] == s.loops[i] && t.loops[i].buf != buf;
  }

  lemma EvictKept(s: System, buf: BufId)
    requires Inv(s) && CanStep(s, Evict(buf))
    ensures Inv(Next(s, Evict(buf)))
  {
    var t := Next(s, Evict(buf));
    assert forall b | b in t.free :: b in s.free && t.free[b] == s.free[b];
  }

  lemma ReuseKept(s: System, id: LoopId, buf: BufId)
    requires Inv(s) && CanStep(s, Reuse(id, buf))
    ensures Inv(Next(s, Reuse(id, buf)))
  {
    var t := Next(s, Reuse(id, buf));
    assert buf !in t.free;
    assert forall b | b in t.free :: b in s.free && t.free[b] == s.free[b];
  }

  lemma FinishKept(s: System, id: LoopId)
    requires Inv(s) && CanStep(s, Finish(id))
    ensures Inv(Next(s, Finish(id)))
  {
    var t := Next(s, Finish(id));
    var buf := s.loops[id].buf;
    assert t.free[buf] == 1;
    assert forall b | b in t.free && b != buf :: b in s.free && t.free[b] == s.free[b];
    assert forall i | i in t.loops :: i in s.loops && i != id && t.loops[i] == s.loops[i];
  }

  lemma StepKept(s: System, id: LoopId, ev: LoopEvent)
    requires Inv(s) && CanStep(s, Step(id, ev))
    ensures Inv(Next(s, Step(id, ev)))
  {
    var t := Next(s, Step(id, ev));
    assert t.free == s.free && t.contents.Keys == s.contents.Keys && t.loops.Keys == s.loops.Keys;
    assert forall i | i in t.loops :: t.loops[i].buf == s.loops[i].buf;
  }

  lemma StepIsPrivate(s: System, id: LoopId, ev: LoopEvent)
    requires Inv(s) && CanStep(s, Step(id, ev)) && Inv(Next(s, Step(id, ev)))
    ensures Possible(Private(s, id), ev)
    ensures Private(Next(s, Step(id, ev)), id) == LoopStep(Private(s, id), ev)
    ensures forall i | i in s.loops && i != id :: Private(Next(s, Step(id, ev)), i) == Private(s, i)
  {
    var content := s.contents[s.loops[id].buf];
    if ev.Read? {
      assert Overwrite(content, ev.data)[..|ev.data|] == ev.data;
    } else {
      assert content[..s.loops[id].pc.n][..ev.wn] == content[..ev.wn];
    }
  }

  ghost predicate Runs(s: System, es: seq<Event>)
    requires Inv(s)
    decreases |es|
  {
    es == [] || (CanStep(s, es[0]) && Inv(Next(s, es[0])) && Runs(Next(s, es[0]), es[1..]))
  }

  function Run(s: System, es: seq<Event>): System
    requires Inv(s) && Runs(s, es)
    decreases |es|
  {
    if es == [] then s else Run(Next(s, es[0]), es[1..])
  }

  ghost predicate Safe(s: System) {
    Inv(s) && forall i | i in s.loops :: LoopInv(Private(s, i)) && s.loops[i].written <= s.loops[i].read
  }

  lemma {:induction false} RunIsSafe(s: System, es: seq<Event>)
    requires Safe(s) && Runs(s, es)
    ensures Safe(Run(s, es))
    decreases |es|
  {
    if es != [] {
      StepIsSafe(s, es[0]);
      RunIsSafe(Next(s, es[0]), es[1..]);
    }
  }

  /** With any number of loops interleaved in any way, no buffer is ever shared, and each loop
      forwards exactly the bytes it read itself, in order. */
  lemma NoInterference(es: seq<Event>)
    requires Runs(NOTHING, es)
    ensures Safe(Run(NOTHING, es))
  {
    RunIsSafe(NOTHING, es);
  }

  lemma StepIsSafe(s: System, e: Event)
    requires Safe(s) && CanStep(s, e)
    ensures Safe(Next(s, e))
  {
    StepRefines(s, e);
    if e.Step? {
      LoopKeeps(Private(s, e.id), e.event);
    }
  }

  /** Every event that can happen keeps the invariant, so `Runs` excludes nothing. */
  lemma RunsIffPossible(s: System, e: Event, es: seq<Event>)
    requires Inv(s)
    ensures Runs(s, [e] + es) <==> CanStep(s, e) && Inv(Next(s, e)) && Runs(Next(s, e), es)
    ensures CanStep(s, e) ==> Inv(Next(s, e))
  {
    assert ([e] + es)[1..] == es;
    if CanStep(s, e) {
      StepRefines(s, e);
    }
  }
}
