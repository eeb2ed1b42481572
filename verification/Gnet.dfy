/** The receive side of a gnet connection: an event loop that queues copies of what arrives,
    and one reader with a leftover buffer. */
module Gnet {
  import opened Bytes

  const QUEUE_SIZE: nat := 256

  // ---------------------------------------------------------------- the queue as a state machine

  /** `readCh`, `readBuf` and `closeCh`, with every chunk that arrived, whether it was kept,
      and the bytes that `Read` has returned so far. */
  datatype Queue = Queue(
    queued: seq<seq<byte>>, pending: seq<byte>, closed: bool,
    arrived: seq<Arrival>, delivered: seq<byte>)

  datatype Arrival = Arrival(data: seq<byte>, kept: bool)

  const EMPTY := Queue([], [], false, [], [])

  /** What became of arriving bytes, and where a `Read` found its own: the `select` statements
      choose freely between the cases that are ready. */
  datatype Fate = Nothing | Queued | Refused | Dropped
  datatype Origin = Leftover | NextChunk | End

  datatype Event =
    | Traffic(data: seq<byte>, fate: Fate)
    | Close
    | Read(size: nat, from: Origin)

  predicate Possible(q: Queue, e: Event) {
    match e
    case Traffic(data, fate) =>
      (match fate
       case Nothing => data == []
       case Queued => data != [] && |q.queued| < QUEUE_SIZE
       case Refused => data != [] && q.closed
       case Dropped => data != [] && |q.queued| >= QUEUE_SIZE && !q.closed)
    case Close => true
    case Read(_, from) =>
      if q.pending != [] then from == Leftover
      else (from == NextChunk && q.queued != []) || (from == End && q.closed)
  }

  /** What a `Read` with room for `size` bytes takes from `data`. */
  function Taken(data: seq<byte>, size: nat): nat {
    if |data| <= size then |data| else size
  }

  function Step(q: Queue, e: Event): Queue
    requires Possible(q, e)
  {
    match e
    case Traffic(data, fate) =>
      if fate == Nothing then q
      else q.(arrived := q.arrived + [Arrival(data, fate == Queued)],
              queued := if fate == Queued then q.queued + [data] else q.queued)
    case Close => q.(closed := true)
    case Read(size, from) =>
      match from
      case Leftover =>
        var n := Taken(q.pending, size);
        q.(pending := q.pending[n..], delivered := q.delivered + q.pending[..n])
      case NextChunk =>
        var n := Taken(q.queued[0], size);
        q.(queued := q.queued[1..], pending := q.queued[0][n..], delivered := q.delivered + q.queued[0][..n])
      case End => q
  }

  /** The chunks that were not lost on arrival, in order of arrival. */
  function Kept(arrived: seq<Arrival>): seq<seq<byte>> {
    if arrived == [] then []
    else
      var last := arrived[|arrived| - 1];
      var before := Kept(arrived[..|arrived| - 1]);
      if last.kept then before + [last.data] else before
  }

  function All(arrived: seq<Arrival>): seq<seq<byte>> {
    seq(|arrived|, i requires 0 <= i < |arrived| => arrived[i].data)
  }

  /** What is delivered, left over and queued is what was kept, in order, and the queue is
      bounded. */
  ghost predicate Inv(q: Queue) {
    && q.delivered + q.pending + Flatten(q.queued) == Flatten(Kept(q.arrived))
    && |q.queued| <= QUEUE_SIZE
    && (forall i | 0 <= i < |q.queued| :: q.queued[i] != [])
  }

  lemma KeptAppend(arrived: seq<Arrival>, c: seq<byte>, k: bool)
    ensures Kept(arrived + [Arrival(c, k)]) == if k then Kept(arrived) + [c] else Kept(arrived)
  {
    assert (arrived + [Arrival(c, k)])[..|arrived|] == arrived;
  }

  lemma StepKeeps(q: Queue, e: Event)
    requires Inv(q) && Possible(q, e)
    ensures Inv(Step(q, e))
  {
    match e
    case Traffic(data, fate) =>
      if fate != Nothing {
        KeptAppend(q.arrived, data, fate == Queued);
        if fate == Queued {
          BothGrow(q.delivered + q.pending, q.queued, Kept(q.arrived), data);
        }
      }
    case Close =>
    case Read(size, from) =>
      if from == Leftover {
        MoveToFront(q.delivered, q.pending, Taken(q.pending, size), Flatten(q.queued));
      } else if from == NextChunk {
        MoveToFront(q.delivered, q.queued[0], Taken(q.queued[0], size), Flatten(q.queued[1..]));
      }
  }

  lemma BothGrow(front: seq<byte>, queued: seq<seq<byte>>, kept: seq<seq<byte>>, data: seq<byte>)
    requires front + Flatten(queued) == Flatten(kept)
    ensures front + Flatten(queued + [data]) == Flatten(kept + [data])
  {
    FlattenAppend(queued, [data]);
    FlattenAppend(kept, [data]);
    FlattenOne(data);
    Associate(front, Flatten(queued), data);
  }

  lemma MoveToFront(done: seq<byte>, data: seq<byte>, n: nat, rest: seq<byte>)
    requires n <= |data|
    ensures (done + data[..n]) + data[n..] + rest == done + (data + rest)
  {
    assert data == data[..n] + data[n..];
  }

  /** A `Read` in numbers: it takes as much of the leftover, or else of the oldest chunk, as fits,
      and the rest is the new leftover; only on a closed connection can it take nothing instead. */
  lemma TakesWhatFits(q: Queue, size: nat, from: Origin)
    requires Possible(q, Read(size, from))
    ensures from != End ==>
      && (q.pending == [] ==> q.queued != [])
      && var data := if q.pending != [] then q.pending else q.queued[0];
         var n := if size <= |data| then size else |data|;
         && Step(q, Read(size, from)).delivered == q.delivered + data[..n]
         && Step(q, Read(size, from)).pending == data[n..]
         && Step(q, Read(size, from)).queued == if q.pending != [] then q.queued else q.queued[1..]
    ensures from == End ==> q.closed && q.pending == [] && Step(q, Read(size, from)) == q
  {
  }

  /** On an open connection there is one thing that a `Read` can do. */
  lemma OpenReadIsForced(q: Queue, size: nat)
    requires !q.closed && (q.pending != [] || q.queued != [])
    ensures forall from :: Possible(q, Read(size, from)) <==> from == if q.pending != [] then Leftover else NextChunk
  {
  }

  /** What can become of a chunk: on an open connection it is queued if there is room among the
      256, and dropped if not; on a closed one it may be refused instead. */
  lemma FateOf(q: Queue, data: seq<byte>, fate: Fate)
    requires data != []
    ensures Possible(q, Traffic(data, fate)) <==>
      || (fate == Queued && |q.queued| < 256)
      || (fate == Refused && q.closed)
      || (fate == Dropped && |q.queued| >= 256 && !q.closed)
    ensures Possible(q, Traffic(data, fate)) ==>
      Step(q, Traffic(data, fate)).queued == if fate == Queued then q.queued + [data] else q.queued
  {
  }

  // ---------------------------------------------------------------- runs

  ghost predicate Runs(es: seq<Event>)
    decreases |es|, 0
  {
    es == [] || (Runs(es[..|es| - 1]) && Possible(Run(es[..|es| - 1]), es[|es| - 1]))
  }

  ghost function Run(es: seq<Event>): Queue
    requires Runs(es)
    decreases |es|, 1
  {
    if es == [] then EMPTY else Step(Run(es[..|es| - 1]), es[|es| - 1])
  }

  /** In every reachable state, the delivered bytes, the leftover and the queue are exactly an
      order-preserving selection of the chunks that arrived. */
  lemma {:induction false} RunKeeps(es: seq<Event>)
    requires Runs(es)
    ensures Inv(Run(es))
  {
    if es != [] {
      RunKeeps(es[..|es| - 1]);
      StepKeeps(Run(es[..|es| - 1]), es[|es| - 1]);
    }
  }

  /** Chunks that have arrived and that no `Read` has taken from the queue. */
  ghost function Unread(es: seq<Event>): int {
    if es == [] then 0
    else
      var e := es[|es| - 1];
      Unread(es[..|es| - 1])
      + (if e.Traffic? && e.data != [] then 1 else if e.Read? && e.from == NextChunk then -1 else 0)
  }

  ghost predicate NothingLost(q: Queue) {
    forall a | a in q.arrived :: a.kept
  }

  /** The reader kept up: whenever a chunk came, fewer than 256 were waiting. */
  ghost predicate KeptUp(es: seq<Event>) {
    forall k | 0 <= k < |es| && es[k].Traffic? && es[k].data != [] :: Unread(es[..k]) < QUEUE_SIZE
  }

  lemma {:induction false} StaysOpen(es: seq<Event>)
    requires Runs(es) && Close !in es
    ensures !Run(es).closed
  {
    if es != [] {
      assert es[|es| - 1] in es;
      StaysOpen(es[..|es| - 1]);
    }
  }

  lemma {:induction false} KeptAll(arrived: seq<Arrival>)
    requires forall a | a in arrived :: a.kept
    ensures Kept(arrived) == All(arrived)
  {
    if arrived != [] {
      var n := |arrived| - 1;
      KeptAll(arrived[..n]);
      assert All(arrived) == All(arrived[..n]) + [arrived[n].data];
    }
  }

  /** While the connection is open, nothing is lost if and only if the reader keeps up. */
  lemma {:induction false} LosslessIff(es: seq<Event>)
    requires Runs(es) && Close !in es
    ensures NothingLost(Run(es)) <==> KeptUp(es)
    ensures NothingLost(Run(es)) ==> |Run(es).queued| == Unread(es)
  {
    if es != [] {
      var before, e := es[..|es| - 1], es[|es| - 1];
      LosslessIff(before);
      StaysOpen(before);
      RunKeeps(before);
      LossOnStep(Run(before), e);
      KeptUpAfter(before, e);
      assert es == before + [e];
    }
  }

  lemma LossOnStep(q: Queue, e: Event)
    requires Possible(q, e)
    ensures NothingLost(Step(q, e)) <==> NothingLost(q) && !(e.Traffic? && (e.fate == Dropped || e.fate == Refused))
  {
    if e.Traffic? && e.fate != Nothing {
      assert Step(q, e).arrived == q.arrived + [Arrival(e.data, e.fate == Queued)];
      assert Arrival(e.data, e.fate == Queued) in Step(q, e).arrived;
    } else {
      assert Step(q, e).arrived == q.arrived;
    }
  }

  lemma KeptUpAfter(es: seq<Event>, e: Event)
    ensures KeptUp(es + [e]) <==> KeptUp(es) && (e.Traffic? && e.data != [] ==> Unread(es) < QUEUE_SIZE)
  {
    var es' := es + [e];
    assert es'[..|es|] == es && es'[|es|] == e;
    assert forall k | 0 <= k < |es| :: es'[k] == es[k] && es'[..k] == es[..k];
  }

  /** The chunks that came in a run. */
  ghost function Arrivals(es: seq<Event>): seq<seq<byte>> {
    if es == [] then []
    else
      var e := es[|es| - 1];
      if e.Traffic? && e.data != [] then Arrivals(es[..|es| - 1]) + [e.data] else Arrivals(es[..|es| - 1])
  }

  lemma {:induction false} ArrivedAre(es: seq<Event>)
    requires Runs(es)
    ensures All(Run(es).arrived) == Arrivals(es)
  {
    if es != [] {
      ArrivedAre(es[..|es| - 1]);
    }
  }

  /** Bytes that were kept and are not delivered. */
  ghost function Waiting(q: Queue): nat {
    |q.pending| + |Flatten(q.queued)|
  }

  /** The reader drains the queue: from every reachable state of an open connection, reads with
      buffers of any sizes but zero deliver everything that was kept. */
  lemma {:induction false} ReadsDrain(es: seq<Event>, sizes: seq<nat>) returns (rs: seq<Event>)
    requires Runs(es) && !Run(es).closed
    requires (forall i | 0 <= i < |sizes| :: sizes[i] > 0) && |sizes| >= Waiting(Run(es))
    ensures Runs(es + rs) && |rs| <= |sizes| && forall i | 0 <= i < |rs| :: rs[i].Read? && rs[i].size == sizes[i]
    ensures Run(es + rs).delivered == Flatten(Kept(Run(es).arrived))
    decreases Waiting(Run(es))
  {
    if Waiting(Run(es)) == 0 {
      rs := [];
      AllDelivered(es);
      assert es + [] == es;
    } else {
      var e := ReadOne(es, sizes[0]);
      var more := ReadsDrain(es + [e], sizes[1..]);
      Associate(es, [e], more);
      rs := [e] + more;
    }
  }

  lemma AllDelivered(es: seq<Event>)
    requires Runs(es) && Waiting(Run(es)) == 0
    ensures Run(es).delivered == Flatten(Kept(Run(es).arrived))
  {
    var q := Run(es);
    RunKeeps(es);
    assert q.delivered + q.pending + Flatten(q.queued) == q.delivered;
  }

  lemma ReadOne(es: seq<Event>, size: nat) returns (e: Event)
    requires Runs(es) && !Run(es).closed && size > 0 && Waiting(Run(es)) > 0
    ensures e.Read? && e.size == size && Runs(es + [e]) && !Run(es + [e]).closed
    ensures Waiting(Run(es + [e])) < Waiting(Run(es)) && Run(es + [e]).arrived == Run(es).arrived
  {
    var q := Run(es);
    e := Read(size, if q.pending != [] then Leftover else NextChunk);
    RunKeeps(es);
    NothingWaits(q);
    ReadTakesSome(q, e);
    ExtendRun(es, e);
  }

  lemma NothingWaits(q: Queue)
    requires Inv(q)
    ensures Waiting(q) == 0 <==> q.pending == [] && q.queued == []
  {
    if q.queued != [] {
      assert |Flatten(q.queued)| >= |q.queued[0]| > 0;
    }
  }

  lemma ReadTakesSome(q: Queue, e: Event)
    requires Inv(q) && Possible(q, e) && e.Read? && e.size > 0 && e.from != End
    ensures Waiting(Step(q, e)) < Waiting(q) && Step(q, e).arrived == q.arrived && Step(q, e).closed == q.closed
  {
  }

  /** With nothing lost, what was delivered is a prefix of what arrived, and what is missing is
      still there to be read. */
  lemma LosslessPrefix(es: seq<Event>)
    requires Runs(es) && Close !in es && KeptUp(es)
    ensures Run(es).delivered + Run(es).pending + Flatten(Run(es).queued) == Flatten(All(Run(es).arrived))
    ensures Run(es).delivered <= Flatten(All(Run(es).arrived)) == Flatten(Arrivals(es))
  {
    var q := Run(es);
    RunKeeps(es);
    LosslessIff(es);
    KeptAll(q.arrived);
    ArrivedAre(es);
    Associate(q.delivered, q.pending, Flatten(q.queued));
  }

  /** A chunk is lost only when it arrives at a full queue or at a closed connection. */
  lemma LostOnlyIf(es: seq<Event>, e: Event)
    requires Runs(es + [e]) && e.Traffic? && e.data != []
    ensures Runs(es)
    ensures Arrival(e.data, false) == Run(es + [e]).arrived[|Run(es + [e]).arrived| - 1]
            ==> |Run(es).queued| == QUEUE_SIZE || Close in es
  {
    assert (es + [e])[..|es|] == es;
    RunKeeps(es);
    if Close !in es {
      StaysOpen(es);
    }
  }

  /** An end of stream is reported only after a close with nothing left over, and it is then
      the end of what was kept exactly if the queue is empty: `Read` may report it earlier. */
  lemma EndIsEndIff(es: seq<Event>, size: nat)
    requires Runs(es) && Possible(Run(es), Read(size, End))
    ensures Close in es && Run(es).pending == []
    ensures Run(es).delivered == Flatten(Kept(Run(es).arrived)) <==> Run(es).queued == []
  {
    var q := Run(es);
    RunKeeps(es);
    if Close !in es {
      StaysOpen(es);
    }
    assert q.delivered + q.pending == q.delivered;
    if q.queued != [] {
      assert |Flatten(q.queued)| >= |q.queued[0]| > 0;
    }
  }

  /** One way there: a chunk arrives, the connection is closed, and `Read` reports the end. */
  lemma EndBeforeData(c: seq<byte>, size: nat)
    requires c != []
    ensures var es := [Traffic(c, Queued), Close];
            && Runs(es) && Possible(Run(es), Read(size, End))
            && Run(es).queued == [c] && Run(es).delivered == []
  {
    var t := Traffic(c, Queued);
    assert [t][..0] == [] && [t, Close][..1] == [t];
    assert Runs([]) && Run([]) == EMPTY;
    assert Runs([t]) && Run([t]) == Step(EMPTY, t);
  }

  // ---------------------------------------------------------------- the connection object

  class GnetConn {
    var readCh: seq<array<byte>>
    var readBuf: array<byte>
    var readFrom: nat
    var closed: bool

    /** The calls so far, the state they lead to, and every array the connection holds. */
    ghost var calls: seq<Event>
    ghost var state: Queue
    ghost var held: set<array<byte>>

    ghost predicate Represents()
      reads this, held
    {
      && readBuf in held && readFrom <= readBuf.Length
      && (forall i | 0 <= i < |readCh| :: readCh[i] in held)
      && state.pending == readBuf[readFrom..]
      && |state.queued| == |readCh|
      && (forall i | 0 <= i < |readCh| :: readCh[i][..] == state.queued[i])
      && state.closed == closed
    }

    ghost predicate Valid()
      reads this, held
    {
      Represents() && Runs(calls) && state == Run(calls)
    }

    constructor ()
      ensures Valid() && calls == [] && fresh(held)
    {
      readCh, readFrom, closed, calls, state := [], 0, false, [], EMPTY;
      readBuf := new byte[0];
      new;
      held := {readBuf};
    }

    /** `buf` is the event loop's own buffer, with all the available data; what is queued is a
        copy. `close` is the action that is returned to the event loop. */
    method OnTraffic(buf: array<byte>) returns (close: bool, ghost e: Event)
      requires Valid()
      modifies this
      ensures Valid() && fresh(held - old(held)) && old(held) <= held
      ensures e.Traffic? && e.data == buf[..] && (close <==> e.fate == Refused)
      ensures calls == old(calls) + [e]
      ensures buf.Length == 0 ==> e.fate == Nothing
      ensures buf.Length > 0 && !old(closed) ==> e.fate == if |old(readCh)| < 256 then Queued else Dropped
      ensures state.queued == if e.fate == Queued then old(state).queued + [buf[..]] else old(state).queued
      ensures state.pending == old(state).pending
    {
      var preferClose := *;
      close := false;
      if buf.Length > 0 && |readCh| < QUEUE_SIZE && !(closed && preferClose) {
        e := Traffic(buf[..], Queued);
        ExtendRun(calls, e);
        Enqueue(buf);
      } else {
        close := buf.Length > 0 && closed;
        e := Traffic(buf[..], if buf.Length == 0 then Nothing else if closed then Refused else Dropped);
        ExtendRun(calls, e);
        NotQueued(e);
      }
      calls := calls + [e];
    }

    /** The connection keeps nothing of what came. */
    ghost method NotQueued(e: Event)
      requires Represents() && e.Traffic? && e.fate != Queued && Possible(state, e)
      modifies this`state
      ensures Represents() && state == Step(old(state), e)
      ensures state.queued == old(state).queued && state.pending == old(state).pending
    {
      state := Step(state, e);
    }

    method Enqueue(buf: array<byte>)
      requires Represents() && buf.Length > 0 && |readCh| < QUEUE_SIZE
      modifies this`readCh, this`held, this`state
      ensures Represents() && fresh(held - old(held)) && old(held) <= held
      ensures state == Step(old(state), Traffic(buf[..], Queued))
      ensures state.queued == old(state).queued + [buf[..]] && state.pending == old(state).pending
    {
      var data := new byte[buf.Length];
      forall i | 0 <= i < buf.Length {
        data[i] := buf[i];
      }
      assert data[..] == buf[..];
      readCh, held := readCh + [data], held + {data};
      state := Step(state, Traffic(buf[..], Queued));
    }

    /** `OnClose`, and the part of `Close` that concerns the reader. */
    method OnClose()
      requires Valid()
      modifies this
      ensures Valid() && held == old(held) && calls == old(calls) + [Close]
    {
      if !closed {
        closed := true;
      }
      ExtendRun(calls, Close);
      calls, state := calls + [Close], Step(state, Close);
    }

    /** A call that finds nothing waits until there is data or the connection is closed. */
    method Read(b: array<byte>) returns (n: nat, err: Option<IoError>, ghost e: Event)
      requires Valid() && b !in held
      requires readFrom < readBuf.Length || readCh != [] || closed
      modifies this, b
      ensures Valid() && held == old(held)
      ensures e.Read? && e.size == b.Length && calls == old(calls) + [e]
      ensures err == if e.from == End then Some(EOF) else None
      ensures n <= b.Length && state.delivered == old(state).delivered + b[..n]
      ensures b[n..] == old(b[n..])
      ensures err == None ==>
        && (old(state).pending == [] ==> old(state).queued != [])
        && var data := if old(state).pending != [] then old(state).pending else old(state).queued[0];
           && n == (if b.Length <= |data| then b.Length else |data|)
           && b[..n] == data[..n] && state.pending == data[n..]
           && state.queued == if old(state).pending != [] then old(state).queued else old(state).queued[1..]
      ensures err != None ==> n == 0 && old(closed) && old(state).pending == [] && state == old(state)
    {
      var preferClose := *;
      err := None;
      if readFrom < readBuf.Length {
        e := Event.Read(b.Length, Leftover);
        ExtendRun(calls, e);
        n := TakeLeftover(b);
      } else if readCh != [] && !(closed && preferClose) {
        e := Event.Read(b.Length, NextChunk);
        ExtendRun(calls, e);
        n := TakeChunk(b);
      } else {
        n, err, e := 0, Some(EOF), Event.Read(b.Length, End);
        ExtendRun(calls, e);
      }
      TakesWhatFits(old(state), b.Length, e.from);
      calls := calls + [e];
    }

    method TakeLeftover(b: array<byte>) returns (n: nat)
      requires Represents() && b !in held && readFrom < readBuf.Length
      modifies this`readFrom, this`state, b
      ensures Represents() && state == Step(old(state), Event.Read(b.Length, Leftover))
      ensures n == if b.Length <= old(readBuf.Length - readFrom) then b.Length else old(readBuf.Length - readFrom)
      ensures b[..n] == old(state).pending[..n]
      ensures n <= b.Length && state.delivered == old(state).delivered + b[..n] && b[n..] == old(b[n..])
    {
      n := CopyInto(b, readBuf, readFrom);
      state := Step(state, Event.Read(b.Length, Leftover));
      readFrom := readFrom + n;
    }

    method TakeChunk(b: array<byte>) returns (n: nat)
      requires Represents() && b !in held && readFrom == readBuf.Length && readCh != []
      modifies this`readCh, this`readBuf, this`readFrom, this`state, b
      ensures Represents() && state == Step(old(state), Event.Read(b.Length, NextChunk))
      ensures n == if b.Length <= old(readCh[0].Length) then b.Length else old(readCh[0].Length)
      ensures b[..n] == old(state).queued[0][..n]
      ensures n <= b.Length && state.delivered == old(state).delivered + b[..n] && b[n..] == old(b[n..])
    {
      var data := readCh[0];
      readCh := readCh[1..];
      n := CopyInto(b, data, 0);
      assert data[0..] == data[..] == state.queued[0];
      state := Step(state, Event.Read(b.Length, NextChunk));
      if n < data.Length {
        readBuf, readFrom := data, n;
      }
    }
  }

  lemma ExtendRun(es: seq<Event>, e: Event)
    requires Runs(es) && Possible(Run(es), e)
    ensures Runs(es + [e]) && Run(es + [e]) == Step(Run(es), e)
  {
    assert (es + [e])[..|es|] == es;
  }

  /** `copy(b, src[from:])`. */
  method CopyInto(b: array<byte>, src: array<byte>, from: nat) returns (n: nat)
    requires from <= src.Length && b != src
    modifies b
    ensures n == if b.Length <= src.Length - from then b.Length else src.Length - from
    ensures b[..n] == src[from..][..n] && b[n..] == old(b[n..])
  {
    n := if src.Length - from <= b.Length then src.Length - from else b.Length;
    forall i | 0 <= i < n {
      b[i] := src[from + i];
    }
  }
}
