/** The relay: `copyBuffer`, the two copy loops of `Join`, and the chain of two relays
    between a user and a local service. */
module Relay {
  import opened Bytes

  const BUFFER_SIZE: nat := 512 * 1024

  // ---------------------------------------------------------------- one copy loop

  /** Where a goroutine running `copyBuffer` is. `Ended` holds what `copyBuffer` returned;
      `Closed` is reached by the deferred `Close` of the destination. */
  datatype Pc =
    | Reading
    | Writing(chunk: seq<byte>, srcErr: Option<IoError>)
    | Ended(result: Option<IoError>)
    | Closed(result: Option<IoError>)

  /** `read` and `written` are all the bytes taken from the source and accepted by the
      destination so far. */
  datatype Loop = Loop(read: seq<byte>, written: seq<byte>, pc: Pc)

  const START := Loop([], [], Reading)

  datatype LoopEvent =
    | Read(data: seq<byte>, err: Option<IoError>)
    | Write(wn: nat, werr: Option<IoError>)
    | Close

  predicate Possible(l: Loop, e: LoopEvent) {
    match e
    case Read(data, _) => l.pc.Reading? && |data| <= BUFFER_SIZE
    case Write(wn, _) => l.pc.Writing? && wn <= |l.pc.chunk|
    case Close => l.pc.Ended?
  }

  /** What `copyBuffer` returns when the source reports an error and nothing is left to write. */
  function SourceResult(err: IoError): Option<IoError> {
    if err == EOF then None else Some(err)
  }

  function LoopStep(l: Loop, e: LoopEvent): Loop
    requires Possible(l, e)
  {
    match e
    case Read(data, err) =>
      if data != [] then l.(read := l.read + data, pc := Writing(data, err))
      else if err.Some? then l.(pc := Ended(SourceResult(err.value)))
      else l
    case Write(wn, werr) =>
      l.(written := l.written + l.pc.chunk[..wn],
         pc := if werr.Some? then Ended(werr)
               else if wn != |l.pc.chunk| then Ended(Some(ShortWrite))
               else if l.pc.srcErr.Some? then Ended(SourceResult(l.pc.srcErr.value))
               else Reading)
    case Close => l.(pc := Closed(l.pc.result))
  }

  /** Bytes are forwarded in order and without gaps; a loop that returned nil has forwarded
      everything it read. */
  predicate LoopInv(l: Loop) {
    match l.pc
    case Reading => l.written == l.read
    case Writing(chunk, _) => chunk != [] && l.read == l.written + chunk
    case Ended(result) => l.written <= l.read && (result == None ==> l.written == l.read)
    case Closed(result) => l.written <= l.read && (result == None ==> l.written == l.read)
  }

  lemma LoopKeeps(l: Loop, e: LoopEvent)
    requires LoopInv(l) && Possible(l, e)
    ensures LoopInv(LoopStep(l, e))
    ensures LoopStep(l, e).written <= LoopStep(l, e).read
  {
    if e.Write? {
      var c := l.pc.chunk;
      assert c == c[..e.wn] + c[e.wn..];
      Associate(l.written, c[..e.wn], c[e.wn..]);
    }
  }

  predicate Finished(l: Loop) {
    l.pc.Ended? || l.pc.Closed?
  }

  ghost predicate LoopRuns(l: Loop, es: seq<LoopEvent>)
    decreases |es|
  {
    es == [] || (Possible(l, es[0]) && LoopRuns(LoopStep(l, es[0]), es[1..]))
  }

  function LoopRun(l: Loop, es: seq<LoopEvent>): Loop
    requires LoopRuns(l, es)
    decreases |es|
  {
    if es == [] then l else LoopRun(LoopStep(l, es[0]), es[1..])
  }

  lemma {:induction false} LoopRunSnoc(l: Loop, es: seq<LoopEvent>, e: LoopEvent)
    requires LoopRuns(l, es) && Possible(LoopRun(l, es), e)
    ensures LoopRuns(l, es + [e]) && LoopRun(l, es + [e]) == LoopStep(LoopRun(l, es), e)
    decreases |es|
  {
    if es == [] {
      assert ([] + [e])[1..] == [];
    } else {
      LoopRunSnoc(LoopStep(l, es[0]), es[1..], e);
      assert (es + [e])[1..] == es[1..] + [e];
    }
  }

  lemma {:induction false} LoopRunLast(l: Loop, es: seq<LoopEvent>)
    requires es != [] && LoopRuns(l, es)
    ensures var before, e := es[..|es| - 1], es[|es| - 1];
            LoopRuns(l, before) && Possible(LoopRun(l, before), e) && LoopRun(l, es) == LoopStep(LoopRun(l, before), e)
    decreases |es|
  {
    if |es| > 1 {
      LoopRunLast(LoopStep(l, es[0]), es[1..]);
      assert es[1..][..|es| - 2] == es[..|es| - 1][1..];
    }
  }

  /** The last read before a write has the data to be written, and perhaps an error for later. */
  lemma WritingAfterRead(es: seq<LoopEvent>)
    requires LoopRuns(START, es) && LoopRun(START, es).pc.Writing?
    ensures es != [] && es[|es| - 1] == Read(LoopRun(START, es).pc.chunk, LoopRun(START, es).pc.srcErr)
    ensures LoopRun(START, es).pc.chunk != []
  {
    if es != [] {
      LoopRunLast(START, es);
    }
  }

  /** When `copyBuffer` returns, and what, in terms of the calls it made. It returns after a read
      without data that reports an error, and after a write that fails, is short, or forwards
      data that came together with an error; a clean end of the source counts as success. */
  ghost predicate Returns(es: seq<LoopEvent>, result: Option<IoError>) {
    var n := |es|;
    || (n >= 1 && es[n - 1].Read? && es[n - 1].data == [] && es[n - 1].err.Some?
        && result == if es[n - 1].err == Some(EOF) then None else es[n - 1].err)
    || (n >= 1 && es[n - 1].Write? && es[n - 1].werr.Some? && result == es[n - 1].werr)
    || (n >= 2 && es[n - 1].Write? && es[n - 1].werr == None && es[n - 2].Read?
        && es[n - 1].wn != |es[n - 2].data| && result == Some(ShortWrite))
    || (n >= 2 && es[n - 1].Write? && es[n - 1].werr == None && es[n - 2].Read?
        && es[n - 1].wn == |es[n - 2].data| && es[n - 2].err.Some?
        && result == if es[n - 2].err == Some(EOF) then None else es[n - 2].err)
  }

  /** A copy loop has returned a result exactly after those calls, and not before. */
  lemma ReturnsIff(es: seq<LoopEvent>, result: Option<IoError>)
    requires LoopRuns(START, es)
    ensures LoopRun(START, es).pc == Ended(result) <==> Returns(es, result)
  {
    if es != [] {
      LoopRunLast(START, es);
      var before := es[..|es| - 1];
      if LoopRun(START, before).pc.Writing? {
        WritingAfterRead(before);
      }
    }
  }

  /** The bytes that the reads of a run returned. */
  function BytesRead(es: seq<LoopEvent>): seq<byte> {
    if es == [] then []
    else BytesRead(es[..|es| - 1]) + if es[|es| - 1].Read? then es[|es| - 1].data else []
  }

  /** What a loop has read is what its reads returned. */
  lemma {:induction false} ReadIsBytesRead(es: seq<LoopEvent>)
    requires LoopRuns(START, es)
    ensures LoopRun(START, es).read == BytesRead(es) && LoopInv(LoopRun(START, es))
  {
    if es != [] {
      LoopRunLast(START, es);
      ReadIsBytesRead(es[..|es| - 1]);
      LoopKeeps(LoopRun(START, es[..|es| - 1]), es[|es| - 1]);
      assert BytesRead(es[..|es| - 1]) + [] == BytesRead(es[..|es| - 1]);
    }
  }

  /** What can happen next to a loop that has not returned: it reads if it has nothing to write,
      and otherwise writes what it read last. */
  lemma NextIs(es: seq<LoopEvent>, e: LoopEvent)
    requires LoopRuns(START, es) && !Finished(LoopRun(START, es))
    ensures Possible(LoopRun(START, es), e) <==>
              if es != [] && es[|es| - 1].Read? && es[|es| - 1].data != []
              then e.Write? && e.wn <= |es[|es| - 1].data|
              else e.Read? && |e.data| <= 512 * 1024
  {
    if es != [] {
      LoopRunLast(START, es);
    }
  }

  // ---------------------------------------------------------------- Join

  /** The two goroutines of `Join(c1, c2)`. Loop `true` copies from c1 to c2 and then closes
      c2; loop `false` copies from c2 to c1 and then closes c1. */
  datatype Join = Join(forth: Loop, back: Loop) {
    function At(side: bool): Loop {
      if side then forth else back
    }

    function With(side: bool, l: Loop): Join {
      if side then this.(forth := l) else this.(back := l)
    }
  }

  datatype JoinEvent = On(side: bool, event: LoopEvent)

  /** Each loop's source is the connection that the other loop closes; reading from a closed
      connection fails at once. A write already handed to its destination completes. */
  predicate CanStep(j: Join, e: JoinEvent) {
    && Possible(j.At(e.side), e.event)
    && (e.event.Read? && j.At(!e.side).pc.Closed? ==> e.event == Read([], Some(ConnError)))
  }

  function JoinStep(j: Join, e: JoinEvent): Join
    requires CanStep(j, e)
  {
    j.With(e.side, LoopStep(j.At(e.side), e.event))
  }

  ghost predicate JoinRuns(j: Join, es: seq<JoinEvent>)
    decreases |es|
  {
    es == [] || (CanStep(j, es[0]) && JoinRuns(JoinStep(j, es[0]), es[1..]))
  }

  function JoinRun(j: Join, es: seq<JoinEvent>): Join
    requires JoinRuns(j, es)
    decreases |es|
  {
    if es == [] then j else JoinRun(JoinStep(j, es[0]), es[1..])
  }

  /** In every run both directions forward in order, and a destination that was closed after
      a clean end of its source has received every byte that was read from it. */
  lemma {:induction false} JoinSafe(j: Join, es: seq<JoinEvent>)
    requires LoopInv(j.forth) && LoopInv(j.back) && JoinRuns(j, es)
    ensures var k := JoinRun(j, es);
            && LoopInv(k.forth) && LoopInv(k.back)
            && (forall side :: k.At(side).pc == Closed(None) ==> k.At(side).written == k.At(side).read)
    decreases |es|
  {
    if es != [] {
      LoopKeeps(j.At(es[0].side), es[0].event);
      JoinSafe(JoinStep(j, es[0]), es[1..]);
    }
  }

  /** Steps that a loop can still take once its source is closed. */
  function Rank(l: Loop): nat {
    match l.pc
    case Writing(_, _) => 3
    case Reading => 2
    case Ended(_) => 1
    case Closed(_) => 0
  }

  function Writes(es: seq<JoinEvent>): nat {
    if es == [] then 0 else (if es[0].event.Write? then 1 else 0) + Writes(es[1..])
  }

  /** `Join` terminates: once either loop has closed its destination, no run is longer than
      three more steps, and at most one of them is a write. */
  lemma {:induction false} WindDown(j: Join, side: bool, es: seq<JoinEvent>)
    requires j.At(side).pc.Closed? && JoinRuns(j, es)
    ensures |es| <= Rank(j.At(!side)) <= 3
    ensures Writes(es) <= if j.At(!side).pc.Writing? then 1 else 0
    ensures JoinRun(j, es).At(side) == j.At(side)
    decreases |es|
  {
    if es != [] {
      assert es[0].side == !side;
      WindDown(JoinStep(j, es[0]), side, es[1..]);
    }
  }

  /** `Join` stops only with both connections closed, and never gets stuck before. */
  lemma StuckIffReturned(j: Join)
    ensures (forall e :: !CanStep(j, e)) <==> (j.forth.pc.Closed? && j.back.pc.Closed?)
  {
    forall side | !j.At(side).pc.Closed? ensures exists e :: CanStep(j, e) {
      var l := j.At(side);
      var e := On(side, match l.pc
                        case Reading => Read([], Some(ConnError))
                        case Writing(_, _) => Write(0, None)
                        case _ => Close);
      assert CanStep(j, e);
    }
    if exists e :: CanStep(j, e) {
      var e :| CanStep(j, e);
      assert !j.At(e.side).pc.Closed?;
    } else {
      assert j.At(true).pc.Closed? && j.At(false).pc.Closed?;
    }
  }
}
