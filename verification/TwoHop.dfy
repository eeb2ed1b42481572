/** The whole path of a proxied connection: the server joins the user's connection with a
    multiplexed stream, the client joins the other end of the stream with the local service.
    All four copy loops run concurrently. */
module TwoHop {
  import opened Bytes
  import opened Relay

  /** One direction. `near` copies from an outside connection into the stream, `far` copies
      from the stream to the other outside connection; `queue` is what the stream holds. */
  datatype Lane = Lane(near: Loop, queue: seq<byte>, far: Loop)

  /** `up` runs from the user to the local service, `down` from the local service to the
      user. `up.near` and `down.far` are the server's `Join`, `down.near` and `up.far` the
      client's. */
  datatype Path = Path(up: Lane, down: Lane) {
    function At(lane: bool): Lane {
      if lane then up else down
    }

    function With(lane: bool, l: Lane): Path {
      if lane then this.(up := l) else this.(down := l)
    }
  }

  const IDLE := Path(Lane(START, [], START), Lane(START, [], START))

  datatype Event = Near(lane: bool, event: LoopEvent) | Far(lane: bool, event: LoopEvent)

  /** The stream is ordered and lossless: a read returns some of the oldest queued bytes, and
      a clean end of stream is seen only after the writing side was closed and everything
      was read. */
  predicate FromStream(l: Lane, data: seq<byte>, err: Option<IoError>) {
    && data <= l.queue
    && (err == Some(EOF) ==> l.near.pc.Closed? && data == l.queue)
  }

  /** A loop whose source was closed by the other loop of its `Join` can only fail to read. */
  predicate SourceOpen(e: LoopEvent, sourceClosed: bool) {
    e.Read? && sourceClosed ==> e == Read([], Some(ConnError))
  }

  predicate CanStep(s: Path, e: Event) {
    var l, other := s.At(e.lane), s.At(!e.lane);
    match e
    case Near(_, ev) => Possible(l.near, ev) && SourceOpen(ev, other.far.pc.Closed?)
    case Far(_, ev) =>
      && Possible(l.far, ev) && SourceOpen(ev, other.near.pc.Closed?)
      && (ev.Read? ==> FromStream(l, ev.data, ev.err))
  }

  function LaneStep(l: Lane, e: Event): Lane
    requires if e.Near? then Possible(l.near, e.event)
             else Possible(l.far, e.event) && (e.event.Read? ==> FromStream(l, e.event.data, e.event.err))
  {
    match e
    case Near(_, ev) =>
      var sent := if ev.Write? then l.near.pc.chunk[..ev.wn] else [];
      Lane(LoopStep(l.near, ev), l.queue + sent, l.far)
    case Far(_, ev) =>
      var taken := if ev.Read? then |ev.data| else 0;
      Lane(l.near, l.queue[taken..], LoopStep(l.far, ev))
  }

  function Step(s: Path, e: Event): Path
    requires CanStep(s, e)
  {
    s.With(e.lane, LaneStep(s.At(e.lane), e))
  }

  ghost predicate Runs(s: Path, es: seq<Event>)
    decreases |es|
  {
    es == [] || (CanStep(s, es[0]) && Runs(Step(s, es[0]), es[1..]))
  }

  function Run(s: Path, es: seq<Event>): Path
    requires Runs(s, es)
    decreases |es|
  {
    if es == [] then s else Run(Step(s, es[0]), es[1..])
  }

  ghost predicate LaneInv(l: Lane) {
    && LoopInv(l.near) && LoopInv(l.far)
    && l.near.written == l.far.read + l.queue
    && (SawEnd(l.far) ==> l.near.pc.Closed? && l.queue == [])
  }

  /** The loop has been told that its source ended cleanly. */
  predicate SawEnd(l: Loop) {
    match l.pc
    case Writing(_, srcErr) => srcErr == Some(EOF)
    case Ended(result) => result == None
    case Closed(result) => result == None
    case Reading => false
  }

  lemma LaneKeeps(l: Lane, e: Event)
    requires LaneInv(l)
    requires if e.Near? then Possible(l.near, e.event)
             else Possible(l.far, e.event) && (e.event.Read? ==> FromStream(l, e.event.data, e.event.err))
    ensures LaneInv(LaneStep(l, e))
  {
    match e
    case Near(_, ev) =>
      LoopKeeps(l.near, ev);
      if ev.Write? {
        Associate(l.far.read, l.queue, l.near.pc.chunk[..ev.wn]);
      } else {
        assert l.queue + [] == l.queue;
      }
    case Far(_, ev) =>
      LoopKeeps(l.far, ev);
      if ev.Read? {
        var n := |ev.data|;
        assert l.queue == ev.data + l.queue[n..];
        Associate(l.far.read, ev.data, l.queue[n..]);
        assert l.far.read + [] == l.far.read;
      } else {
        assert l.queue[0..] == l.queue;
      }
  }

  lemma {:induction false} RunKeeps(s: Path, es: seq<Event>)
    requires LaneInv(s.up) && LaneInv(s.down) && Runs(s, es)
    ensures LaneInv(Run(s, es).up) && LaneInv(Run(s, es).down)
    decreases |es|
  {
    if es != [] {
      LaneKeeps(s.At(es[0].lane), es[0]);
      RunKeeps(Step(s, es[0]), es[1..]);
    }
  }

  /** End-to-end safety in both directions, for every interleaving of the four loops: what the
      far outside connection accepted is always a prefix of what was read from the near one;
      no byte is lost between the loops while they run; and if both loops of a direction ended
      cleanly, every byte that was read has been accepted. */
  lemma EndToEnd(es: seq<Event>, lane: bool)
    requires Runs(IDLE, es)
    ensures var l := Run(IDLE, es).At(lane);
            && l.far.written <= l.near.read
            && l.near.written == l.far.read + l.queue
            && (Finished(l.near) && Finished(l.far) && l.near.pc.result == None && l.far.pc.result == None ==>
                  l.far.written == l.near.read)
            && (l.far.pc == Closed(None) ==> l.far.written == l.near.written && l.near.pc.Closed?)
  {
    RunKeeps(IDLE, es);
    var l := Run(IDLE, es).At(lane);
    assert l.far.written <= l.far.read <= l.near.written <= l.near.read;
  }

  /** The server's `Join` by itself takes only steps that `Relay.Join` allows, so everything
      proved of one `Join`, termination included, holds of both ends of a path. */
  function ServerJoin(s: Path): Join {
    Join(s.up.near, s.down.far)
  }

  function ClientJoin(s: Path): Join {
    Join(s.down.near, s.up.far)
  }

  lemma EndsAreJoins(s: Path, e: Event)
    requires CanStep(s, e)
    ensures var t := Step(s, e);
            var onServer := e.Near? == e.lane;
            var je := On(e.Near?, e.event);
            if onServer then
              && Relay.CanStep(ServerJoin(s), je)
              && ServerJoin(t) == JoinStep(ServerJoin(s), je) && ClientJoin(t) == ClientJoin(s)
            else
              && Relay.CanStep(ClientJoin(s), je)
              && ClientJoin(t) == JoinStep(ClientJoin(s), je) && ServerJoin(t) == ServerJoin(s)
  {
  }

  // ---------------------------------------------------------------- termination of the path

  predicate OnServer(e: Event) {
    e.Near? == e.lane
  }

  /** The steps of a run that happen at one end, as steps of that end's `Join`. */
  function EndEvents(es: seq<Event>, server: bool): seq<JoinEvent> {
    if es == [] then []
    else (if OnServer(es[0]) == server then [On(es[0].Near?, es[0].event)] else []) + EndEvents(es[1..], server)
  }

  function EndJoin(s: Path, server: bool): Join {
    if server then ServerJoin(s) else ClientJoin(s)
  }

  /** Every run of the path is, at each end, a run of that end's `Join`. */
  lemma {:induction false} RunsAreJoins(s: Path, es: seq<Event>, server: bool)
    requires Runs(s, es)
    ensures JoinRuns(EndJoin(s, server), EndEvents(es, server))
    ensures JoinRun(EndJoin(s, server), EndEvents(es, server)) == EndJoin(Run(s, es), server)
    decreases |es|
  {
    if es != [] {
      EndsAreJoins(s, es[0]);
      RunsAreJoins(Step(s, es[0]), es[1..], server);
      var rest := EndEvents(es[1..], server);
      if OnServer(es[0]) == server {
        assert EndEvents(es, server)[1..] == rest;
      } else {
        assert EndEvents(es, server) == rest;
      }
    }
  }

  /** Once a loop has closed its destination at an end, that end takes no more than three further
      steps, whatever the other end does. */
  lemma EndWindsDown(s: Path, es: seq<Event>, server: bool, side: bool)
    requires Runs(s, es) && EndJoin(s, server).At(side).pc.Closed?
    ensures |EndEvents(es, server)| <= 3 && Writes(EndEvents(es, server)) <= 1
  {
    RunsAreJoins(s, es, server);
    WindDown(EndJoin(s, server), side, EndEvents(es, server));
  }

  lemma {:induction false} BothEnds(es: seq<Event>)
    ensures |es| == |EndEvents(es, true)| + |EndEvents(es, false)|
  {
    if es != [] {
      BothEnds(es[1..]);
    }
  }

  /** And once one has at both ends, the whole path stops within six steps. */
  lemma PathWindsDown(s: Path, es: seq<Event>, side: bool, side': bool)
    requires Runs(s, es) && ServerJoin(s).At(side).pc.Closed? && ClientJoin(s).At(side').pc.Closed?
    ensures |es| <= 6
  {
    EndWindsDown(s, es, true, side);
    EndWindsDown(s, es, false, side');
    BothEnds(es);
  }

  function FarSteps(es: seq<Event>, lane: bool): nat {
    if es == [] then 0 else (if es[0].Far? && es[0].lane == lane then 1 else 0) + FarSteps(es[1..], lane)
  }

  /** No read from the stream of this lane returns neither data nor an error. */
  predicate Busy(es: seq<Event>, lane: bool) {
    forall e | e in es && e.Far? && e.lane == lane :: e.event != Read([], None)
  }

  /** Steps that the far loop of a lane can still take when nothing more is put in the stream. */
  function FarLeft(l: Lane): nat {
    match l.far.pc
    case Writing(_, _) => 2 * |l.queue| + 3
    case Reading => 2 * |l.queue| + 2
    case Ended(_) => 1
    case Closed(_) => 0
  }

  /** The close of a stream reaches the other end: from there on the loop that reads it takes at
      most two steps for each queued byte and three more, and then it has closed its own
      destination. */
  lemma {:induction false} CloseReachesFar(s: Path, es: seq<Event>, lane: bool)
    requires Runs(s, es) && Busy(es, lane) && s.At(lane).near.pc.Closed?
    ensures FarSteps(es, lane) + FarLeft(Run(s, es).At(lane)) <= FarLeft(s.At(lane)) <= 2 * |s.At(lane).queue| + 3
    ensures Run(s, es).At(lane).near.pc.Closed?
    decreases |es|
  {
    if es != [] {
      assert es[0] in es;
      CloseReachesFar(Step(s, es[0]), es[1..], lane);
    }
  }

  /** The loop is not stuck before: it can always take a step of the kind that counts. */
  lemma FarCanStep(s: Path, lane: bool)
    requires s.At(lane).near.pc.Closed? && !s.At(lane).far.pc.Closed?
    ensures exists e :: CanStep(s, Far(lane, e)) && e != Read([], None)
  {
    var e := match s.At(lane).far.pc
             case Reading => Read([], Some(ConnError))
             case Writing(_, _) => Write(0, Some(ConnError))
             case _ => Close;
    assert CanStep(s, Far(lane, e));
  }
}
