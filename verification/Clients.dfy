/** The client's reconnect loop and the liveness check of a connection. */
module Clients {

  // ---------------------------------------------------------------- backoff

  const SECOND: int := 1_000_000_000
  const MIN_DELAY: int := 1 * SECOND
  const MAX_DELAY: int := 60 * SECOND

  /** One round of `Run`: whether `connect` succeeded, and whether the client had been stopped
      by the time it returned. */
  datatype Attempt = Attempt(connected: bool, stopped: bool)

  function Pow2(n: nat): (p: nat)
    ensures p >= 1
  {
    if n == 0 then 1 else 2 * Pow2(n - 1)
  }

  /** The failures in a row at the end of `attempts`. */
  function Failures(attempts: seq<Attempt>): (k: nat)
    ensures k <= |attempts|
  {
    if attempts == [] || attempts[|attempts| - 1].connected then 0
    else 1 + Failures(attempts[..|attempts| - 1])
  }

  /** The delay after `k` failures in a row: min(60, 2^(k-1)) seconds, and one second after a
      connection that had succeeded. */
  function Delay(k: nat): int {
    if k == 0 then MIN_DELAY
    else if Pow2(k - 1) <= 60 then Pow2(k - 1) * SECOND
    else MAX_DELAY
  }

  lemma DelayDoubles(k: nat)
    requires k >= 1
    ensures Delay(k + 1) == if 2 * Delay(k) > MAX_DELAY then MAX_DELAY else 2 * Delay(k)
    ensures Delay(1) == MIN_DELAY
  {
    assert Pow2(k) == 2 * Pow2(k - 1);
  }

  /** The delay from one attempt to the next, in nanoseconds: one second after a connection that
      had succeeded and after a first failure, then twice the delay before, up to a minute. */
  lemma DelayAt(attempts: seq<Attempt>, i: nat)
    requires i < |attempts|
    ensures Delay(Failures(attempts[..i + 1])) ==
              if attempts[i].connected || i == 0 || attempts[i - 1].connected then 1_000_000_000
              else var twice := 2 * Delay(Failures(attempts[..i])); if twice > 60_000_000_000 then 60_000_000_000 else twice
  {
    assert attempts[..i + 1][..i] == attempts[..i];
    if !attempts[i].connected && i > 0 && !attempts[i - 1].connected {
      DelayDoubles(Failures(attempts[..i]));
    }
  }

  /** The i-th sleep: one second after a connection that had succeeded and after a first failure,
      then twice the sleep before, up to a minute. */
  ghost predicate BacksOff(attempts: seq<Attempt>, slept: seq<int>, i: nat)
    requires i < |slept| <= |attempts|
  {
    slept[i] == if attempts[i].connected || i == 0 || attempts[i - 1].connected then 1_000_000_000
                else if 2 * slept[i - 1] > 60_000_000_000 then 60_000_000_000
                else 2 * slept[i - 1]
  }

  /** The loop of `Run` over what happens, up to the first attempt that finds the client
      stopped; `slept` is what it passes to `time.Sleep`, one entry for every other attempt. */
  method Run(attempts: seq<Attempt>) returns (slept: seq<int>)
    ensures |slept| <= |attempts| && (|slept| < |attempts| ==> attempts[|slept|].stopped)
    ensures forall i | 0 <= i < |slept| :: !attempts[i].stopped && slept[i] == Delay(Failures(attempts[..i + 1]))
    ensures forall i: nat {:trigger BacksOff(attempts, slept, i)} | i < |slept| :: BacksOff(attempts, slept, i)
  {
    slept := RunLoop(attempts);
    forall i: nat | i < |slept|
      ensures BacksOff(attempts, slept, i)
    {
      DelayAt(attempts, i);
    }
  }

  method RunLoop(attempts: seq<Attempt>) returns (slept: seq<int>)
    ensures |slept| <= |attempts| && (|slept| < |attempts| ==> attempts[|slept|].stopped)
    ensures forall i | 0 <= i < |slept| :: !attempts[i].stopped && slept[i] == Delay(Failures(attempts[..i + 1]))
  {
    var currentDelay, successiveFailures := MIN_DELAY, 0;
    slept := [];
    while |slept| < |attempts|
      invariant |slept| <= |attempts|
      invariant successiveFailures == Failures(attempts[..|slept|])
      invariant currentDelay == Delay(successiveFailures)
      invariant forall i | 0 <= i < |slept| :: !attempts[i].stopped && slept[i] == Delay(Failures(attempts[..i + 1]))
      decreases |attempts| - |slept|
    {
      var attempt := attempts[|slept|];
      assert attempts[..|slept| + 1] == attempts[..|slept|] + [attempt];
      if !attempt.connected {
        successiveFailures := successiveFailures + 1;
        if successiveFailures > 1 {
          DelayDoubles(successiveFailures - 1);
          currentDelay := currentDelay * 2;
          if currentDelay > MAX_DELAY {
            currentDelay := MAX_DELAY;
          }
        }
      } else {
        successiveFailures, currentDelay := 0, MIN_DELAY;
      }
      if attempt.stopped {
        return;
      }
      slept := slept + [currentDelay];
    }
  }

  function SumDelays(k: nat): int {
    if k == 0 then 0 else SumDelays(k - 1) + Delay(k)
  }

  /** How long the first `k` failures in a row keep the client waiting. */
  lemma {:induction false} TimeToRetry(k: nat)
    ensures SumDelays(k) == if k <= 6 then (Pow2(k) - 1) * SECOND else (63 + 60 * (k - 6)) * SECOND
  {
    if k > 0 {
      TimeToRetry(k - 1);
      assert Pow2(6) == 64 by {
        assert Pow2(3) == 8;
      }
      if k <= 6 {
        Pow2Monotone(k - 1, 5);
        assert Pow2(5) == 32;
      } else {
        Pow2Monotone(6, k - 1);
      }
    }
  }

  lemma {:induction false} Pow2Monotone(m: nat, n: nat)
    requires m <= n
    ensures Pow2(m) <= Pow2(n)
    decreases n
  {
    if m < n {
      Pow2Monotone(m, n - 1);
    }
  }

  // ---------------------------------------------------------------- keepalive

  const MAX_PONG_MISS: nat := 3

  /** How one round of `keepalive` ends. `Stopped` is a closed connection or a stopped client,
      seen while waiting for the ticker or for the pong. */
  datatype Round = SendFailed | Answered | TimedOut | Stopped

  datatype Exit = Running | Reconnect | Quit

  /** Round `k` is reason to reconnect: the ping could not be sent, or it is the third round in
      a row that timed out. */
  predicate Lost(rounds: seq<Round>, k: nat)
    requires k < |rounds|
  {
    || rounds[k] == SendFailed
    || (k >= 2 && rounds[k] == TimedOut && rounds[k - 1] == TimedOut && rounds[k - 2] == TimedOut)
  }

  predicate Ends(rounds: seq<Round>, k: nat)
    requires k < |rounds|
  {
    Lost(rounds, k) || rounds[k] == Stopped
  }

  /** `keepalive` has gone through exactly these rounds, and this is where it is. */
  ghost predicate Outcome(rounds: seq<Round>, exit: Exit) {
    && (forall k: nat {:trigger Ends(rounds, k)} | k < |rounds| - 1 :: !Ends(rounds, k))
    && exit == (if rounds == [] then Running
                else if rounds[|rounds| - 1] == Stopped then Quit
                else if Lost(rounds, |rounds| - 1) then Reconnect
                else Running)
  }

  /** `Outcome` spelled out: no round but the last is a reason to stop, and the last is one to
      reconnect if the ping could not be sent or it is the third timeout in a row. */
  lemma OutcomeIs(rounds: seq<Round>, exit: Exit)
    requires Outcome(rounds, exit)
    ensures var n := |rounds|;
            && (forall k | 0 <= k < n - 1 :: rounds[k] != SendFailed && rounds[k] != Stopped)
            && (forall k | 2 <= k < n - 1 :: rounds[k] == TimedOut && rounds[k - 1] == TimedOut ==> rounds[k - 2] != TimedOut)
            && (exit == Quit <==> n > 0 && rounds[n - 1] == Stopped)
            && (exit == Reconnect <==>
                  n > 0 && (rounds[n - 1] == SendFailed
                            || (n >= 3 && rounds[n - 1] == TimedOut && rounds[n - 2] == TimedOut && rounds[n - 3] == TimedOut)))
  {
    forall k: nat | k < |rounds| - 1
      ensures rounds[k] != SendFailed && rounds[k] != Stopped
      ensures k >= 2 && rounds[k] == TimedOut && rounds[k - 1] == TimedOut ==> rounds[k - 2] != TimedOut
    {
      assert !Ends(rounds, k);
    }
  }

  /** The timeouts in a row at the end of `rounds`. */
  function Misses(rounds: seq<Round>): (m: nat)
    ensures m <= |rounds|
  {
    if rounds == [] || rounds[|rounds| - 1] != TimedOut then 0
    else 1 + Misses(rounds[..|rounds| - 1])
  }

  lemma ThreeMisses(rounds: seq<Round>)
    requires rounds != [] && rounds[|rounds| - 1] != SendFailed
    ensures Misses(rounds) >= MAX_PONG_MISS <==> Lost(rounds, |rounds| - 1)
  {
    var n := |rounds|;
    if n >= 2 {
      assert rounds[..n - 1][..n - 2] == rounds[..n - 2];
      if n >= 3 {
        assert Misses(rounds[..n - 2]) >= 1 <==> rounds[n - 3] == TimedOut;
      }
    }
  }

  /** One more round after rounds that left `keepalive` running. */
  lemma OneMoreRound(rounds: seq<Round>, r: Round)
    requires Outcome(rounds, Running)
    ensures Outcome(rounds + [r], if r == Stopped then Quit
                                  else if r == SendFailed || (r == TimedOut && Misses(rounds) + 1 >= MAX_PONG_MISS) then Reconnect
                                  else Running)
    ensures Misses(rounds + [r]) == if r == TimedOut then Misses(rounds) + 1 else 0
  {
    var rs := rounds + [r];
    assert rs[..|rounds|] == rounds;
    assert forall k: nat {:trigger Ends(rs, k)} | k < |rounds| :: Ends(rs, k) <==> Ends(rounds, k);
    assert rounds != [] ==> !Ends(rounds, |rounds| - 1);
    if r != SendFailed {
      ThreeMisses(rs);
    }
  }

  /** The loop of `keepalive`, over how its rounds end. */
  method Keepalive(rounds: seq<Round>) returns (exit: Exit, n: nat)
    ensures n <= |rounds| && Outcome(rounds[..n], exit)
    ensures exit == Running ==> n == |rounds|
  {
    var missedPongs := 0;
    exit, n := Running, 0;
    while n < |rounds|
      invariant n <= |rounds| && Outcome(rounds[..n], Running)
      invariant exit == Running && missedPongs == Misses(rounds[..n])
    {
      var r := rounds[n];
      OneMoreRound(rounds[..n], r);
      assert rounds[..n + 1] == rounds[..n] + [r];
      n := n + 1;
      match r {
        case SendFailed =>
          return Reconnect, n;
        case Stopped =>
          return Quit, n;
        case Answered =>
          missedPongs := 0;
        case TimedOut =>
          missedPongs := missedPongs + 1;
          if missedPongs >= MAX_PONG_MISS {
            return Reconnect, n;
          }
      }
    }
  }

  // ---------------------------------------------------------------- pongs and rounds, interleaved

  /** `pongCh` holds one pong. `answered` is set if a pong was waiting when the ping was sent:
      that round cannot time out. */
  datatype Phase = Idle | Waiting(answered: bool) | Done(exit: Exit)

  datatype State = State(phase: Phase, missed: nat, buffered: bool)

  const START := State(Idle, 0, false)

  datatype Event =
    | PongArrives
    | Tick(sent: bool)
    | TakePong
    | Timeout
    | Stop

  predicate Possible(s: State, e: Event) {
    match e
    case PongArrives => true
    case Tick(_) => s.phase.Idle?
    case TakePong => s.phase.Waiting? && s.buffered
    case Timeout => s.phase == Waiting(false)
    case Stop => !s.phase.Done?
  }

  function Step(s: State, e: Event): State
    requires Possible(s, e)
  {
    match e
    case PongArrives => s.(buffered := true)
    case Tick(sent) => s.(phase := if sent then Waiting(s.buffered) else Done(Reconnect))
    case TakePong => State(Idle, 0, false)
    case Timeout =>
      s.(missed := s.missed + 1, phase := if s.missed + 1 >= MAX_PONG_MISS then Done(Reconnect) else Idle)
    case Stop => s.(phase := Done(Quit))
  }

  ghost predicate Runs(s: State, es: seq<Event>)
    decreases |es|
  {
    es == [] || (Possible(s, es[0]) && Runs(Step(s, es[0]), es[1..]))
  }

  ghost function RunFrom(s: State, es: seq<Event>): State
    requires Runs(s, es)
    decreases |es|
  {
    if es == [] then s else RunFrom(Step(s, es[0]), es[1..])
  }

  function RoundOf(e: Event): seq<Round> {
    match e
    case PongArrives => []
    case Tick(sent) => if sent then [] else [SendFailed]
    case TakePong => [Answered]
    case Timeout => [TimedOut]
    case Stop => [Round.Stopped]
  }

  /** The rounds that a run completes. */
  function Rounds(es: seq<Event>): seq<Round>
    decreases |es|
  {
    if es == [] then [] else RoundOf(es[0]) + Rounds(es[1..])
  }

  function ExitOf(s: State): Exit {
    if s.phase.Done? then s.phase.exit else Running
  }

  /** The state after rounds `before` agrees with what `keepalive` does over them. */
  ghost predicate Agrees(s: State, before: seq<Round>) {
    && Outcome(before, ExitOf(s))
    && (ExitOf(s) == Running ==> s.missed == Misses(before) && !s.phase.Done?)
  }

  lemma StepAgrees(s: State, before: seq<Round>, e: Event)
    requires Agrees(s, before) && Possible(s, e)
    ensures Agrees(Step(s, e), before + RoundOf(e))
  {
    if RoundOf(e) == [] {
      assert before + RoundOf(e) == before;
    } else {
      OneMoreRound(before, RoundOf(e)[0]);
    }
  }

  lemma {:induction false} RunAgrees(s: State, before: seq<Round>, es: seq<Event>)
    requires Agrees(s, before) && Runs(s, es)
    ensures Agrees(RunFrom(s, es), before + Rounds(es))
    decreases |es|
  {
    if es == [] {
      assert before + Rounds(es) == before;
    } else {
      StepAgrees(s, before, es[0]);
      RunAgrees(Step(s, es[0]), before + RoundOf(es[0]), es[1..]);
      assert before + Rounds(es) == before + RoundOf(es[0]) + Rounds(es[1..]);
    }
  }

  /** The reconnect discipline: whenever pongs arrive, the connection is given up exactly when a
      ping cannot be sent or the third round in a row times out. */
  lemma ReconnectsExactly(es: seq<Event>)
    requires Runs(START, es)
    ensures Outcome(Rounds(es), ExitOf(RunFrom(START, es)))
  {
    assert Agrees(START, []);
    RunAgrees(START, [], es);
    assert [] + Rounds(es) == Rounds(es);
  }

  function Count<T(==)>(s: seq<T>, x: T): nat {
    if s == [] then 0 else (if s[0] == x then 1 else 0) + Count(s[1..], x)
  }

  /** At most one late pong answers a later round: from any point on, the answered rounds are
      at most the pongs that arrive from there on, and one that was waiting. */
  lemma {:induction false} OneLatePong(s: State, es: seq<Event>)
    requires Runs(s, es)
    ensures Count(es, TakePong) <= Count(es, PongArrives) + if s.buffered then 1 else 0
    decreases |es|
  {
    if es != [] {
      OneLatePong(Step(s, es[0]), es[1..]);
    }
  }

  /** A pong is not lost on the way to the round that waits for it: one that is there when the
      ping is sent answers it at once, and the round cannot time out; one that comes while
      the round waits can answer it. Either way the count of missed pongs starts again. */
  lemma PongAnswers(s: State)
    requires s.phase == Idle || s.phase.Waiting?
    ensures s.phase == Idle ==>
      var t := Step(Step(s, PongArrives), Tick(true));
      Possible(t, TakePong) && !Possible(t, Timeout) && Step(t, TakePong) == State(Idle, 0, false)
    ensures s.phase.Waiting? ==>
      Possible(Step(s, PongArrives), TakePong) && Step(Step(s, PongArrives), TakePong) == State(Idle, 0, false)
  {
  }

  /** A pong is waiting exactly if one has come since a round last took one. */
  lemma {:induction false} PongWaits(s: State, es: seq<Event>)
    requires Runs(s, es)
    ensures RunFrom(s, es).buffered <==>
      || (s.buffered && TakePong !in es)
      || (exists i | 0 <= i < |es| :: es[i] == PongArrives && TakePong !in es[i + 1..])
    decreases |es|
  {
    if es != [] {
      var rest := es[1..];
      PongWaits(Step(s, es[0]), rest);
      assert es == [es[0]] + rest;
      if i :| 0 <= i < |rest| && rest[i] == PongArrives && TakePong !in rest[i + 1..] {
        assert es[i + 1] == PongArrives && es[i + 2..] == rest[i + 1..];
      }
      if i :| 0 <= i < |es| && es[i] == PongArrives && TakePong !in es[i + 1..] {
        if i > 0 {
          assert rest[i - 1] == PongArrives && rest[i..] == es[i + 1..];
        }
      }
      if es[0] == PongArrives && TakePong !in rest {
        assert es[0] == PongArrives && es[0 + 1..] == rest;
      }
    }
  }

  /** `keepalive` goes on until it exits: while it waits for the ticker it sends a ping, and a
      round that waits for its pong can be answered or can time out. */
  lemma RoundsComplete(s: State)
    requires s.phase == Idle || s.phase.Waiting?
    requires s.phase == Waiting(true) ==> s.buffered
    ensures s.phase == Idle ==> Possible(s, Tick(true)) && Step(s, Tick(true)).phase.Waiting?
    ensures s.phase.Waiting? ==>
      if s.buffered then Possible(s, TakePong) && Step(s, TakePong).missed == 0 && Step(s, TakePong).phase == Idle
      else Possible(s, Timeout) && Step(s, Timeout).missed == s.missed + 1
           && Step(s, Timeout).phase == if s.missed >= 2 then Done(Reconnect) else Idle
  {
  }

  /** A pong that was waiting for the ping answers it. */
  ghost predicate Sound(s: State) {
    && (s.phase == Waiting(true) ==> s.buffered)
    && (!s.phase.Done? ==> s.missed < MAX_PONG_MISS)
  }

  /** How many more rounds can complete if no further pong arrives. */
  function RoundsLeft(s: State): (n: nat)
    requires Sound(s)
    ensures n == 0 <==> s.phase.Done?
  {
    match s.phase
    case Done(_) => 0
    case Idle => if s.buffered then 4 else 3 - s.missed
    case Waiting(answered) => if answered then 4 else if s.buffered then 5 else 3 - s.missed
  }

  lemma {:induction false} StaysSound(s: State, es: seq<Event>)
    requires Sound(s) && Runs(s, es)
    ensures Sound(RunFrom(s, es))
    decreases |es|
  {
    if es != [] {
      StaysSound(Step(s, es[0]), es[1..]);
    }
  }

  /** A silent peer is given up within four rounds of any tick, of which a late pong accounts
      for one: each completed round brings the end nearer. */
  lemma {:induction false} SilenceIsNoticed(s: State, es: seq<Event>)
    requires Sound(s) && Runs(s, es) && PongArrives !in es
    ensures Sound(RunFrom(s, es))
    ensures |Rounds(es)| + RoundsLeft(RunFrom(s, es)) <= RoundsLeft(s)
    decreases |es|
  {
    if es != [] {
      assert es[0] in es;
      SilenceIsNoticed(Step(s, es[0]), es[1..]);
    }
  }
}
