/** The authenticator and its nonce cache, over timed runs. Times are in nanoseconds. */
module Auth {
  import opened Bytes
  import opened Decimal

  const SECOND: int := 1_000_000_000
  const NONCE_EXPIRY: int := 300 * SECOND
  const MAX_TIME_DIFF: int := 300
  const CLOCK_LIMIT: int := 0x4000_0000_0000_0000

  /** The fixed parts of an `Authenticator`: the tokens, HMAC-SHA256 in hexadecimal as
      `mac(key, data)`, the expiry of nonces in nanoseconds and the tolerance in seconds. */
  datatype Config = Config(tokens: set<string>, mac: (string, string) -> string, expiry: int, tolerance: int)

  datatype Request = Request(token: string, timestamp: string, nonce: string, sign: string)

  type Cache = map<string, int>

  function Sign(mac: (string, string) -> string, token: string, timestamp: string, nonce: string): string {
    mac(token, token + timestamp + nonce)
  }

  /** `time.Unix()` rounds down to whole seconds. */
  function Unix(t: int): int {
    t / SECOND
  }

  /** `abs` on `int64`: the negation of the least value is itself. */
  function Abs64(x: int): int
    requires Int64(x)
  {
    if x < 0 then Wrap64(-x) else x
  }

  /** The timestamp check as it is computed, with wrapping subtraction. */
  predicate TimeOk(tolerance: int, now: int, ts: int)
    requires Int64(now) && Int64(ts)
  {
    Abs64(Wrap64(now - ts)) <= tolerance
  }

  /** What the wrapping arithmetic really checks, for any clock from 1970 on that is not about
      to overflow: the times are within the tolerance, or exactly 2^63 seconds apart. */
  lemma TimeOkIff(tolerance: int, now: int, ts: int)
    requires 0 <= tolerance < CLOCK_LIMIT && 0 <= now <= CLOCK_LIMIT && Int64(ts)
    ensures TimeOk(tolerance, now, ts) <==> (-tolerance <= now - ts <= tolerance || now - ts == TWO_TO_63)
  {
    var d := now - ts;
    if d >= TWO_TO_63 {
      WrapsOnce(d);
      WrapsOnce(TWO_TO_63);
    }
  }

  lemma WrapsOnce(d: int)
    requires TWO_TO_63 <= d < TWO_TO_64
    ensures Wrap64(d) == d - TWO_TO_64
  {
    assert (d + TWO_TO_63) % TWO_TO_64 == d + TWO_TO_63 - TWO_TO_64;
  }

  // ---------------------------------------------------------------- one call

  predicate TokenAndTimeOk(cfg: Config, r: Request, now: int)
    requires Int64(now)
  {
    && r.token in cfg.tokens
    && ParseInt(r.timestamp).Some?
    && TimeOk(cfg.tolerance, now, ParseInt(r.timestamp).value)
  }

  /** The result of `Verify` and the cache after it. The clock is read at `checked` for the
      timestamp and at `added` for the cache; the signature is compared last, after the nonce
      was recorded. */
  function VerifyOnce(cfg: Config, cache: Cache, r: Request, checked: int, added: int): (bool, Cache)
    requires Int64(Unix(checked))
  {
    if !TokenAndTimeOk(cfg, r, Unix(checked)) || r.nonce in cache then (false, cache)
    else (r.sign == Sign(cfg.mac, r.token, r.timestamp, r.nonce), cache[r.nonce := added])
  }

  function SweepOnce(expiry: int, cache: Cache, now: int): Cache {
    map n | n in cache && now - cache[n] <= expiry :: cache[n]
  }

  /** One call in full. It is accepted if and only if the token is allowed, the timestamp parses
      and is in time, the nonce is not cached, and the signature is that of token, timestamp and
      nonce; and the nonce is recorded if and only if all of that but the signature holds. A
      call that is refused earlier leaves the cache alone. */
  lemma VerifiesExactly(cfg: Config, cache: Cache, r: Request, checked: int, added: int)
    requires 0 <= cfg.tolerance < CLOCK_LIMIT && 0 <= checked && checked / 1_000_000_000 <= CLOCK_LIMIT
    ensures var now, ts := checked / 1_000_000_000, ParseInt(r.timestamp);
            var admitted := r.token in cfg.tokens && r.nonce !in cache && ts.Some?
                            && (-cfg.tolerance <= now - ts.value <= cfg.tolerance || now - ts.value == 0x8000_0000_0000_0000);
            && VerifyOnce(cfg, cache, r, checked, added).0
               == (admitted && r.sign == cfg.mac(r.token, r.token + r.timestamp + r.nonce))
            && VerifyOnce(cfg, cache, r, checked, added).1 == if admitted then cache[r.nonce := added] else cache
  {
    if ParseInt(r.timestamp).Some? {
      TimeOkIff(cfg.tolerance, checked / 1_000_000_000, ParseInt(r.timestamp).value);
    }
  }

  /** What a signature covers, for a code that is injective in its data: under one token, a
      signature is good for exactly the requests whose timestamp and nonce together spell the
      same. In particular a request altered only in its nonce, or only in its timestamp, is
      refused. */
  lemma SignCovers(cfg: Config, cache: Cache, r: Request, r': Request, checked: int, added: int)
    requires 0 <= cfg.tolerance < CLOCK_LIMIT && 0 <= checked && checked / 1_000_000_000 <= CLOCK_LIMIT
    requires forall x, y | cfg.mac(r.token, x) == cfg.mac(r.token, y) :: x == y
    requires r.sign == cfg.mac(r.token, r.token + r.timestamp + r.nonce)
    requires r'.token == r.token && r'.sign == r.sign
    ensures VerifyOnce(cfg, cache, r', checked, added).0 ==> r'.timestamp + r'.nonce == r.timestamp + r.nonce
    ensures r'.timestamp + r'.nonce == r.timestamp + r.nonce ==> r'.sign == cfg.mac(r'.token, r'.token + r'.timestamp + r'.nonce)
    ensures VerifyOnce(cfg, cache, r', checked, added).0 && r'.timestamp == r.timestamp ==> r'.nonce == r.nonce
    ensures VerifyOnce(cfg, cache, r', checked, added).0 && r'.nonce == r.nonce ==> r'.timestamp == r.timestamp
  {
    VerifiesExactly(cfg, cache, r', checked, added);
    var x, y := r.token + r.timestamp + r.nonce, r'.token + r'.timestamp + r'.nonce;
    assert x == r.token + (r.timestamp + r.nonce) && y == r.token + (r'.timestamp + r'.nonce);
    if VerifyOnce(cfg, cache, r', checked, added).0 {
      assert x == y;
      assert x[|r.token|..] == r.timestamp + r.nonce && y[|r.token|..] == r'.timestamp + r'.nonce;
      if r'.timestamp == r.timestamp {
        assert (r.timestamp + r.nonce)[|r.timestamp|..] == r.nonce;
        assert (r'.timestamp + r'.nonce)[|r.timestamp|..] == r'.nonce;
      }
      if r'.nonce == r.nonce {
        assert |r.timestamp| == |r'.timestamp|;
        assert (r.timestamp + r.nonce)[..|r.timestamp|] == r.timestamp;
        assert (r'.timestamp + r'.nonce)[..|r.timestamp|] == r'.timestamp;
      }
    }
  }

  class NonceCache {
    var cache: Cache
    const expiry: int

    constructor (expiry: int)
      ensures cache == map[] && this.expiry == expiry
    {
      cache, this.expiry := map[], expiry;
    }

    method Add(nonce: string, now: int)
      modifies this
      ensures cache == old(cache)[nonce := now]
    {
      cache := cache[nonce := now];
    }

    method Exists(nonce: string) returns (found: bool)
      ensures found <==> nonce in cache
    {
      found := nonce in cache;
    }

    /** One round of `cleanup`: exactly the entries older than the expiry are deleted. */
    method Sweep(now: int)
      modifies this
      ensures forall n :: n in cache <==> n in old(cache) && now - old(cache)[n] <= expiry
      ensures forall n | n in cache :: cache[n] == old(cache)[n]
      ensures cache == SweepOnce(expiry, old(cache), now)
    {
      var todo := cache.Keys;
      while todo != {}
        invariant todo <= old(cache).Keys
        invariant forall n :: n in cache <==> n in old(cache) && (n in todo || now - old(cache)[n] <= expiry)
        invariant forall n | n in cache :: cache[n] == old(cache)[n]
        decreases todo
      {
        var nonce :| nonce in todo;
        if nonce in cache && now - cache[nonce] > expiry {
          cache := cache - {nonce};
        }
        todo := todo - {nonce};
      }
    }
  }

  class Authenticator {
    const cfg: Config
    const nonceCache: NonceCache

    constructor (cfg: Config)
      ensures this.cfg == cfg && fresh(nonceCache) && nonceCache.cache == map[] && nonceCache.expiry == cfg.expiry
    {
      this.cfg := cfg;
      nonceCache := new NonceCache(cfg.expiry);
    }

    method Verify(r: Request, checked: int, added: int) returns (ok: bool)
      requires Int64(Unix(checked))
      modifies nonceCache
      ensures (ok, nonceCache.cache) == VerifyOnce(cfg, old(nonceCache.cache), r, checked, added)
    {
      if r.token !in cfg.tokens {
        return false;
      }
      var ts := ParseInt(r.timestamp);
      if ts == None {
        return false;
      }
      var now := Unix(checked);
      if Abs64(Wrap64(now - ts.value)) > cfg.tolerance {
        return false;
      }
      var seen := nonceCache.Exists(r.nonce);
      if seen {
        return false;
      }
      nonceCache.Add(r.nonce, added);
      var expected := Sign(cfg.mac, r.token, r.timestamp, r.nonce);
      ok := r.sign == expected;
    }
  }

  // ---------------------------------------------------------------- timed runs

  datatype Event =
    | Verify(request: Request, checked: int, added: int)
    | Sweep(now: int)

  /** Serialised calls, on a clock that does not go back. */
  function StartOf(e: Event): int {
    if e.Verify? then e.checked else e.now
  }

  function EndOf(e: Event): int {
    if e.Verify? then e.added else e.now
  }

  predicate Timed(es: seq<Event>) {
    && (forall i | 0 <= i < |es| :: 0 <= StartOf(es[i]) <= EndOf(es[i]) && Unix(EndOf(es[i])) <= CLOCK_LIMIT)
    && (forall i, j | 0 <= i < j < |es| :: EndOf(es[i]) <= StartOf(es[j]))
  }

  function After(cfg: Config, cache: Cache, e: Event): Cache {
    match e
    case Verify(r, checked, added) =>
      if Int64(Unix(checked)) then VerifyOnce(cfg, cache, r, checked, added).1 else cache
    case Sweep(now) => SweepOnce(cfg.expiry, cache, now)
  }

  function CacheAfter(cfg: Config, cache: Cache, es: seq<Event>): Cache
    decreases |es|
  {
    if es == [] then cache else CacheAfter(cfg, After(cfg, cache, es[0]), es[1..])
  }

  predicate Accepts(cfg: Config, cache: Cache, e: Event) {
    e.Verify? && Int64(Unix(e.checked)) && VerifyOnce(cfg, cache, e.request, e.checked, e.added).0
  }

  /** The i-th call of a run from an empty cache is accepted. */
  predicate Accepted(cfg: Config, es: seq<Event>, i: nat)
    requires i < |es|
  {
    Accepts(cfg, CacheAfter(cfg, map[], es[..i]), es[i])
  }

  lemma {:induction false} CacheAfterAppend(cfg: Config, cache: Cache, xs: seq<Event>, ys: seq<Event>)
    ensures CacheAfter(cfg, cache, xs + ys) == CacheAfter(cfg, CacheAfter(cfg, cache, xs), ys)
    decreases |xs|
  {
    if xs == [] {
      assert xs + ys == ys;
    } else {
      assert (xs + ys)[1..] == xs[1..] + ys;
      CacheAfterAppend(cfg, After(cfg, cache, xs[0]), xs[1..], ys);
    }
  }

  /** A cached nonce keeps its entry, and its time, until a sweep more than the expiry later. */
  lemma {:induction false} NonceStays(cfg: Config, cache: Cache, es: seq<Event>, nonce: string)
    requires nonce in cache
    requires forall e | e in es :: e.Sweep? ==> e.now - cache[nonce] <= cfg.expiry
    ensures nonce in CacheAfter(cfg, cache, es) && CacheAfter(cfg, cache, es)[nonce] == cache[nonce]
    decreases |es|
  {
    if es != [] {
      assert es[0] in es;
      NonceStays(cfg, After(cfg, cache, es[0]), es[1..], nonce);
    }
  }

  /** The call got as far as recording its nonce: its token is allowed, its timestamp parses, and
      the clock was within the tolerance of it (or exactly 2^63 seconds after it). */
  predicate InTime(cfg: Config, e: Event) {
    && e.Verify? && e.request.token in cfg.tokens && ParseInt(e.request.timestamp).Some?
    && (var d := e.checked / 1_000_000_000 - ParseInt(e.request.timestamp).value;
        -cfg.tolerance <= d <= cfg.tolerance || d == 0x8000_0000_0000_0000)
  }

  /** Over timed runs: a nonce is in the cache only because some call with it, with an allowed
      token and in time, recorded it at the cached time. */
  lemma {:induction false} CachedOnlyBy(cfg: Config, es: seq<Event>, nonce: string)
    requires 0 <= cfg.tolerance < CLOCK_LIMIT && Timed(es)
    requires nonce in CacheAfter(cfg, map[], es)
    ensures exists i | 0 <= i < |es| ::
      InTime(cfg, es[i]) && es[i].request.nonce == nonce && es[i].added == CacheAfter(cfg, map[], es)[nonce]
  {
    if es != [] {
      var before, e := es[..|es| - 1], es[|es| - 1];
      LastEvent(cfg, es);
      assert forall i | 0 <= i < |before| :: before[i] == es[i];
      if e.Verify? {
        VerifiesExactly(cfg, CacheAfter(cfg, map[], before), e.request, e.checked, e.added);
      }
      if nonce in CacheAfter(cfg, map[], before) && CacheAfter(cfg, map[], before)[nonce] == CacheAfter(cfg, map[], es)[nonce] {
        CachedOnlyBy(cfg, before, nonce);
        var i :| 0 <= i < |before| && InTime(cfg, before[i]) && before[i].request.nonce == nonce
                 && before[i].added == CacheAfter(cfg, map[], before)[nonce];
        assert InTime(cfg, es[i]);
      } else {
        assert InTime(cfg, e) && e.request.nonce == nonce;
      }
    }
  }

  /** So refused traffic costs nobody a nonce: after any timed run, a client's own request with an
      allowed token, in time, is accepted unless an earlier call with an allowed token, in time,
      has used its nonce. */
  lemma FreshRequestAccepted(cfg: Config, es: seq<Event>, token: string, ts: int, nonce: string, checked: int, added: int)
    requires Sensible(cfg) && Timed(es)
    requires 0 <= ts <= CLOCK_LIMIT && 0 <= checked && checked / 1_000_000_000 <= CLOCK_LIMIT
    requires token in cfg.tokens && -cfg.tolerance <= checked / 1_000_000_000 - ts <= cfg.tolerance
    requires forall i | 0 <= i < |es| && InTime(cfg, es[i]) :: es[i].request.nonce != nonce
    ensures Accepts(cfg, CacheAfter(cfg, map[], es), Verify(ServerRequest(ClientRequest(cfg.mac, token, ts, nonce)), checked, added))
  {
    if nonce in CacheAfter(cfg, map[], es) {
      CachedOnlyBy(cfg, es, nonce);
    }
    ClientAccepted(cfg, CacheAfter(cfg, map[], es), token, ts, nonce, checked, added);
  }

  /** Between two acceptances of one nonce there is a sweep more than the expiry after the
      first, whatever else happens in between. */
  lemma SweepBetween(cfg: Config, es: seq<Event>, i: nat, j: nat)
    requires i < j < |es| && Accepted(cfg, es, i) && Accepted(cfg, es, j)
    requires es[i].request.nonce == es[j].request.nonce
    ensures exists k | i < k < j :: es[k].Sweep? && es[k].now - es[i].added > cfg.expiry
  {
    var nonce := es[i].request.nonce;
    var c := CacheAfter(cfg, map[], es[..i]);
    var between := es[i + 1..j];
    assert es[..j] == es[..i] + ([es[i]] + between);
    CacheAfterAppend(cfg, map[], es[..i], [es[i]] + between);
    assert ([es[i]] + between)[1..] == between;
    if forall k | i < k < j :: es[k].Sweep? ==> es[k].now - es[i].added <= cfg.expiry {
      NonceStays(cfg, After(cfg, c, es[i]), between, nonce);
      assert false;
    }
  }

  /** The earliest second in which the nonce can have been swept, less the tolerance: only
      timestamps from here on can be accepted twice. */
  function ReplayBound(cfg: Config, added: int): int {
    Unix(added + cfg.expiry + 1) - cfg.tolerance
  }

  predicate Sensible(cfg: Config) {
    SECOND <= cfg.expiry && 0 <= cfg.tolerance < CLOCK_LIMIT
  }

  /** Replay safety over timed runs: an accepted request with a timestamp before the bound is
      never accepted again. */
  lemma ReplayRejected(cfg: Config, es: seq<Event>, i: nat, j: nat)
    requires Sensible(cfg) && Timed(es) && i < j < |es|
    requires Accepted(cfg, es, i) && es[j].Verify? && es[j].request == es[i].request
    requires ParseInt(es[i].request.timestamp).value < ReplayBound(cfg, es[i].added)
    ensures !Accepted(cfg, es, j)
  {
    RejectedBefore(cfg, es, i, j, es[i].added + cfg.expiry + 1);
  }

  /** If the sweeps that can remove the nonce come no earlier than `w`, timestamps that are too
      old by then are not accepted again. */
  lemma RejectedBefore(cfg: Config, es: seq<Event>, i: nat, j: nat, w: int)
    requires Sensible(cfg) && Timed(es) && i < j < |es|
    requires Accepted(cfg, es, i) && es[j].Verify? && es[j].request == es[i].request
    requires w > es[i].added + cfg.expiry
    requires forall k | i < k < j && es[k].Sweep? && es[k].now - es[i].added > cfg.expiry :: es[k].now >= w
    requires ParseInt(es[i].request.timestamp).value < Unix(w) - cfg.tolerance
    ensures !Accepted(cfg, es, j)
  {
    if Accepted(cfg, es, j) {
      SweepBetween(cfg, es, i, j);
      var ts := ParseInt(es[i].request.timestamp).value;
      var u, v := Unix(es[i].checked), Unix(es[j].checked);
      TimeOkIff(cfg.tolerance, u, ts);
      TimeOkIff(cfg.tolerance, v, ts);
      assert es[j].checked >= w;
      UnixMonotone(w, es[j].checked);
    }
  }

  lemma UnixMonotone(s: int, t: int)
    requires s <= t
    ensures Unix(s) <= Unix(t)
  {
  }

  /** With an expiry of at least twice the tolerance and a second, no accepted request is ever
      accepted again, whatever its timestamp. */
  lemma LongExpiryStopsReplay(cfg: Config, es: seq<Event>, i: nat, j: nat)
    requires Sensible(cfg) && cfg.expiry >= 2 * cfg.tolerance * SECOND + SECOND
    requires Timed(es) && i < j < |es|
    requires Accepted(cfg, es, i) && es[j].Verify? && es[j].request == es[i].request
    ensures !Accepted(cfg, es, j)
  {
    var ts, u := ParseInt(es[i].request.timestamp).value, Unix(es[i].checked);
    TimeOkIff(cfg.tolerance, u, ts);
    UnixMonotone(es[i].checked + (2 * cfg.tolerance + 1) * SECOND, es[i].added + cfg.expiry + 1);
    assert Unix(es[i].checked + (2 * cfg.tolerance + 1) * SECOND) == u + 2 * cfg.tolerance + 1;
    ReplayRejected(cfg, es, i, j);
  }

  /** With the repository's constants: a request whose timestamp is before the whole second of
      its acceptance is never accepted again. */
  lemma DeployedReplay(cfg: Config, es: seq<Event>, i: nat, j: nat)
    requires cfg.expiry == NONCE_EXPIRY && cfg.tolerance == MAX_TIME_DIFF
    requires Timed(es) && i < j < |es| && Accepted(cfg, es, i)
    requires es[j].Verify? && es[j].request == es[i].request
    requires ParseInt(es[i].request.timestamp).value < Unix(es[i].added)
    ensures !Accepted(cfg, es, j)
    ensures NONCE_EXPIRY == 300_000_000_000 && MAX_TIME_DIFF == 300
  {
    UnixMonotone(es[i].added, es[i].added + 1);
    assert ReplayBound(cfg, es[i].added) == Unix(es[i].added + 1);
    ReplayRejected(cfg, es, i, j);
  }

  /** `more` continues the run `es` and ends with an acceptance of the request that `es` ends with. */
  predicate Replays(cfg: Config, es: seq<Event>, more: seq<Event>)
    requires es != [] && es[|es| - 1].Verify?
  {
    && more != [] && Timed(es + more)
    && more[|more| - 1].Verify? && more[|more| - 1].request == es[|es| - 1].request
    && Accepted(cfg, es + more, |es| + |more| - 1)
  }

  /** The bound is exact: after any run that ends with an acceptance, some continuation accepts
      the same request again if and only if its timestamp is not before the bound. */
  lemma ReplayIff(cfg: Config, es: seq<Event>)
    requires Sensible(cfg) && Timed(es) && es != [] && Accepted(cfg, es, |es| - 1)
    requires Unix(es[|es| - 1].added + cfg.expiry + 1) <= CLOCK_LIMIT
    ensures (exists more :: Replays(cfg, es, more))
            <==> ParseInt(es[|es| - 1].request.timestamp).value >= ReplayBound(cfg, es[|es| - 1].added)
  {
    var last := es[|es| - 1];
    if ParseInt(last.request.timestamp).value >= ReplayBound(cfg, last.added) {
      SweptAndReplayed(cfg, es, last.added + cfg.expiry + 1);
    } else {
      forall more | Replays(cfg, es, more)
        ensures false
      {
        assert (es + more)[..|es| - 1] == es[..|es| - 1];
        ReplayRejected(cfg, es + more, |es| - 1, |es| + |more| - 1);
      }
    }
  }

  // ---------------------------------------------------------------- sweeps on a ticker

  const MINUTE: int := 60 * SECOND

  /** Sweeps happen only on the ticks of a ticker that was started at `t0`; ticks may be lost. */
  predicate Ticked(t0: int, es: seq<Event>) {
    forall e | e in es && e.Sweep? :: e.now >= t0 && (e.now - t0) % MINUTE == 0
  }

  /** The first tick after the time `t`. */
  function TickAfter(t0: int, t: int): int
    requires t0 <= t
  {
    t0 + ((t - t0) / MINUTE + 1) * MINUTE
  }

  lemma TickAfterIsFirst(t0: int, t: int, tick: int)
    requires t0 <= t
    ensures t < TickAfter(t0, t) <= t + MINUTE && (TickAfter(t0, t) - t0) % MINUTE == 0
    ensures t < tick && (tick - t0) % MINUTE == 0 ==> TickAfter(t0, t) <= tick
  {
    var q := (t - t0) / MINUTE;
    assert (q + 1) * MINUTE % MINUTE == 0;
    if t < tick && (tick - t0) % MINUTE == 0 {
      var r := (tick - t0) / MINUTE;
      assert r * MINUTE == tick - t0 > q * MINUTE;
    }
  }

  /** With sweeps on the ticks only: after any run that ends with an acceptance, some continuation
      accepts the same request again if and only if its timestamp is within the tolerance of
      the first tick past the expiry, or later. */
  lemma TickedReplayIff(cfg: Config, es: seq<Event>, t0: int)
    requires Sensible(cfg) && Timed(es) && es != [] && Accepted(cfg, es, |es| - 1)
    requires t0 <= es[|es| - 1].added && Ticked(t0, es)
    requires Unix(TickAfter(t0, es[|es| - 1].added + cfg.expiry)) <= CLOCK_LIMIT
    ensures (exists more :: Ticked(t0, more) && Replays(cfg, es, more))
            <==> ParseInt(es[|es| - 1].request.timestamp).value
                 >= Unix(TickAfter(t0, es[|es| - 1].added + cfg.expiry)) - cfg.tolerance
  {
    var last := es[|es| - 1];
    var expires := last.added + cfg.expiry;
    var tick := TickAfter(t0, expires);
    TickAfterIsFirst(t0, expires, tick);
    if ParseInt(last.request.timestamp).value >= Unix(tick) - cfg.tolerance {
      SweptAndReplayed(cfg, es, tick);
      assert Ticked(t0, [Sweep(tick), Verify(last.request, tick, tick)]);
    } else {
      forall more | Ticked(t0, more) && Replays(cfg, es, more)
        ensures false
      {
        assert (es + more)[..|es| - 1] == es[..|es| - 1];
        SweepsNotBefore(cfg, es, more, t0);
        RejectedBefore(cfg, es + more, |es| - 1, |es| + |more| - 1, tick);
      }
    }
  }

  lemma SweepsNotBefore(cfg: Config, es: seq<Event>, more: seq<Event>, t0: int)
    requires es != [] && es[|es| - 1].Verify? && 0 <= cfg.expiry && t0 <= es[|es| - 1].added && Ticked(t0, more)
    ensures forall k | |es| <= k < |es + more| && (es + more)[k].Sweep? && (es + more)[k].now - es[|es| - 1].added > cfg.expiry ::
              (es + more)[k].now >= TickAfter(t0, es[|es| - 1].added + cfg.expiry)
  {
    forall k | |es| <= k < |es + more| && (es + more)[k].Sweep? && (es + more)[k].now - es[|es| - 1].added > cfg.expiry
      ensures (es + more)[k].now >= TickAfter(t0, es[|es| - 1].added + cfg.expiry)
    {
      assert (es + more)[k] == more[k - |es|] && more[k - |es|] in more;
      TickAfterIsFirst(t0, es[|es| - 1].added + cfg.expiry, (es + more)[k].now);
    }
  }

  /** Once swept at `w`, the request is good again if its timestamp is within the bound. */
  lemma StillInTime(cfg: Config, c: Cache, c': Cache, e: Event, w: int)
    requires Sensible(cfg) && e.Verify? && 0 <= e.checked <= e.added
    requires w > e.added + cfg.expiry && Unix(w) <= CLOCK_LIMIT
    requires Accepts(cfg, c, e) && e.request.nonce !in c'
    requires ParseInt(e.request.timestamp).value >= Unix(w) - cfg.tolerance
    ensures Accepts(cfg, c', Verify(e.request, w, w))
  {
    var ts := ParseInt(e.request.timestamp).value;
    UnixMonotone(e.checked, e.added);
    UnixMonotone(e.added, w);
    TimeOkIff(cfg.tolerance, Unix(e.checked), ts);
    TimeOkIff(cfg.tolerance, Unix(w), ts);
  }

  /** One sweep at a time `w` past the expiry, and the request is accepted again. */
  lemma SweptAndReplayed(cfg: Config, es: seq<Event>, w: int)
    requires Sensible(cfg) && Timed(es) && es != [] && Accepted(cfg, es, |es| - 1)
    requires w > es[|es| - 1].added + cfg.expiry && Unix(w) <= CLOCK_LIMIT
    requires ParseInt(es[|es| - 1].request.timestamp).value >= Unix(w) - cfg.tolerance
    ensures Replays(cfg, es, [Sweep(w), Verify(es[|es| - 1].request, w, w)])
  {
    var e := es[|es| - 1];
    var swept, again := es + [Sweep(w)], Verify(e.request, w, w);
    SweptIsGone(cfg, es, w);
    StillInTime(cfg, CacheAfter(cfg, map[], es[..|es| - 1]), CacheAfter(cfg, map[], swept), e, w);
    TimedAppend(es, Sweep(w));
    TimedAppend(swept, again);
    assert es + [Sweep(w), again] == swept + [again];
    assert (swept + [again])[..|swept|] == swept;
  }

  lemma SweptIsGone(cfg: Config, es: seq<Event>, w: int)
    requires es != [] && Accepted(cfg, es, |es| - 1) && w > es[|es| - 1].added + cfg.expiry
    ensures es[|es| - 1].request.nonce !in CacheAfter(cfg, map[], es + [Sweep(w)])
  {
    var swept := es + [Sweep(w)];
    LastEvent(cfg, es);
    LastEvent(cfg, swept);
    assert swept[..|es|] == es;
  }

  lemma LastEvent(cfg: Config, es: seq<Event>)
    requires es != []
    ensures CacheAfter(cfg, map[], es) == After(cfg, CacheAfter(cfg, map[], es[..|es| - 1]), es[|es| - 1])
  {
    var d, e := es[..|es| - 1], es[|es| - 1];
    assert es == d + [e];
    CacheAfterAppend(cfg, map[], d, [e]);
    assert CacheAfter(cfg, CacheAfter(cfg, map[], d), [e]) == CacheAfter(cfg, After(cfg, CacheAfter(cfg, map[], d), e), []);
  }

  lemma TimedAppend(es: seq<Event>, e: Event)
    requires Timed(es) && es != [] && EndOf(es[|es| - 1]) <= StartOf(e) <= EndOf(e) && Unix(EndOf(e)) <= CLOCK_LIMIT
    ensures Timed(es + [e])
  {
    forall i | 0 <= i < |es|
      ensures EndOf(es[i]) <= StartOf(e)
    {
      assert i < |es| - 1 ==> EndOf(es[i]) <= StartOf(es[|es| - 1]) <= EndOf(es[|es| - 1]);
    }
  }

  // ---------------------------------------------------------------- completeness

  /** `authenticate` on the client: the request it sends. */
  datatype AuthRequest = AuthRequest(token: string, timestamp: int, nonce: string, sign: string)

  function ClientRequest(mac: (string, string) -> string, token: string, ts: int, nonce: string): AuthRequest {
    AuthRequest(token, ts, nonce, Sign(mac, token, FormatInt(ts), nonce))
  }

  /** `handleAuth` on the server: what it passes to `Verify`. */
  function ServerRequest(r: AuthRequest): Request {
    Request(r.token, FormatInt(r.timestamp), r.nonce, r.sign)
  }

  /** A client's own request is accepted exactly if its token is allowed, the clocks differ by
      no more than the tolerance, and the nonce is not cached. */
  lemma ClientAccepted(cfg: Config, cache: Cache, token: string, ts: int, nonce: string, checked: int, added: int)
    requires Sensible(cfg) && 0 <= ts <= CLOCK_LIMIT && 0 <= Unix(checked) <= CLOCK_LIMIT
    ensures VerifyOnce(cfg, cache, ServerRequest(ClientRequest(cfg.mac, token, ts, nonce)), checked, added).0
            <==> token in cfg.tokens && -cfg.tolerance <= Unix(checked) - ts <= cfg.tolerance && nonce !in cache
  {
    ParseOfFormat(ts);
    TimeOkIff(cfg.tolerance, Unix(checked), ts);
  }

  /** A wrong signature still uses the nonce up: the genuine request with that nonce is then
      rejected until the entry is swept. */
  lemma WrongSignUsesNonce(cfg: Config, cache: Cache, wrong: Request, r: Request, checked: int, added: int, later: seq<Event>, again: Event)
    requires Int64(Unix(checked)) && TokenAndTimeOk(cfg, wrong, Unix(checked)) && wrong.nonce !in cache
    requires wrong.sign != Sign(cfg.mac, wrong.token, wrong.timestamp, wrong.nonce)
    requires forall e | e in later :: e.Sweep? ==> e.now - added <= cfg.expiry
    requires again.Verify? && again.request == r && r.nonce == wrong.nonce
    ensures !VerifyOnce(cfg, cache, wrong, checked, added).0
    ensures !Accepts(cfg, CacheAfter(cfg, VerifyOnce(cfg, cache, wrong, checked, added).1, later), again)
  {
    NonceStays(cfg, VerifyOnce(cfg, cache, wrong, checked, added).1, later, wrong.nonce);
  }
}
