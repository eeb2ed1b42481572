/** The two directions of a `net.Conn`, and the recycled byte buffers (`sync.Pool`).

    An `InStream` holds all the bytes that will ever arrive before the end of the stream,
    so a contract over `incoming` covers every moment at which the peer may send them, and
    `Read` may return them in any segmentation. */
module Streams {
  import opened Bytes
  import opened Framing

  /** `s` with `data` written over it from index `lo` on. */
  function Splice(s: seq<byte>, lo: nat, data: seq<byte>): (r: seq<byte>)
    requires lo + |data| <= |s|
    ensures |r| == |s|
  {
    s[..lo] + data + s[lo + |data|..]
  }

  /** The first `n` elements of `s`, and then the next `m`. */
  lemma SpliceMore(base: seq<byte>, lo: nat, s: seq<byte>, n: nat, m: nat)
    requires n + m <= |s| && lo + n + m <= |base|
    ensures Splice(Splice(base, lo, s[..n]), lo + n, s[n..][..m]) == Splice(base, lo, s[..n + m])
    ensures s[n..][m..] == s[n + m..]
  {
  }

  class InStream {
    var incoming: seq<byte>
    const atEnd: IoError

    constructor (incoming: seq<byte>, atEnd: IoError)
      ensures this.incoming == incoming && this.atEnd == atEnd
    {
      this.incoming := incoming;
      this.atEnd := atEnd;
    }

    /** One `Read` into `b[lo..hi]`: between one byte and all that fit, in order. The error
        comes once everything was delivered, possibly together with the last bytes. */
    method Read(b: array<byte>, lo: nat, hi: nat) returns (n: nat, err: Option<IoError>)
      requires lo <= hi <= b.Length
      modifies this`incoming, b
      ensures lo + n <= hi && n <= |old(incoming)|
      ensures incoming == old(incoming)[n..]
      ensures b[..] == Splice(old(b[..]), lo, old(incoming)[..n])
      ensures err == None && lo < hi ==> n > 0
      ensures err != None ==> err == Some(atEnd) && incoming == []
    {
      var most := if hi - lo <= |incoming| then hi - lo else |incoming|;
      n := most;
      var fewer: nat :| fewer <= most && (most > 0 ==> fewer > 0);
      n := fewer;
      forall i | 0 <= i < n {
        b[lo + i] := incoming[i];
      }
      incoming := incoming[n..];
      err := None;
      if incoming == [] {
        var early := *;
        if n == 0 || early {
          err := Some(atEnd);
        }
      }
    }

    /** `io.ReadFull(r, b[lo..hi])`. */
    method ReadFull(b: array<byte>, lo: nat, hi: nat) returns (err: Option<IoError>)
      requires lo <= hi <= b.Length
      modifies this`incoming, b
      ensures var full := FullRead(old(incoming), hi - lo, atEnd);
              && err == full.err
              && incoming == full.rest
              && b[..] == Splice(old(b[..]), lo, full.got)
    {
      ghost var s, base := incoming, b[..];
      var n: nat := 0;
      err := None;
      while n < hi - lo && err == None
        invariant n <= hi - lo && Filled(b, base, lo, s, n)
        invariant err != None ==> err == Some(atEnd) && n == |s|
        decreases hi - lo - n, err == None
      {
        var m;
        m, err := ReadMore(b, lo + n, hi, base, lo, s, n);
        n := n + m;
      }
      if n >= hi - lo {
        err := None;
      } else if n > 0 && err == Some(EOF) {
        err := Some(UnexpectedEOF);
      }
      assert n < hi - lo ==> s[..n] == s;
    }

    /** The first `n` bytes of the stream `s` are in `b`, from index `lo` on. */
    ghost predicate Filled(b: array<byte>, base: seq<byte>, lo: nat, s: seq<byte>, n: nat)
      reads this, b
    {
      n <= |s| && lo + n <= |base| && incoming == s[n..] && b[..] == Splice(base, lo, s[..n])
    }

    /** One round of `ReadFull`. */
    method ReadMore(b: array<byte>, at: nat, hi: nat, ghost base: seq<byte>, ghost lo: nat, ghost s: seq<byte>, ghost n: nat)
      returns (m: nat, err: Option<IoError>)
      requires at == lo + n < hi <= b.Length && Filled(b, base, lo, s, n)
      modifies this`incoming, b
      ensures at + m <= hi && Filled(b, base, lo, s, n + m)
      ensures err == None ==> m > 0
      ensures err != None ==> err == Some(atEnd) && n + m == |s|
    {
      m, err := Read(b, at, hi);
      SpliceMore(base, lo, s, n, m);
    }
  }

  class OutStream {
    var sent: seq<byte>
    /** How many writes have failed so far. */
    ghost var failures: nat

    constructor ()
      ensures sent == [] && failures == 0
    {
      sent, failures := [], 0;
    }

    /** One `Write` of `b[lo..hi]`: all of it, or a prefix together with an error. The
        buffer is not retained. */
    method Write(b: array<byte>, lo: nat, hi: nat) returns (n: nat, err: Option<IoError>)
      requires lo <= hi <= b.Length
      modifies this
      ensures lo + n <= hi
      ensures sent == old(sent) + b[lo..lo + n]
      ensures err == None ==> n == hi - lo
      ensures failures == old(failures) + if err == None then 0 else 1
    {
      var failing := *;
      if failing {
        var accepted: nat :| accepted <= hi - lo;
        n, err := accepted, Some(ConnError);
        failures := failures + 1;
      } else {
        n, err := hi - lo, None;
      }
      sent := sent + b[lo..lo + n];
    }
  }

  /** `crypto/rand`, and what it has handed out. */
  class Random {
    ghost var drawn: seq<seq<byte>>
    ghost var failures: nat

    constructor ()
      ensures drawn == [] && failures == 0
    {
      drawn, failures := [], 0;
    }

    /** `rand.Read(b[lo..hi])`. */
    method Read(b: array<byte>, lo: nat, hi: nat) returns (err: Option<IoError>)
      requires lo <= hi <= b.Length
      modifies this, b
      ensures b[..lo] == old(b[..lo]) && b[hi..] == old(b[hi..])
      ensures err == None || err == Some(RandError)
      ensures failures == old(failures) + if err == None then 0 else 1
      ensures drawn == if err == None then old(drawn) + [b[lo..hi]] else old(drawn)
    {
      forall i | lo <= i < hi {
        b[i] := *;
      }
      var ok := *;
      if ok {
        err := None;
        drawn := drawn + [b[lo..hi]];
      } else {
        err := Some(RandError);
        failures := failures + 1;
      }
    }
  }

  /** A `sync.Pool` of byte slices of one length. `all` is every buffer it ever handed out. */
  class SyncPool {
    const size: nat
    var free: seq<array<byte>>
    ghost var all: set<array<byte>>

    ghost predicate Valid()
      reads this
    {
      && (forall b | b in all :: b.Length == size)
      && (forall b | b in free :: b in all)
      && (forall i, j | 0 <= i < j < |free| :: free[i] != free[j])
    }

    /** Every buffer that was in the pool, and every new one, is in the pool. */
    ghost predicate AllBack(free0: seq<array<byte>>, all0: set<array<byte>>)
      reads this
    {
      && (forall x | x in free0 :: x in free)
      && (forall x | x in all && x !in all0 :: x in free)
    }

    constructor (size: nat)
      ensures Valid() && this.size == size && all == {} && free == []
    {
      this.size := size;
      free := [];
      all := {};
    }

    /** Hands out some pooled buffer, with whatever it last held, or a new one. Nobody else
        can obtain it before it is put back. */
    method Get() returns (b: array<byte>)
      requires Valid()
      modifies this
      ensures Valid()
      ensures b in all && b !in free && b.Length == size
      ensures b in old(free) || fresh(b)
      ensures forall x | x in free :: x in old(free)
      ensures forall x | x in old(free) :: x == b || x in free
      ensures all == old(all) + {b}
    {
      var recycled := *;
      if recycled && free != [] {
        var i :| 0 <= i < |free|;
        b := free[i];
        free := free[..i] + free[i + 1..];
      } else {
        b := new byte[size];
        all := all + {b};
      }
    }

    /** Puts back a buffer that the caller holds. */
    method Put(b: array<byte>)
      requires Valid() && b.Length == size && b !in free
      modifies this
      ensures Valid() && free == old(free) + [b] && all == old(all) + {b}
    {
      free := free + [b];
      all := all + {b};
    }
  }
}
