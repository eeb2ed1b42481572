/** Length-prefixed items on a byte stream, independent of what the items are.

    `io.ReadFull` is specified once here, and one theorem, `CutStream`, says what a
    reader gets from a stream of encoded items that is cut after any number of bytes.
    Both the record layer and the control codec are instances of it. */
module Framing {
  import opened Bytes

  /** What `io.ReadFull(r, buf)` does with the bytes still to come. */
  datatype Full = Full(got: seq<byte>, rest: seq<byte>, err: Option<IoError>)

  /** `s` is everything the stream still delivers and `end` the error after it. */
  function FullRead(s: seq<byte>, m: nat, end: IoError): Full {
    if |s| >= m then Full(s[..m], s[m..], None)
    else if s != [] && end == EOF then Full(s, [], Some(UnexpectedEOF))
    else Full(s, [], Some(end))
  }

  /** One attempt to read an item: the item, or the error; and what is left unread. */
  datatype Parsed<+T> = Item(value: T, rest: seq<byte>) | Stop(error: IoError, rest: seq<byte>)

  /** An item consumes at least one byte. */
  ghost predicate Progresses<T>(f: seq<byte> -> Parsed<T>) {
    forall s {:trigger f(s)} :: f(s).Item? ==> |f(s).rest| < |s|
  }

  type Parser<!T> = f: seq<byte> -> Parsed<T> | Progresses(f) witness s => Stop(EOF, s)

  /** Reading items until the first error. */
  datatype Drained<+T> = Drained(items: seq<T>, error: IoError)

  function Drain<T>(parse: Parser<T>, s: seq<byte>): Drained<T>
    decreases |s|
  {
    match parse(s)
    case Stop(e, _) => Drained([], e)
    case Item(x, rest) =>
      var d := Drain(parse, rest);
      Drained([x] + d.items, d.error)
  }

  function EncodeAll<T>(enc: T -> seq<byte>, xs: seq<T>): seq<byte> {
    if xs == [] then [] else enc(xs[0]) + EncodeAll(enc, xs[1..])
  }

  lemma {:induction false} EncodeAllAppend<T>(enc: T -> seq<byte>, xs: seq<T>, ys: seq<T>)
    ensures EncodeAll(enc, xs + ys) == EncodeAll(enc, xs) + EncodeAll(enc, ys)
  {
    if xs == [] {
      assert xs + ys == ys;
    } else {
      assert (xs + ys)[1..] == xs[1..] + ys;
      EncodeAllAppend(enc, xs[1..], ys);
    }
  }

  lemma EncodeAllOne<T>(enc: T -> seq<byte>, x: T)
    ensures EncodeAll(enc, [x]) == enc(x)
  {
    assert [x][1..] == [];
  }

  /** How many items lie completely within the first `k` bytes. */
  function Complete<T>(enc: T -> seq<byte>, xs: seq<T>, k: nat): (n: nat)
    ensures n <= |xs|
  {
    if xs == [] || k < |enc(xs[0])| then 0
    else 1 + Complete(enc, xs[1..], k - |enc(xs[0])|)
  }

  /** How many of the first `k` bytes belong to an item that is not complete. */
  function Leftover<T>(enc: T -> seq<byte>, xs: seq<T>, k: nat): nat {
    if xs == [] || k < |enc(xs[0])| then k
    else Leftover(enc, xs[1..], k - |enc(xs[0])|)
  }

  /** `Complete` and `Leftover` split the cut stream exactly: the complete items, then a
      proper prefix of the next one. */
  lemma {:induction false} CutSplits<T>(enc: T -> seq<byte>, xs: seq<T>, k: nat)
    requires k <= |EncodeAll(enc, xs)|
    ensures var n, l := Complete(enc, xs, k), Leftover(enc, xs, k);
            && k == |EncodeAll(enc, xs[..n])| + l
            && (if n == |xs| then l == 0 else l < |enc(xs[n])|)
  {
    if xs != [] && k >= |enc(xs[0])| {
      CutSplits(enc, xs[1..], k - |enc(xs[0])|);
      var n := Complete(enc, xs[1..], k - |enc(xs[0])|);
      assert xs[..n + 1][1..] == xs[1..][..n];
    } else {
      assert xs[..0] == [];
    }
  }

  /** The error of a reader that finds `j` bytes of an item with an `h`-byte header and
      then the end of the stream. A clean end inside an item becomes `UnexpectedEOF`,
      except between the header and the body, where `io.ReadFull` reads nothing. */
  function CutError(j: nat, h: nat, end: IoError): IoError {
    if end == EOF && j != 0 && j != h then UnexpectedEOF else end
  }

  /** `parse` undoes `enc` on `x`, whatever follows, and reports a cut anywhere in `x`. */
  ghost predicate Reads<T(!new)>(enc: T -> seq<byte>, parse: Parser<T>, h: nat, end: IoError, x: T) {
    && (forall rest :: parse(enc(x) + rest) == Item(x, rest))
    && (forall j | 0 <= j < |enc(x)| :: parse(enc(x)[..j]) == Stop(CutError(j, h, end), []))
  }

  /** Encoded items in front of any bytes are read first, and do not disturb what follows. */
  lemma {:induction false} DrainAfter<T(!new)>(
      enc: T -> seq<byte>, parse: Parser<T>, h: nat, end: IoError, xs: seq<T>, tail: seq<byte>)
    requires forall x | x in xs :: Reads(enc, parse, h, end, x)
    ensures var d := Drain(parse, tail);
            Drain(parse, EncodeAll(enc, xs) + tail) == Drained(xs + d.items, d.error)
  {
    if xs == [] {
      assert EncodeAll(enc, xs) + tail == tail;
    } else {
      var x, more := xs[0], EncodeAll(enc, xs[1..]) + tail;
      assert EncodeAll(enc, xs) + tail == enc(x) + more;
      assert Reads(enc, parse, h, end, x);
      DrainAfter(enc, parse, h, end, xs[1..], tail);
      assert [x] + (xs[1..] + Drain(parse, tail).items) == xs + Drain(parse, tail).items;
    }
  }

  /** A stream of items cut after any `k` bytes is read as exactly its complete items,
      and the error tells where in the next item the cut fell. */
  lemma CutStream<T(!new)>(
      enc: T -> seq<byte>, parse: Parser<T>, h: nat, end: IoError, xs: seq<T>, k: nat)
    requires k <= |EncodeAll(enc, xs)|
    requires parse([]) == Stop(end, [])
    requires forall x | x in xs :: Reads(enc, parse, h, end, x)
    ensures Drain(parse, EncodeAll(enc, xs)[..k])
         == Drained(xs[..Complete(enc, xs, k)], CutError(Leftover(enc, xs, k), h, end))
  {
    var n, l := Complete(enc, xs, k), Leftover(enc, xs, k);
    CutSplits(enc, xs, k);
    assert xs == xs[..n] + xs[n..];
    EncodeAllAppend(enc, xs[..n], xs[n..]);
    var tail := EncodeAll(enc, xs[n..])[..l];
    assert EncodeAll(enc, xs)[..k] == EncodeAll(enc, xs[..n]) + tail;
    DrainAfter(enc, parse, h, end, xs[..n], tail);
    if n < |xs| {
      assert Reads(enc, parse, h, end, xs[n]);
      assert tail == enc(xs[n])[..l];
    }
    assert Drain(parse, tail) == Drained([], CutError(l, h, end));
    assert xs[..n] + [] == xs[..n];
  }

  /** The uncut stream: every item, and then the end of the stream. */
  lemma WholeStream<T(!new)>(enc: T -> seq<byte>, parse: Parser<T>, h: nat, end: IoError, xs: seq<T>)
    requires parse([]) == Stop(end, [])
    requires forall x | x in xs :: Reads(enc, parse, h, end, x)
    ensures Drain(parse, EncodeAll(enc, xs)) == Drained(xs, end)
  {
    var k := |EncodeAll(enc, xs)|;
    CutStream(enc, parse, h, end, xs, k);
    CompleteAll(enc, xs);
    assert EncodeAll(enc, xs)[..k] == EncodeAll(enc, xs);
    assert xs[..|xs|] == xs;
  }

  /** Complete items, then any part of one more: the reader gets the last one exactly when
      all of it is there. */
  lemma CutAfter<T(!new)>(
      enc: T -> seq<byte>, parse: Parser<T>, h: nat, end: IoError, xs: seq<T>, y: T, t: nat)
    requires t <= |enc(y)| && enc(y) != []
    requires parse([]) == Stop(end, [])
    requires forall x | x in xs + [y] :: Reads(enc, parse, h, end, x)
    ensures Drain(parse, EncodeAll(enc, xs) + enc(y)[..t]).items
         == if t == |enc(y)| then xs + [y] else xs
  {
    var tail := enc(y)[..t];
    assert forall x | x in xs :: x in xs + [y];
    DrainAfter(enc, parse, h, end, xs, tail);
    assert y in xs + [y] && Reads(enc, parse, h, end, y);
    if t == |enc(y)| {
      assert tail == enc(y) + [];
      assert Drain(parse, []).items == [];
    }
  }

  lemma {:induction false} CompleteAll<T>(enc: T -> seq<byte>, xs: seq<T>)
    ensures Complete(enc, xs, |EncodeAll(enc, xs)|) == |xs|
    ensures Leftover(enc, xs, |EncodeAll(enc, xs)|) == 0
  {
    if xs != [] {
      CompleteAll(enc, xs[1..]);
    }
  }
}
