/** Bytes, flattening of chunk lists, and the big-endian integers of the frame headers. */
module Bytes {

  type byte = b: int | 0 <= b < 256

  datatype Option<+T> = None | Some(value: T)

  /** Every error the byte-stream layers return; `ConnError` is any failure of the
      underlying connection other than a clean end of stream. */
  datatype IoError =
    | EOF
    | UnexpectedEOF
    | ConnError
    | RandError
    | InvalidFrameLength
    | OpenFailed
    | ShortBuffer
    | UnmarshalError
    | ShortWrite

  function Flatten<T>(chunks: seq<seq<T>>): seq<T> {
    if chunks == [] then [] else chunks[0] + Flatten(chunks[1..])
  }

  lemma {:induction false} FlattenAppend<T>(xs: seq<seq<T>>, ys: seq<seq<T>>)
    ensures Flatten(xs + ys) == Flatten(xs) + Flatten(ys)
  {
    if xs == [] {
      assert xs + ys == ys;
    } else {
      assert (xs + ys)[1..] == xs[1..] + ys;
      FlattenAppend(xs[1..], ys);
    }
  }

  lemma FlattenOne<T>(x: seq<T>)
    ensures Flatten([x]) == x
  {
    assert [x][1..] == [];
  }

  lemma Associate<T>(x: seq<T>, y: seq<T>, z: seq<T>)
    ensures x + (y + z) == (x + y) + z
  {
  }

  /** What `binary.BigEndian.PutUint16(buf, uint16(n))` stores: the conversion wraps. */
  function PutUint16(n: nat): (s: seq<byte>)
    ensures |s| == 2
  {
    [(n / 0x100) % 0x100, n % 0x100]
  }

  function Uint16(s: seq<byte>): (n: nat)
    requires |s| == 2
    ensures n < 0x1_0000
  {
    var hi: nat, lo: nat := s[0], s[1];
    hi * 0x100 + lo
  }

  lemma Uint16OfPut(n: nat)
    ensures Uint16(PutUint16(n)) == n % 0x1_0000
  {
  }

  /** What `binary.BigEndian.PutUint32(buf, uint32(n))` stores. */
  function PutUint32(n: nat): (s: seq<byte>)
    ensures |s| == 4
  {
    PutUint16((n / 0x1_0000) % 0x1_0000) + PutUint16(n % 0x1_0000)
  }

  /** Most significant byte first. */
  lemma PutUint32Bytes(n: nat)
    ensures PutUint32(n) == [n / 0x100_0000 % 0x100, n / 0x1_0000 % 0x100, n / 0x100 % 0x100, n % 0x100]
  {
    ByteOf(n);
    ByteOf(n / 0x1_0000);
  }

  /** The upper byte of the lower two. */
  lemma ByteOf(n: nat)
    ensures n % 0x1_0000 / 0x100 % 0x100 == n / 0x100 % 0x100
    ensures n % 0x1_0000 % 0x100 == n % 0x100
  {
    var q, r := n / 0x1_0000, n % 0x1_0000;
    assert n == 0x100 * (0x100 * q) + r;
    assert n / 0x100 == 0x100 * q + r / 0x100;
  }

  function Uint32(s: seq<byte>): (n: nat)
    requires |s| == 4
    ensures n < 0x1_0000_0000
  {
    Uint16(s[..2]) * 0x1_0000 + Uint16(s[2..])
  }

  lemma Uint32OfPut(n: nat)
    ensures Uint32(PutUint32(n)) == n % 0x1_0000_0000
  {
    var hi, lo := (n / 0x1_0000) % 0x1_0000, n % 0x1_0000;
    Uint16OfPut(hi);
    Uint16OfPut(lo);
    assert PutUint32(n)[..2] == PutUint16(hi);
    assert PutUint32(n)[2..] == PutUint16(lo);
    HalvesOf(n);
  }

  lemma HalvesOf(n: nat)
    ensures ((n / 0x1_0000) % 0x1_0000) * 0x1_0000 + n % 0x1_0000 == n % 0x1_0000_0000
  {
  }
}
