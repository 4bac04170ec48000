// Bytes, and the big-endian fields that the PUT_16, PUT_32 and GET_16 macros
// of spook/rtp.h write and read.
module Bytes {

  datatype Option<+T> = None | Some(value: T)

  newtype byte = x: int | 0 <= x < 256

  const CR: byte := 13
  const LF: byte := 10

  /** PUT_16 keeps only the low sixteen bits of its argument, which may be
      negative. */
  function Put16(v: int): (r: seq<byte>)
    ensures |r| == 2
  {
    [(v / 256 % 256) as byte, (v % 256) as byte]
  }

  function Put32(v: int): (r: seq<byte>)
    ensures |r| == 4
  {
    Put16(v / 65536) + Put16(v)
  }

  function Get16(d: seq<byte>): (v: nat)
    requires |d| >= 2
    ensures v < 65536
  {
    d[0] as int * 256 + d[1] as int
  }

  lemma Get16Put16(v: int, rest: seq<byte>)
    ensures Get16(Put16(v) + rest) == v % 65536
  {
  }

  /** The number in four bytes, the highest first. */
  function Get32(d: seq<byte>): (v: nat)
    requires |d| >= 4
    ensures v < 0x1_0000_0000
  {
    d[0] as int * 0x100_0000 + d[1] as int * 0x1_0000 + d[2] as int * 0x100 + d[3] as int
  }

  lemma Get32Halves(d: seq<byte>)
    requires |d| >= 4
    ensures Get32(d) == Get16(d) * 65536 + Get16(d[2..])
  {
  }

  lemma Get32Put32(v: int, rest: seq<byte>)
    ensures Get32(Put32(v) + rest) == v % 0x1_0000_0000
  {
    hide Get16, Put16, Get32;
    var d := Put32(v) + rest;
    assert d == Put16(v / 65536) + (Put16(v) + rest) && d[2..] == Put16(v) + rest;
    Get32Halves(d);
    Get16Put16(v / 65536, Put16(v) + rest);
    Get16Put16(v, rest);
    Halves(v);
  }

  lemma Halves(v: int)
    ensures v / 65536 % 65536 * 65536 + v % 65536 == v % 0x1_0000_0000
  {
  }

  /** The concatenation of a list of byte strings. */
  function Flatten<T>(parts: seq<seq<T>>): seq<T> {
    if parts == [] then [] else parts[0] + Flatten(parts[1..])
  }

  lemma {:induction false} FlattenAppend<T>(a: seq<seq<T>>, b: seq<seq<T>>)
    ensures Flatten(a + b) == Flatten(a) + Flatten(b)
  {
    if a == [] {
      assert a + b == b;
    } else {
      assert (a + b)[1..] == a[1..] + b;
      FlattenAppend(a[1..], b);
    }
  }

  lemma FlattenSingle<T>(a: seq<T>)
    ensures Flatten([a]) == a
  {
  }

  lemma Associative<T>(a: seq<T>, b: seq<T>, c: seq<T>)
    ensures (a + b) + c == a + (b + c)
  {
  }
}
