/** Machine integers as the Go code declares them, and optional values. */
module Basics {
  type byte = x: int | 0 <= x < 0x100
  type uint16 = x: int | 0 <= x < 0x1_0000
  type uint32 = x: int | 0 <= x < 0x1_0000_0000

  type Bytes = seq<byte>

  datatype Option<+T> = None | Some(value: T) {
    function GetOr(default: T): T { if Some? then value else default }
  }

  datatype Result<+T, +E> = Ok(value: T) | Err(error: E)

  function Min(a: int, b: int): int { if a < b then a else b }
  function Max(a: int, b: int): int { if a > b then a else b }

  /** Some element of a set, as Go's map iteration comes up with it: in no particular order. */
  method Pick<T>(s: set<T>) returns (x: T)
    requires s != {}
    ensures x in s
  {
    x :| x in s;
  }

  // Big-endian encoding, as encoding/binary does it

  function PutUint16(x: uint16): (b: Bytes)
    ensures |b| == 2
  {
    [x / 0x100, x % 0x100]
  }

  function GetUint16(b: Bytes): uint16
    requires |b| == 2
  {
    b[0] as int * 0x100 + b[1] as int
  }

  function PutUint32(x: uint32): (b: Bytes)
    ensures |b| == 4
  {
    [x / 0x100_0000, x / 0x1_0000 % 0x100, x / 0x100 % 0x100, x % 0x100]
  }

  function GetUint32(b: Bytes): uint32
    requires |b| == 4
  {
    b[0] as int * 0x100_0000 + b[1] as int * 0x1_0000 + b[2] as int * 0x100 + b[3] as int
  }

  /** The value of a byte string, its first byte the most significant. */
  function Value(b: Bytes): nat {
    if b == [] then 0 else 256 * Value(b[..|b| - 1]) + b[|b| - 1]
  }

  lemma Value2(b: Bytes)
    requires |b| == 2
    ensures Value(b) == b[0] as int * 0x100 + b[1] as int
  {
    assert b[..1][..0] == [];
    assert Value(b[..1]) == b[0];
  }

  lemma Value4(b: Bytes)
    requires |b| == 4
    ensures Value(b) == b[0] as int * 0x100_0000 + b[1] as int * 0x1_0000 + b[2] as int * 0x100 + b[3] as int
  {
    Value2(b[..2]);
    assert b[..3][..2] == b[..2];
    assert Value(b[..3]) == 256 * Value(b[..2]) + b[2];
  }

  /** The most significant byte comes first. */
  lemma BigEndian(x: uint16, y: uint32)
    ensures Value(PutUint16(x)) == x && Value(PutUint32(y)) == y
  {
    Uint16RoundTrip(x, [0, 0]);
    Uint32RoundTrip(y);
    Value2(PutUint16(x));
    Value4(PutUint32(y));
  }

  lemma Uint16RoundTrip(x: uint16, b: Bytes)
    requires |b| == 2
    ensures GetUint16(PutUint16(x)) == x
    ensures PutUint16(GetUint16(b)) == b
  {
  }

  lemma Uint32RoundTrip(x: uint32)
    ensures GetUint32(PutUint32(x)) == x
  {
    var q1 := x / 0x100;
    var q2 := q1 / 0x100;
    assert x == q1 * 0x100 + x % 0x100 && q1 == q2 * 0x100 + q1 % 0x100;
    assert x / 0x1_0000 == q2 && x / 0x100_0000 == q2 / 0x100;
  }

  lemma Uint32Inverse(b: Bytes)
    requires |b| == 4
    ensures PutUint32(GetUint32(b)) == b
  {
    var x := GetUint32(b);
    assert x / 0x100 == b[0] as int * 0x1_0000 + b[1] as int * 0x100 + b[2] as int;
    assert x / 0x1_0000 == b[0] as int * 0x100 + b[1] as int;
    assert x / 0x100_0000 == b[0];
  }
}
