/** The time stamp a ping carries and its pong returns (internal/tunnel/tunnel.go sendPing, handlePong):
    eight bytes, shifted out of an int64 and or-ed back into one.
 */
module Ping {
  import opened Basics

  type int64 = x: int | -0x8000_0000_0000_0000 <= x < 0x8000_0000_0000_0000

  function Pow2(n: nat): (p: nat)
    ensures p >= 1
  {
    if n == 0 then 1 else 2 * Pow2(n - 1)
  }

  /** Arithmetic shift right, and shift left of unsigned integers. */
  function Shr(x: int, k: nat): int { x / Pow2(k) }

  function Shl(x: nat, k: nat): nat { x * Pow2(k) }

  /** Bitwise or of unsigned integers. */
  function Or(a: nat, b: nat): nat {
    if a == 0 && b == 0 then 0 else 2 * Or(a / 2, b / 2) + Max(a % 2, b % 2)
  }

  /** An int64 as 64 bits, and back. */
  function ToBits(x: int64): nat {
    x % 0x1_0000_0000_0000_0000
  }

  function FromBits(u: nat): int64 {
    var low := u % 0x1_0000_0000_0000_0000;
    if low < 0x8000_0000_0000_0000 then low else low - 0x1_0000_0000_0000_0000
  }

  lemma {:induction false} OrDisjoint(a: nat, b: nat, k: nat)
    requires b < Pow2(k)
    ensures Or(Shl(a, k), b) == Shl(a, k) + b
  {
    if k > 0 {
      var p := a * Pow2(k - 1);
      assert a * Pow2(k) == 2 * p;
      OrDisjoint(a, b / 2, k - 1);
      OrDouble(p, b);
    } else {
      OrZero(a);
    }
  }

  lemma OrDouble(p: nat, b: nat)
    ensures Or(2 * p, b) == 2 * Or(p, b / 2) + b % 2
  {
  }

  lemma {:induction false} OrZero(a: nat)
    ensures Or(a, 0) == a
  {
    if a > 0 {
      OrZero(a / 2);
    }
  }

  /** Shifting right by eight bits less gives one more byte. */
  lemma ShiftLess(x: int, k: nat)
    ensures Pow2(k + 8) == 256 * Pow2(k)
    ensures Shr(x, k) == 256 * Shr(x, k + 8) + Shr(x, k) % 256
  {
    var p := Pow2(k);
    assert Pow2(k + 8) == 2 * Pow2(k + 7) == 4 * Pow2(k + 6) == 8 * Pow2(k + 5) == 16 * Pow2(k + 4);
    assert Pow2(k + 4) == 2 * Pow2(k + 3) == 4 * Pow2(k + 2) == 8 * Pow2(k + 1) == 16 * p;
    DivideTwice(x, p);
  }

  lemma DivideTwice(x: int, p: nat)
    requires p >= 1
    ensures x / p / 256 == x / (256 * p)
  {
    var q, r := x / p, x % p;
    var q', r' := q / 256, q % 256;
    Regroup(p, q', r', r);
    Quotient(x, 256 * p, q', r' * p + r);
  }

  lemma Regroup(p: nat, q: int, r: nat, low: nat)
    requires r < 256 && low < p
    ensures p * (256 * q + r) + low == 256 * p * q + (r * p + low)
    ensures 0 <= r * p && r * p + low < 256 * p
  {
    assert p * (256 * q + r) == 256 * (p * q) + p * r;
    assert 256 * p * q == 256 * (p * q);
    assert r * p <= 255 * p;
  }

  lemma Quotient(x: int, d: nat, q: int, r: nat)
    requires x == d * q + r && r < d
    ensures x / d == q
  {
    Unique(d, x / d, x % d, q, r);
  }

  lemma Unique(d: nat, q: int, r: nat, q': int, r': nat)
    requires d * q + r == d * q' + r' && r < d && r' < d
    ensures q == q'
  {
    var diff := q - q';
    assert d * diff == r' - r;
    if diff >= 1 {
      Multiple(d, diff);
    } else if diff <= -1 {
      Multiple(d, -diff);
    }
  }

  lemma Multiple(d: int, n: int)
    requires d >= 0 && n >= 1
    ensures d * n >= d && d * -n <= -d
  {
    assert d * (n - 1) >= 0;
    assert d * -n == -(d * n);
  }

  lemma Pow2Of64()
    ensures Pow2(0) == 1 && Pow2(64) == 0x1_0000_0000_0000_0000
  {
    assert Pow2(8) == 256;
    ShiftLess(0, 8);
    ShiftLess(0, 16);
    ShiftLess(0, 24);
    ShiftLess(0, 32);
    ShiftLess(0, 40);
    ShiftLess(0, 48);
    ShiftLess(0, 56);
  }

  lemma ValueNext(b: Bytes, i: nat)
    requires i < |b|
    ensures Value(b[..i + 1]) == 256 * Value(b[..i]) + b[i]
  {
    assert b[..i + 1][..i] == b[..i];
  }

  lemma {:induction false} ValueBelow(b: Bytes)
    ensures Value(b) < Pow2(8 * |b|)
  {
    if b != [] {
      ValueBelow(b[..|b| - 1]);
      ShiftLess(0, 8 * (|b| - 1));
    }
  }

  /** The i highest of the eight bytes of a number, as an unsigned number. */
  ghost function Top(now: int, i: nat): int
    requires i <= 8
  {
    Shr(now, 64 - 8 * i) - Shr(now, 64) * Pow2(8 * i)
  }

  lemma NextByte(now: int, i: nat)
    requires i < 8
    ensures 256 * Top(now, i) + Shr(now, 56 - 8 * i) % 256 == Top(now, i + 1)
  {
    hide Pow2, Shr;
    ShiftLess(now, 56 - 8 * i);
    ShiftLess(0, 8 * i);
    var high, p := Shr(now, 64), Pow2(8 * i);
    assert high * (256 * p) == 256 * (high * p);
    assert Pow2(8 * (i + 1)) == Pow2(8 * i + 8);
  }

  lemma TopBytes(now: int64)
    ensures Top(now, 0) == 0 && Top(now, 8) == ToBits(now)
  {
    hide Pow2;
    Pow2Of64();
    assert Top(now, 0) == Shr(now, 64) - Shr(now, 64) * 1;
    assert Top(now, 8) == now - now / 0x1_0000_0000_0000_0000 * 0x1_0000_0000_0000_0000;
  }

  /** The loop of sendPing: its eight bytes are the 64 bits of the time. */
  method Stamp(now: int64) returns (timestamp: array<byte>)
    ensures fresh(timestamp) && timestamp.Length == 8
    ensures Value(timestamp[..]) == ToBits(now)
  {
    timestamp := new byte[8](_ => 0);
    TopBytes(now);
    assert Value(timestamp[..0]) == 0;
    hide Value, Shr, Top, ToBits;
    for i := 0 to 8
      invariant Value(timestamp[..i]) == Top(now, i)
    {
      NextByte(now, i);
      ghost var before := timestamp[..i];
      timestamp[i] := Shr(now, 56 - 8 * i) % 256;
      assert timestamp[..][..i] == before && timestamp[..][..i + 1] == timestamp[..i + 1];
      ValueNext(timestamp[..], i);
    }
    assert timestamp[..8] == timestamp[..];
  }

  /** A byte shifted below the bits already there is added to them. */
  lemma OrByte(high: nat, b: byte, k: nat)
    ensures Or(Shl(high, k + 8), Shl(b, k)) == Shl(256 * high + b, k)
  {
    hide Pow2, Or;
    ShiftLess(0, k);
    var p := Pow2(k);
    assert b * p < 256 * p;
    OrDisjoint(high, b * p, k + 8);
    assert high * (256 * p) + b * p == (256 * high + b) * p;
  }

  lemma FitsIn64(payload: Bytes)
    requires |payload| == 8
    ensures Shl(Value(payload), 0) == Value(payload) < 0x1_0000_0000_0000_0000
  {
    ValueBelow(payload);
    Pow2Of64();
  }

  /** The loop of handlePong, on the 64 bits of its int64. */
  method Sent(payload: Bytes) returns (sentTime: int64)
    requires |payload| >= 8
    ensures ToBits(sentTime) == Value(payload[..8])
  {
    var bits: nat := 0;
    assert Shl(Value(payload[..0]), 64) == 0;
    hide Or, Value, Shl, FromBits, ToBits;
    for i := 0 to 8
      invariant bits == Shl(Value(payload[..i]), 64 - 8 * i)
    {
      OrByte(Value(payload[..i]), payload[i], 56 - 8 * i);
      bits := Or(bits, Shl(payload[i], 56 - 8 * i));
      ValueNext(payload, i);
    }
    FitsIn64(payload[..8]);
    BitsRoundTrip(bits);
    sentTime := FromBits(bits);
  }

  lemma BitsRoundTrip(u: nat)
    requires u < 0x1_0000_0000_0000_0000
    ensures ToBits(FromBits(u)) == u
  {
  }

  /** A pong that returns the bytes of the ping gives the time back, for every int64. */
  method PingPong(now: int64) returns (sentTime: int64)
    ensures sentTime == now
  {
    var timestamp := Stamp(now);
    sentTime := Sent(timestamp[..]);
    assert timestamp[..][..8] == timestamp[..];
  }
}
