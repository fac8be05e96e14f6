/** Bytes, 16-bit words and the rounding the shim's C code relies on. */
module Bits {

  datatype Option<+T> = None | Some(value: T)

  type byte = x: int | 0 <= x < 0x100
  type word = x: int | 0 <= x < 0x1_0000

  /** A conversion to `uint16_t`: reduction modulo 2^16. */
  function ToWord(n: int): word {
    n % 0x1_0000
  }

  /** A conversion of a 16-bit pattern to `int16_t`. */
  function ToInt16(v: word): int {
    if v < 0x8000 then v else v - 0x1_0000
  }

  /** A byte as a plain `char` hands it on: negative from 0x80. */
  function SignExtend(b: byte): (v: int)
    ensures -0x80 <= v < 0x80 && v % 0x100 == b
  {
    if b < 0x80 then b else b as int - 0x100
  }

  /** The two bytes of a word, high byte first, as `put_be16` stores them. */
  function Be16(v: word): seq<byte> {
    [v / 0x100, v % 0x100]
  }

  /** The value of a byte string read high byte first. */
  function FromBe(s: seq<byte>): nat {
    if s == [] then 0 else FromBe(s[..|s| - 1]) * 0x100 + s[|s| - 1]
  }

  /** The value of a byte string read low byte first. */
  function FromLe(s: seq<byte>): nat {
    if s == [] then 0 else FromLe(s[..|s| - 1]) + s[|s| - 1] as int * Shift(|s| - 1)
  }

  /** 256 to the power `n`. */
  function Shift(n: nat): nat {
    if n == 0 then 1 else 0x100 * Shift(n - 1)
  }

  lemma FromBe2(s: seq<byte>)
    requires |s| == 2
    ensures FromBe(s) == s[0] as int * 0x100 + s[1]
  {
    assert s[..1] == [s[0]];
    assert FromBe([s[0]]) == s[0] by {
      assert [s[0]][..0] == [];
    }
  }

  lemma FromBe3(s: seq<byte>)
    requires |s| == 3
    ensures FromBe(s) == s[0] as int * 0x1_0000 + s[1] as int * 0x100 + s[2]
  {
    FromBe2(s[..2]);
  }

  lemma FromLe3(s: seq<byte>)
    requires |s| == 3
    ensures FromLe(s) == s[0] as int + s[1] as int * 0x100 + s[2] as int * 0x1_0000
  {
    var t := s[..2];
    var u := t[..1];
    assert u[..0] == [] && FromLe(u) == s[0];
    assert Shift(1) == 0x100 && Shift(2) == 0x1_0000;
  }

  lemma FromLe4(s: seq<byte>)
    requires |s| == 4
    ensures FromLe(s) == s[0] as int + s[1] as int * 0x100 + s[2] as int * 0x1_0000 + s[3] as int * 0x100_0000
  {
    FromLe3(s[..3]);
    assert Shift(2) == 0x1_0000 && Shift(3) == 0x100_0000;
  }

  /** A list of bytes cut or padded with zeroes to exactly `n`. */
  function Pad(s: seq<byte>, n: nat): (r: seq<byte>)
    ensures |r| == n
    ensures forall i :: 0 <= i < n ==> r[i] == if i < |s| then s[i] else 0
  {
    if n <= |s| then s[..n] else s + seq(n - |s|, _ => 0)
  }

  function Abs(x: real): (r: real)
    ensures r >= 0.0 && (r == x || r == -x)
  {
    if x < 0.0 then -x else x
  }

  function AbsInt(x: int): (r: nat)
    ensures r == x || r == -x
  {
    if x < 0 then -x else x
  }

  /** A product of two quantities, named so that proofs can treat it as one. */
  function Mul(x: real, y: real): real {
    x * y
  }

  function Clamp(x: real, lo: real, hi: real): real {
    if x > hi then hi else if x < lo then lo else x
  }

  /** Clamping goes to the nearest point of the range. */
  lemma ClampNearest(x: real, lo: real, hi: real, y: real)
    requires lo <= y <= hi
    ensures lo <= Clamp(x, lo, hi) <= hi && Abs(Clamp(x, lo, hi) - x) <= Abs(y - x)
  {
  }

  /** `lround` and `llround`: to the nearest integer, halves away from zero. */
  function Lround(x: real): (r: int)
    ensures Abs(r as real - x) <= 0.5
    ensures Abs(r as real - x) == 0.5 ==> Abs(r as real) > Abs(x)
  {
    if x >= 0.0 then (x + 0.5).Floor else -((-x + 0.5).Floor)
  }

  lemma LroundBounds(x: real, lo: int, hi: int)
    requires lo as real <= x <= hi as real
    ensures lo <= Lround(x) <= hi
  {
  }

  lemma LroundOdd(x: real)
    ensures Lround(-x) == -Lround(x)
  {
  }

  lemma Assoc<T>(a: seq<T>, b: seq<T>, c: seq<T>)
    ensures a + (b + c) == (a + b) + c
  {
  }
}
