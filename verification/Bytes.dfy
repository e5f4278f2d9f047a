// Bytes and big-endian numbers.
module Bytes {
  type byte = x: int | 0 <= x < 256
  type Bytes = seq<byte>

  // The low byte of each character: its code for ASCII text.
  function Ascii(s: string): Bytes {
    seq(|s|, i requires 0 <= i < |s| => s[i] as int % 256)
  }

  function Zeros(n: nat): (b: Bytes)
    ensures |b| == n && forall x | x in b :: x == 0
  {
    seq(n, i requires 0 <= i < n => 0)
  }

  function Power(base: nat, e: nat): nat {
    if e == 0 then 1 else base * Power(base, e - 1)
  }

  lemma {:induction false} PowerPositive(base: nat, e: nat)
    requires base > 0
    ensures Power(base, e) > 0
  {
    if e > 0 { PowerPositive(base, e - 1); }
  }

  function BigEndian(n: nat, width: nat): (b: Bytes)
    ensures |b| == width
  {
    if width == 0 then [] else BigEndian(n / 256, width - 1) + [n % 256]
  }

  function Number(b: Bytes): nat {
    if b == [] then 0
    else
      var last: int := b[|b| - 1];
      Number(b[..|b| - 1]) * 256 + last
  }

  lemma {:induction false} NumberOfBigEndian(n: nat, width: nat)
    requires n < Power(256, width)
    ensures Number(BigEndian(n, width)) == n
  {
    if width > 0 {
      NumberOfBigEndian(n / 256, width - 1);
      assert BigEndian(n, width)[..width - 1] == BigEndian(n / 256, width - 1);
    }
  }

  lemma {:induction false} BigEndianOfNumber(b: Bytes)
    ensures Number(b) < Power(256, |b|)
    ensures BigEndian(Number(b), |b|) == b
  {
    if b != [] {
      var n := Number(b);
      BigEndianOfNumber(b[..|b| - 1]);
      assert n / 256 == Number(b[..|b| - 1]) && n % 256 == b[|b| - 1];
    }
  }
}
