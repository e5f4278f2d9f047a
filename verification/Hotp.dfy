// HOTP codes: the value of section 5.3 of RFC 4226 and verification over a
// window of counters. The HMACs and the base32 decoding of the secret are
// parameters.
module Hotp {
  import opened Bytes
  import opened Options
  import opened Text

  const U64_MAX: nat := 0xFFFF_FFFF_FFFF_FFFF
  const MIN_DIGITS: nat := 6
  const MAX_DIGITS: nat := 10
  const MIN_SECRET_BYTES: nat := 16

  type u64 = x: int | 0 <= x <= U64_MAX

  datatype Algorithm = Sha1 | Sha256 | Sha512

  type Digest20 = b: Bytes | |b| == 20 witness Zeros(20)
  type Digest32 = b: Bytes | |b| == 32 witness Zeros(32)
  type Digest64 = b: Bytes | |b| == 64 witness Zeros(64)

  datatype Hmacs = Hmacs(
    sha1: (Bytes, Bytes) -> Digest20,
    sha256: (Bytes, Bytes) -> Digest32,
    sha512: (Bytes, Bytes) -> Digest64)

  // ---- The value of a counter ----

  function Offset(digest: Bytes): nat
    requires |digest| > 0
  {
    digest[|digest| - 1] as int % 16
  }

  // Dynamic truncation: four bytes at the offset the last byte names, without
  // the top bit.
  function Truncate(digest: Bytes): nat
    requires |digest| >= 20
  {
    var o := Offset(digest);
    (digest[o] as int % 128) * 0x100_0000 + digest[o + 1] as int * 0x1_0000
    + digest[o + 2] as int * 0x100 + digest[o + 3] as int
  }

  // The offset is the last byte's low four bits, it leaves four bytes, and the
  // result is the low 31 bits of the number there.
  lemma TruncateIsLow31(digest: Bytes)
    requires |digest| >= 20
    ensures var o := digest[|digest| - 1] as int % 16;
            o + 4 <= |digest| && Truncate(digest) == Number(digest[o..o + 4]) % 0x8000_0000
  {
    var o := Offset(digest);
    NumberOfFour(digest[o..o + 4]);
    DropTopBit(digest[o], digest[o + 1], digest[o + 2], digest[o + 3]);
  }

  // The example of section 5.4 of RFC 4226.
  lemma ReferenceTruncation()
    ensures var digest := [0x1F, 0x86, 0x98, 0x69, 0x0E, 0x02, 0xCA, 0x16, 0x61, 0x85,
                           0x50, 0xEF, 0x7F, 0x19, 0xDA, 0x8E, 0x94, 0x5B, 0x55, 0x5A];
            Truncate(digest) == 0x50EF_7F19 && Truncate(digest) % Power(10, 6) == 872921
  {
    assert Power(10, 6) == 1000000;
  }

  lemma NumberOfFour(b: Bytes)
    requires |b| == 4
    ensures Number(b) == b[0] as int * 0x100_0000 + b[1] as int * 0x1_0000 + b[2] as int * 0x100 + b[3] as int
  {
    assert b[..3][..2] == b[..2] && b[..2][..1] == b[..1] && b[..1][..0] == [];
    assert Number(b[..1]) == b[0];
    assert Number(b[..2]) == Number(b[..1]) * 256 + b[1] as int;
    assert Number(b[..3]) == Number(b[..2]) * 256 + b[2] as int;
  }

  lemma DropTopBit(a: byte, b: byte, c: byte, d: byte)
    ensures (a as int * 0x100_0000 + b as int * 0x1_0000 + c as int * 0x100 + d as int) % 0x8000_0000
         == (a as int % 128) * 0x100_0000 + b as int * 0x1_0000 + c as int * 0x100 + d as int
  {
    var top := a as int / 128;
    assert a as int == top * 128 + a as int % 128 && 0 <= top <= 1;
  }

  function Binary(h: Hmacs, secret: Bytes, counter: u64, algorithm: Algorithm): nat {
    var message := BigEndian(counter, 8);
    match algorithm
    case Sha1 => Truncate(h.sha1(secret, message))
    case Sha256 => Truncate(h.sha256(secret, message))
    case Sha512 => Truncate(h.sha512(secret, message))
  }

  function Value(h: Hmacs, secret: Bytes, counter: u64, digits: nat, algorithm: Algorithm): (r: nat)
    ensures r < Power(10, digits)
  {
    PowerPositive(10, digits);
    Binary(h, secret, counter, algorithm) % Power(10, digits)
  }

  // The MAC of the counter's eight big-endian bytes.
  function Digest(h: Hmacs, secret: Bytes, counter: u64, algorithm: Algorithm): (d: Bytes)
    ensures |d| >= 20
  {
    match algorithm
    case Sha1 => h.sha1(secret, BigEndian(counter, 8))
    case Sha256 => h.sha256(secret, BigEndian(counter, 8))
    case Sha512 => h.sha512(secret, BigEndian(counter, 8))
  }

  // For every algorithm: the low 31 bits at the offset, modulo ten to the
  // number of digits; and the eight bytes stand for the counter.
  lemma ValueIsTruncatedMac(h: Hmacs, secret: Bytes, counter: u64, digits: nat, algorithm: Algorithm)
    ensures Power(10, digits) > 0
    ensures var d := Digest(h, secret, counter, algorithm);
            var o := d[|d| - 1] as int % 16;
            && o + 4 <= |d|
            && Value(h, secret, counter, digits, algorithm) == Number(d[o..o + 4]) % 0x8000_0000 % Power(10, digits)
    ensures Number(BigEndian(counter, 8)) == counter
  {
    TruncateIsLow31(Digest(h, secret, counter, algorithm));
    PowerPositive(10, digits);
    assert Power(256, 4) == 0x1_0000_0000;
    assert Power(256, 8) == U64_MAX + 1;
    NumberOfBigEndian(counter, 8);
  }

  // ---- Decimal text ----

  predicate Digit(c: char) { '0' <= c <= '9' }

  predicate AllDigits(s: string) { forall c | c in s :: Digit(c) }

  function Decimal(s: string): nat
    requires AllDigits(s)
  {
    if s == "" then 0
    else
      assert Digit(s[|s| - 1]);
      Decimal(s[..|s| - 1]) * 10 + (s[|s| - 1] as int - '0' as int)
  }

  // The last `width` decimal digits of `n`: its zero-padded text when it fits.
  function Padded(n: nat, width: nat): (s: string)
    ensures |s| == width && AllDigits(s)
  {
    if width == 0 then "" else Padded(n / 10, width - 1) + [('0' as int + n % 10) as char]
  }

  lemma {:induction false} DecimalOfPadded(n: nat, width: nat)
    requires n < Power(10, width)
    ensures Decimal(Padded(n, width)) == n
  {
    if width > 0 {
      DecimalOfPadded(n / 10, width - 1);
      assert Padded(n, width)[..width - 1] == Padded(n / 10, width - 1);
    }
  }

  lemma {:induction false} PaddedOfDecimal(s: string)
    requires AllDigits(s)
    ensures Decimal(s) < Power(10, |s|) && Padded(Decimal(s), |s|) == s
  {
    if s != "" {
      var init, last := s[..|s| - 1], s[|s| - 1];
      PaddedOfDecimal(init);
      assert Digit(last);
      assert Decimal(s) / 10 == Decimal(init) && Decimal(s) % 10 == last as int - '0' as int;
    }
  }

  // Equal numbers mean equal padded codes.
  lemma SameCode(s: string, n: nat, width: nat)
    requires n < Power(10, width)
    ensures s == Padded(n, width) <==> |s| == width && AllDigits(s) && Decimal(s) == n
  {
    DecimalOfPadded(n, width);
    if AllDigits(s) { PaddedOfDecimal(s); }
  }

  // Reading digits as a 64-bit number.
  function ParseU64(s: string): Option<u64>
    requires AllDigits(s)
  {
    if Decimal(s) <= U64_MAX then Some(Decimal(s)) else None
  }

  lemma ShortCodesParse(s: string)
    requires AllDigits(s) && |s| <= MAX_DIGITS
    ensures ParseU64(s) == Some(Decimal(s))
  {
    PaddedOfDecimal(s);
    PowerGrows(|s|, MAX_DIGITS);
    assert Power(10, 5) == 100000;
    assert Power(10, 10) == 100000 * 100000;
  }

  lemma {:induction false} PowerGrows(a: nat, b: nat)
    requires a <= b
    ensures Power(10, a) <= Power(10, b)
    decreases b - a
  {
    if a < b { PowerGrows(a + 1, b); }
  }

  // ---- Verification ----

  // The value of each counter.
  function Values(h: Hmacs, secret: Bytes, length: nat, algorithm: Algorithm): u64 -> nat {
    (c: u64) => Value(h, secret, c, length, algorithm)
  }

  lemma ValuesFit(h: Hmacs, secret: Bytes, length: nat, algorithm: Algorithm)
    ensures forall c: u64 :: Values(h, secret, length, algorithm)(c) < Power(10, length)
  {
  }

  // Six to ten digits and a secret of at least 128 bits.
  predicate Usable(secret: Option<Bytes>, length: nat) {
    6 <= length <= 10 && secret.Some? && |secret.value| >= 16
  }

  // None of the counters from `lo` below `hi` has this code.
  ghost predicate NoneCodes(value: u64 -> nat, text: string, lo: int, hi: int, length: nat) {
    forall c: u64 | lo <= c < hi :: text != Padded(value(c), length)
  }

  // Every counter of the window is tried; only the first match is recorded.
  method Scan(value: u64 -> nat, text: string, supplied: Option<u64>, counter: u64, length: nat, window: u64)
    returns (matched: Option<u64>)
    requires forall c: u64 :: value(c) < Power(10, length)
    requires supplied.Some? <==> |text| == length && AllDigits(text)
    requires supplied.Some? ==> supplied.value == Decimal(text)
    ensures matched.Some? ==>
              && counter <= matched.value <= counter + window
              && text == Padded(value(matched.value), length)
              && NoneCodes(value, text, counter, matched.value, length)
    ensures matched.None? ==> NoneCodes(value, text, counter, counter + window + 1, length)
  {
    matched := None;
    var suppliedValue: u64 := if supplied.Some? then supplied.value else U64_MAX;
    var offset := 0;
    while offset <= window
      invariant 0 <= offset <= window + 1
      invariant matched.Some? ==>
                  && counter <= matched.value < counter + offset
                  && text == Padded(value(matched.value), length)
                  && NoneCodes(value, text, counter, matched.value, length)
      invariant matched.None? ==> NoneCodes(value, text, counter, counter + offset, length)
    {
      if counter + offset > U64_MAX { break; }
      var candidate: u64 := counter + offset;
      var expected := value(candidate);
      var isMatch := supplied.Some? && expected == suppliedValue;
      SameCode(text, expected, length);
      if isMatch && matched.None? {
        matched := Some(candidate);
      }
      offset := offset + 1;
    }
  }

  // The least counter in the window, cut off at the largest, whose code is the
  // trimmed input digit for digit. `secret` is None when it is not base32.
  method Verify(h: Hmacs, secret: Option<Bytes>, code: string, counter: u64, length: nat, window: u64,
                algorithm: Algorithm) returns (matched: Option<u64>)
    ensures matched.Some? ==>
              && Usable(secret, length)
              && counter <= matched.value <= counter + window
              && var values := Values(h, secret.value, length, algorithm);
              && Trim(code) == Padded(values(matched.value), length)
              && NoneCodes(values, Trim(code), counter, matched.value, length)
    ensures matched.None? && Usable(secret, length) ==>
              NoneCodes(Values(h, secret.value, length, algorithm), Trim(code), counter, counter + window + 1, length)
  {
    if !(MIN_DIGITS <= length <= MAX_DIGITS) { return None; }
    if secret.None? { return None; }
    if |secret.value| < MIN_SECRET_BYTES { return None; }
    var trimmed := Trim(code);
    var supplied: Option<u64> := None;
    if |trimmed| == length && AllDigits(trimmed) {
      supplied := ParseU64(trimmed);
      ShortCodesParse(trimmed);
    }
    ValuesFit(h, secret.value, length, algorithm);
    matched := Scan(Values(h, secret.value, length, algorithm), trimmed, supplied, counter, length, window);
  }
}
