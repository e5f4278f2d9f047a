// The hexadecimal codec. Text is given as its bytes, one character each.
module Hex {
  import opened Bytes
  import opened Options

  datatype HexError = OddLength | WrongLength | InvalidDigit

  const DIGITS: string := "0123456789abcdef"

  type nibble = x: int | 0 <= x < 16

  // The value of one digit, in either case.
  function Nibble(digit: char): Result<nibble, HexError> {
    if '0' <= digit <= '9' then Ok(digit as int - '0' as int)
    else if 'a' <= digit <= 'f' then Ok(digit as int - 'a' as int + 10)
    else if 'A' <= digit <= 'F' then Ok(digit as int - 'A' as int + 10)
    else Err(InvalidDigit)
  }

  function Lower(c: char): char {
    if 'A' <= c <= 'Z' then (c as int + 32) as char else c
  }

  function Lowercase(s: string): (t: string)
    ensures |t| == |s|
  {
    if s == "" then "" else Lowercase(s[..|s| - 1]) + [Lower(s[|s| - 1])]
  }

  function Join(high: nibble, low: nibble): byte {
    var h: int, l: int := high, low;
    h * 16 + l
  }

  // ---- Reference definitions ----

  function HexOf(b: Bytes): (t: string)
    ensures |t| == 2 * |b|
  {
    if b == [] then ""
    else
      var last: int := b[|b| - 1];
      HexOf(b[..|b| - 1]) + [DIGITS[last / 16]] + [DIGITS[last % 16]]
  }

  predicate ValidDigits(text: string) {
    forall c | c in text :: Nibble(c).Ok?
  }

  function BytesOf(text: string): (b: Bytes)
    requires |text| % 2 == 0 && ValidDigits(text)
    ensures |b| == |text| / 2
  {
    if text == "" then []
    else
      var n := |text|;
      BytesOf(text[..n - 2]) + [Join(Nibble(text[n - 2]).value, Nibble(text[n - 1]).value)]
  }

  function Decoded(text: string): Result<Bytes, HexError> {
    if |text| % 2 != 0 then Err(OddLength)
    else if !ValidDigits(text) then Err(InvalidDigit)
    else Ok(BytesOf(text))
  }

  lemma DigitOfNibble(c: char)
    requires Nibble(c).Ok?
    ensures DIGITS[Nibble(c).value] == Lower(c)
  {
  }

  lemma NibbleOfDigit(v: nibble)
    ensures Nibble(DIGITS[v]) == Ok(v)
  {
  }

  lemma Joined(high: nibble, low: nibble)
    ensures Join(high, low) / 16 == high && Join(high, low) % 16 == low
  {
  }

  lemma HexOfMore(b: Bytes, high: nibble, low: nibble)
    ensures HexOf(b + [Join(high, low)]) == HexOf(b) + [DIGITS[high]] + [DIGITS[low]]
  {
    Joined(high, low);
    assert (b + [Join(high, low)])[..|b|] == b;
  }

  lemma LowercaseMore(s: string, c: char)
    ensures Lowercase(s + [c]) == Lowercase(s) + [Lower(c)]
  {
    assert (s + [c])[..|s|] == s;
  }

  lemma DecodedMore(s: string, high: char, low: char)
    requires Decoded(s).Ok? && Nibble(high).Ok? && Nibble(low).Ok?
    ensures Decoded(s + [high] + [low]) == Ok(Decoded(s).value + [Join(Nibble(high).value, Nibble(low).value)])
  {
    assert (s + [high] + [low])[..|s|] == s;
  }

  // Decoding an encoding gives the bytes back.
  lemma {:induction false} DecodeEncode(b: Bytes)
    ensures Decoded(HexOf(b)) == Ok(b)
  {
    if b != [] {
      var init, last: int := b[..|b| - 1], b[|b| - 1];
      DecodeEncode(init);
      NibbleOfDigit(last / 16);
      NibbleOfDigit(last % 16);
      DecodedMore(HexOf(init), DIGITS[last / 16], DIGITS[last % 16]);
      assert b == init + [last];
    }
  }

  // Encoding a decoding gives the text in lower case.
  lemma {:induction false} EncodeDecode(text: string)
    requires Decoded(text).Ok?
    ensures HexOf(Decoded(text).value) == Lowercase(text)
  {
    if text != "" {
      var init, high, low := text[..|text| - 2], text[|text| - 2], text[|text| - 1];
      EncodeDecode(init);
      DigitOfNibble(high);
      DigitOfNibble(low);
      assert text == init + [high] + [low];
      LowercaseMore(init, high);
      LowercaseMore(init + [high], low);
      HexOfMore(BytesOf(init), Nibble(high).value, Nibble(low).value);
    }
  }

  // The base16 vector of section 10 of RFC 4648 for "foo".
  lemma ReferenceEncoding()
    ensures HexOf(Ascii("foo")) == "666f6f"
  {
    var b: Bytes := [0x66, 0x6F, 0x6F];
    assert Ascii("foo") == b;
    assert HexOf(b[..1]) == "66" by { assert b[..1][..0] == []; }
    assert HexOf(b[..2]) == "666f" by { assert b[..2][..1] == b[..1]; }
    assert b[..3] == b && b[..3][..2] == b[..2];
  }

  // ---- The codec ----

  method Encode(b: Bytes) returns (out: string)
    ensures out == HexOf(b)
  {
    out := "";
    for k := 0 to |b|
      invariant out == HexOf(b[..k])
    {
      var byte: int := b[k];
      out := out + [DIGITS[byte / 16]];
      out := out + [DIGITS[byte % 16]];
      assert b[..k + 1][..k] == b[..k];
    }
    assert b[..|b|] == b;
  }

  // `out` must have half the length of the text. A failed call may leave a
  // partial decode behind.
  method DecodeToSlice(text: string, out: array<byte>) returns (r: Result<(), HexError>)
    modifies out
    ensures r.Ok? <==> Decoded(text).Ok? && |text| == 2 * out.Length
    ensures r.Ok? ==> out[..] == Decoded(text).value
    ensures r.Err? ==> r.error ==
                       if |text| % 2 == 0 && |text| / 2 != out.Length then WrongLength else Decoded(text).error
  {
    if |text| % 2 != 0 { return Err(OddLength); }
    if |text| / 2 != out.Length { return Err(WrongLength); }
    for k := 0 to out.Length
      invariant Decoded(text[..2 * k]) == Ok(out[..k])
    {
      var t := text[..2 * k + 2];
      assert t[..2 * k] == text[..2 * k];
      assert text[2 * k] in text && text[2 * k + 1] in text;
      var high := Nibble(text[2 * k]);
      if high.Err? { return Err(high.error); }
      var low := Nibble(text[2 * k + 1]);
      if low.Err? { return Err(low.error); }
      out[k] := Join(high.value, low.value);
      assert out[..k + 1] == out[..k] + [out[k]];
    }
    assert text[..|text|] == text && out[..out.Length] == out[..];
    r := Ok(());
  }

  method Decode(text: string) returns (r: Result<Bytes, HexError>)
    ensures r == Decoded(text)
  {
    var out := new byte[|text| / 2];
    var status := DecodeToSlice(text, out);
    match status
    case Err(e) => return Err(e);
    case Ok(_) => return Ok(out[..]);
  }
}
