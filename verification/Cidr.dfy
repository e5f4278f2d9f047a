// Address blocks of trusted proxies: parsing a CIDR, and which addresses it
// trusts. Reading an address or a number from text is a parameter.
module Cidr {
  import opened Bytes
  import opened Options
  import opened Text

  type u32 = x: int | 0 <= x < 0x1_0000_0000
  type u128 = x: int | 0 <= x < 0x1_0000_0000_0000_0000_0000_0000_0000_0000
  type u8 = x: int | 0 <= x < 256

  datatype Ip = V4(v4: u32) | V6(v6: u128)

  function Bits(a: Ip): int { if a.V4? then a.v4 else a.v6 }

  function Width(a: Ip): nat { if a.V4? then 32 else 128 }

  // ---- Word arithmetic ----

  function BitAnd(a: nat, b: nat): nat {
    if a == 0 || b == 0 then 0
    else 2 * BitAnd(a / 2, b / 2) + if a % 2 == 1 && b % 2 == 1 then 1 else 0
  }

  function Shr(a: nat, k: nat): nat {
    PowerPositive(2, k);
    a / Power(2, k)
  }

  lemma {:induction false} PowerSum(a: nat, b: nat)
    ensures Power(2, a + b) == Power(2, a) * Power(2, b)
  {
    if a > 0 {
      PowerSum(a - 1, b);
      assert Power(2, a + b) == 2 * Power(2, a - 1 + b);
      assert 2 * (Power(2, a - 1) * Power(2, b)) == (2 * Power(2, a - 1)) * Power(2, b);
    }
  }

  lemma Width32()
    ensures Power(2, 32) == 0x1_0000_0000
  {
    PowerSum(8, 8);
    PowerSum(16, 16);
  }

  lemma Width128()
    ensures Power(2, 128) == 0x1_0000_0000_0000_0000_0000_0000_0000_0000
  {
    Width32();
    PowerSum(32, 32);
    PowerSum(64, 64);
  }

  lemma FullWidth(a: Ip)
    ensures Power(2, Width(a)) == MaxWord(a) + 1
  {
    if a.V4? { Width32(); } else { Width128(); }
  }

  // All ones shifted right by `p` leaves `w - p` ones.
  lemma OnesShifted(w: nat, p: nat)
    requires p <= w
    ensures Power(2, w) > 0 && Shr(Power(2, w) - 1, p) == Power(2, w - p) - 1
  {
    PowerPositive(2, w);
    PowerPositive(2, p);
    PowerSum(w - p, p);
    Ones(Power(2, w - p), Power(2, p));
  }

  lemma Ones(q: nat, d: nat)
    requires q > 0 && d > 0
    ensures q * d > 0 && (q * d - 1) / d == q - 1
  {
    Multiples(0, q, d);
    assert (q - 1) * d == q * d - d;
    Quotient(q * d - 1, q - 1, d);
  }

  lemma Multiples(a: int, b: int, d: int)
    requires a < b && d > 0
    ensures a * d + d <= b * d
  {
    assert b * d == (b - a - 1) * d + a * d + d;
  }

  lemma Quotient(x: int, q: int, d: int)
    requires d > 0 && q * d <= x < q * d + d
    ensures x / d == q
  {
    var r, m := x / d, x % d;
    assert x == r * d + m;
    if r < q { Multiples(r, q, d); }
    if r > q { Multiples(q, r, d); }
  }

  // Masking with `k` ones keeps the low `k` bits.
  lemma {:induction false} MaskIsRemainder(a: nat, k: nat)
    ensures Power(2, k) > 0 && BitAnd(a, Power(2, k) - 1) == a % Power(2, k)
  {
    if k > 0 {
      MaskIsRemainder(a / 2, k - 1);
      MaskMore(a, Power(2, k - 1));
    }
  }

  lemma MaskMore(a: nat, h: nat)
    requires h > 0 && BitAnd(a / 2, h - 1) == a / 2 % h
    ensures BitAnd(a, 2 * h - 1) == a % (2 * h)
  {
    HalveMask(h);
    Halve(a, h);
  }

  lemma HalveMask(h: nat)
    requires h > 0
    ensures (2 * h - 1) / 2 == h - 1 && (2 * h - 1) % 2 == 1
  {
  }

  lemma Halve(a: nat, h: nat)
    requires h > 0
    ensures a % (2 * h) == 2 * ((a / 2) % h) + a % 2
  {
    var b := a / 2;
    var q, r := b / h, b % h;
    Euclid(b, h);
    assert 2 * (q * h) == q * (2 * h);
    Remainder(a, q, 2 * h, 2 * r + a % 2);
  }

  lemma Euclid(b: nat, h: nat)
    requires h > 0
    ensures b == b / h * h + b % h
  {
  }

  lemma Remainder(x: int, q: int, d: int, r: int)
    requires d > 0 && 0 <= r < d && x == q * d + r
    ensures x % d == r
  {
    Quotient(x, q, d);
  }

  // ---- The predicates of the source ----

  function MaxWord(a: Ip): nat { if a.V4? then 0xFFFF_FFFF else 0xFFFF_FFFF_FFFF_FFFF_FFFF_FFFF_FFFF_FFFF }

  predicate HostBitsClear(a: Ip, prefix: nat) {
    prefix == Width(a) || BitAnd(Bits(a), Shr(MaxWord(a), prefix)) == 0
  }

  predicate InNetwork(a: Ip, net: Ip, prefix: nat)
    requires prefix <= Width(net)
  {
    && a.V4? == net.V4?
    && (prefix == 0 || Shr(Bits(a), Width(net) - prefix) == Shr(Bits(net), Width(net) - prefix))
  }

  // An IPv4-mapped IPv6 address is its IPv4 form.
  function Canonical(a: Ip): Ip {
    if a.V6? && a.v6 / 0x1_0000_0000 == 0xFFFF then V4(a.v6 % 0x1_0000_0000) else a
  }

  datatype CidrError = MissingPrefix | Address | Prefix | HostBitsSet

  type Block = (Ip, u8)

  function CheckBlock(a: Ip, prefix: u8): Result<Block, CidrError> {
    if prefix > Width(a) then Err(Prefix)
    else if !HostBitsClear(a, prefix) then Err(HostBitsSet)
    else if a.V6? && Canonical(a).V4? then
      if prefix < 96 then Err(Prefix) else Ok((Canonical(a), prefix as int - 96))
    else Ok((a, prefix))
  }

  function SplitOnce(s: string): Option<(string, string)> {
    if s == "" then None
    else if s[0] == '/' then Some(("", s[1..]))
    else
      match SplitOnce(s[1..])
      case None => None
      case Some((left, right)) => Some(([s[0]] + left, right))
  }

  // The text before and after the first slash.
  lemma {:induction false} SplitOnceExactly(s: string)
    ensures SplitOnce(s).None? <==> '/' !in s
    ensures SplitOnce(s).Some? ==> var (left, right) := SplitOnce(s).value; s == left + "/" + right && '/' !in left
  {
    if s != "" {
      assert s == [s[0]] + s[1..];
      SplitOnceExactly(s[1..]);
    }
  }

  function ParseCidr(spec: string, ip: string -> Option<Ip>, number: string -> Option<u8>): Result<Block, CidrError> {
    match SplitOnce(spec)
    case None => Err(MissingPrefix)
    case Some((left, right)) =>
      match ip(Trim(left))
      case None => Err(Address)
      case Some(a) =>
        match number(Trim(right))
        case None => Err(Prefix)
        case Some(p) => CheckBlock(a, p)
  }

  // ---- What a block trusts ----

  function Size(a: Ip, prefix: nat): (n: nat)
    requires prefix <= Width(a)
    ensures n > 0
  {
    PowerPositive(2, Width(a) - prefix);
    Power(2, Width(a) - prefix)
  }

  // No host bits means the address is a multiple of the block size.
  lemma HostBitsClearIff(a: Ip, prefix: nat)
    requires prefix <= Width(a)
    ensures HostBitsClear(a, prefix) <==> Bits(a) % Size(a, prefix) == 0
  {
    FullWidth(a);
    OnesShifted(Width(a), prefix);
    MaskIsRemainder(Bits(a), Width(a) - prefix);
  }

  lemma InNetworkIff(a: Ip, net: Ip, prefix: nat)
    requires prefix <= Width(net) && Bits(net) % Size(net, prefix) == 0
    ensures InNetwork(a, net, prefix) <==>
              a.V4? == net.V4? && Bits(net) <= Bits(a) <= Bits(net) + Size(net, prefix) - 1
  {
    var s := Size(net, prefix);
    var n, x := Bits(net), Bits(a);
    if prefix == 0 {
      FullWidth(net);
      WholeRange(n, s);
    } else {
      SameBlock(x, n, s);
    }
  }

  lemma WholeRange(n: nat, s: nat)
    requires n < s && n % s == 0
    ensures n == 0
  {
  }

  lemma SameBlock(x: nat, n: nat, s: nat)
    requires s > 0 && n % s == 0
    ensures x / s == n / s <==> n <= x <= n + s - 1
  {
    var q := n / s;
    assert n == q * s;
    if n <= x <= n + s - 1 { Quotient(x, q, s); }
  }

  // The subtraction of 96 never fails: a mapped address with clear host bits
  // has a prefix of at least 96.
  lemma MappedPrefix(a: Ip, prefix: u8)
    requires a.V6? && Canonical(a).V4? && prefix <= 128 && HostBitsClear(a, prefix)
    ensures prefix >= 96
  {
    HostBitsClearIff(a, prefix);
    if prefix < 96 {
      Width32();
      PowerSum(33, 95 - prefix);
      PowerSum(1, 32);
      EvenAbove(a.v6, Power(2, 95 - prefix));
    }
  }

  lemma EvenAbove(n: nat, m: nat)
    requires m > 0 && n % (0x2_0000_0000 * m) == 0
    ensures n / 0x1_0000_0000 % 2 == 0
  {
    var k := n / (0x2_0000_0000 * m);
    assert n == k * (0x2_0000_0000 * m);
    assert k * (0x2_0000_0000 * m) == (2 * (k * m)) * 0x1_0000_0000;
    Quotient(n, 2 * (k * m), 0x1_0000_0000);
  }

  // A 128-bit number for every address: IPv4 addresses in mapped form.
  function Wide(a: Ip): nat {
    if a.V4? then 0xFFFF_0000_0000 + a.v4 as int else a.v6
  }

  lemma WideCanonical(a: Ip)
    ensures Wide(Canonical(a)) == Wide(a)
    ensures Canonical(a).V4? <==> 0xFFFF_0000_0000 <= Wide(a) <= 0xFFFF_FFFF_FFFF
  {
  }

  // An accepted block trusts an address exactly when its canonical form lies
  // in the block's numeric range; a mapped block trusts exactly the IPv4
  // addresses of the 128-bit block as written. Only the error for a wide
  // prefix and the one for host bits remain.
  lemma BlockTrustsRange(a: Ip, prefix: u8, x: Ip)
    ensures CheckBlock(a, prefix) == Err(Prefix) <==> prefix > Width(a)
    ensures CheckBlock(a, prefix) == Err(HostBitsSet) <==>
              prefix <= Width(a) && Bits(a) % Size(a, prefix) != 0
    ensures CheckBlock(a, prefix).Ok? ==>
              var (net, p) := CheckBlock(a, prefix).value;
              && p <= Width(net)
              && net == Canonical(net)
              && (InNetwork(Canonical(x), net, p) <==>
                    && Canonical(x).V4? == Canonical(a).V4?
                    && Wide(a) <= Wide(x) <= Wide(a) + Size(a, prefix) - 1)
  {
    if prefix <= Width(a) {
      HostBitsClearIff(a, prefix);
      if HostBitsClear(a, prefix) {
        if a.V6? && Canonical(a).V4? {
          MappedPrefix(a, prefix);
          MappedBlock(a, prefix, x);
        } else {
          WideCanonical(x);
          InNetworkIff(Canonical(x), a, prefix);
        }
      }
    }
  }

  lemma MappedBlock(a: Ip, prefix: u8, x: Ip)
    requires a.V6? && Canonical(a).V4? && 96 <= prefix <= 128 && Bits(a) % Size(a, prefix) == 0
    ensures InNetwork(Canonical(x), Canonical(a), prefix as int - 96) <==>
              && Canonical(x).V4?
              && Wide(a) <= Wide(x) <= Wide(a) + Size(a, prefix) - 1
  {
    var net, p := Canonical(a), prefix as int - 96;
    assert Size(net, p) == Size(a, prefix);
    WideCanonical(x);
    WideCanonical(a);
    LowPart(a, prefix);
    InNetworkIff(Canonical(x), net, p);
  }

  lemma LowPart(a: Ip, prefix: u8)
    requires a.V6? && Canonical(a).V4? && 96 <= prefix <= 128 && Bits(a) % Size(a, prefix) == 0
    ensures Bits(Canonical(a)) % Size(a, prefix) == 0
  {
    var k := 128 - prefix as int;
    Width32();
    PowerSum(k, 32 - k);
    LowMultiple(a.v6, Power(2, k), Power(2, 32 - k));
  }

  lemma LowMultiple(n: nat, s: nat, m: nat)
    requires s > 0 && s * m == 0x1_0000_0000 && n % s == 0
    ensures n % 0x1_0000_0000 % s == 0
  {
    var q, h := n / s, n / 0x1_0000_0000;
    assert n == q * s;
    assert h * (s * m) == (h * m) * s;
    assert n % 0x1_0000_0000 == (q - h * m) * s;
    Quotient(n % 0x1_0000_0000, q - h * m, s);
  }
}
