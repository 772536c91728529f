/**
 * The IPv4 part of Go's net/netip that the lab engine relies on: addresses,
 * prefixes, `ParseAddr`, `ParsePrefix`, `Addr.Next`, `Prefix.Contains`,
 * dotted-quad printing, and the engine's own `last` (nets.go) and
 * `Addr.Truth` (addr.go). A 32-bit address is an integer in [0, 2^32).
 */
module Ipv4 {
  import opened Wrappers
  import opened Strconv

  type u32 = x: int | 0 <= x < 0x1_0000_0000

  /** A `netip.Addr`: the zero (invalid) address, or an IPv4 address. */
  datatype Addr = Invalid | V4(ui: u32)

  type PrefixLen = b: int | 0 <= b <= 32

  /**
   * A valid IPv4 `netip.Prefix`. As `ParsePrefix` leaves it, `addr` may still
   * carry host bits ("10.1.2.3/8" keeps 10.1.2.3).
   */
  datatype Prefix = Prefix(addr: u32, bits: PrefixLen)

  datatype ParseError = BadAddress(input: string) | BadPrefix(input: string)

  /** `Addr.Truth` (addr.go): an address is true exactly when it is valid. */
  function Truth(a: Addr): (r: bool)
    ensures r <==> a != Invalid
  {
    a.V4?
  }

  /** The number of addresses in a prefix: 2^(32 - bits). */
  function BlockSize(p: Prefix): (n: nat)
    ensures n >= 1
  {
    Pow2(32 - p.bits)
  }

  /** The network address of a prefix: its address with every host bit cleared. */
  function Network(p: Prefix): u32 {
    ModAtMost(p.addr, BlockSize(p));
    p.addr - p.addr % BlockSize(p)
  }

  lemma ModAtMost(a: nat, b: nat)
    requires b > 0
    ensures a % b <= a
  {
    if a < b {
      DivModUnique(a, b, 0, a);
    }
  }

  lemma NetworkFacts(p: Prefix)
    ensures Network(p) == (p.addr / BlockSize(p)) * BlockSize(p)
    ensures Network(p) / BlockSize(p) == p.addr / BlockSize(p) && Network(p) % BlockSize(p) == 0
    ensures Network(p) + BlockSize(p) <= 0x1_0000_0000
  {
    Pow2Add(32 - p.bits, p.bits);
    Pow2Values();
    BlockFacts(p.addr, BlockSize(p), Pow2(p.bits));
  }

  /** Rounding `x < b * n` down to a multiple of `b` leaves room for a whole block of `b`. */
  lemma BlockFacts(x: nat, b: nat, n: nat)
    requires b >= 1 && x < b * n
    ensures x - x % b == (x / b) * b
    ensures ((x / b) * b) / b == x / b && ((x / b) * b) % b == 0
    ensures (x / b) * b + b <= b * n
  {
    var q := x / b;
    assert x == q * b + x % b;
    DivModUnique(q * b, b, q, 0);
    if q >= n {
      MulLe(n, q, b);
      assert false;
    }
    MulLe(q + 1, n, b);
    assert (q + 1) * b == q * b + b;
  }

  /** The broadcast address of a prefix: its address with every host bit set. */
  function Broadcast(p: Prefix): u32 {
    NetworkFacts(p);
    Network(p) + BlockSize(p) - 1
  }

  /** `Prefix.Contains`: a valid address whose network bits equal the prefix's. */
  predicate Contains(p: Prefix, a: Addr) {
    a.V4? && a.ui / BlockSize(p) == p.addr / BlockSize(p)
  }

  /** The addresses of a prefix are exactly those from its network address to its broadcast address. */
  lemma ContainsRange(p: Prefix, a: u32)
    ensures Contains(p, V4(a)) <==> Network(p) <= a <= Broadcast(p)
  {
    var b, q := BlockSize(p), p.addr / BlockSize(p);
    NetworkFacts(p);
    if Network(p) <= a <= Broadcast(p) {
      DivModUnique(a, b, q, a - Network(p));
    }
  }

  // ---------------------------------------------------------------------------
  // Octets

  function Octets(ui: u32): (o: seq<byte>)
    ensures |o| == 4
  {
    [ui / 0x100_0000, (ui / 0x1_0000) % 0x100, (ui / 0x100) % 0x100, ui % 0x100]
  }

  function FromOctets(o: seq<byte>): u32
    requires |o| == 4
  {
    (o[0] as int) * 0x100_0000 + (o[1] as int) * 0x1_0000 + (o[2] as int) * 0x100 + o[3]
  }

  lemma OctetsRoundTrip(ui: u32)
    ensures FromOctets(Octets(ui)) == ui
  {
    var a := ui / 0x100_0000;
    var r := ui % 0x100_0000;
    DivModUnique(ui / 0x1_0000, 0x100, a, r / 0x1_0000);
    DivModUnique(ui / 0x100, 0x100, ui / 0x1_0000, (ui / 0x100) % 0x100);
  }

  lemma FromOctetsRoundTrip(o: seq<byte>)
    requires |o| == 4
    ensures Octets(FromOctets(o)) == o
  {
    var ui := FromOctets(o);
    var a, b, c, d: int := o[0], o[1], o[2], o[3];
    DivModUnique(ui, 0x100_0000, a, b * 0x1_0000 + c * 0x100 + d);
    DivModUnique(ui, 0x1_0000, a * 0x100 + b, c * 0x100 + d);
    DivModUnique(a * 0x100 + b, 0x100, a, b);
    DivModUnique(ui, 0x100, a * 0x1_0000 + b * 0x100 + c, d);
    DivModUnique(a * 0x1_0000 + b * 0x100 + c, 0x100, a * 0x100 + b, c);
  }

  // ---------------------------------------------------------------------------
  // Addr.Next

  /** `Addr.Next`: the following address; past 255.255.255.255 (and from the zero address) it is invalid. */
  function Next(a: Addr): (r: Addr)
    ensures a.V4? && a.ui < 0xFFFF_FFFF ==> r == V4(a.ui + 1)
    ensures a == Invalid || a == V4(0xFFFF_FFFF) ==> r == Invalid
  {
    match a
    case Invalid => Invalid
    case V4(ui) => if ui == 0xFFFF_FFFF then Invalid else V4(ui + 1)
  }

  /** `n` successive calls of `Next`; none when `n <= 0`. */
  function Advance(a: Addr, n: int): Addr
    decreases if n <= 0 then 0 else n
  {
    if n <= 0 then a else Advance(Next(a), n - 1)
  }

  /** Stepping forward `n` times adds `n`, and runs off the address space into the invalid address. */
  lemma {:induction false} AdvanceValue(ui: u32, n: nat)
    ensures Advance(V4(ui), n) == if ui + n < 0x1_0000_0000 then V4(ui + n) else Invalid
    decreases n
  {
    if n > 0 {
      if ui == 0xFFFF_FFFF {
        AdvanceInvalid(n - 1);
      } else {
        AdvanceValue(ui + 1, n - 1);
      }
    }
  }

  lemma {:induction false} AdvanceInvalid(n: nat)
    ensures Advance(Invalid, n) == Invalid
  {
    if n > 0 {
      AdvanceInvalid(n - 1);
    }
  }

  // ---------------------------------------------------------------------------
  // last (nets.go)

  /** Bitwise OR of two non-negative integers, bit by bit. */
  function BitOr(x: nat, y: nat): nat
    decreases x + y
  {
    if x == 0 then y
    else if y == 0 then x
    else 2 * BitOr(x / 2, y / 2) + (if x % 2 == 1 || y % 2 == 1 then 1 else 0)
  }

  lemma ModPow2Step(x: nat, h: nat)
    requires h >= 1
    ensures x % Pow2(h) == 2 * ((x / 2) % Pow2(h - 1)) + x % 2
  {
    var b := Pow2(h - 1);
    var y := x / 2;
    DivModUnique(x, 2 * b, y / b, 2 * (y % b) + x % 2);
  }

  /** `x` with its `h` low bits set, one bit at a time. */
  function SetLowBits(x: nat, h: nat): nat {
    if h == 0 then x else 2 * SetLowBits(x / 2, h - 1) + 1
  }

  /** OR-ing with h low one-bits sets the h low bits. */
  lemma {:induction false} BitOrLowOnes(x: nat, h: nat)
    ensures BitOr(x, Pow2(h) - 1) == SetLowBits(x, h)
  {
    if h > 0 {
      var q := Pow2(h - 1);
      BitOrLowOnes(x / 2, h - 1);
      if x > 0 {
        BitOrOddStep(x, q);
      } else {
        ZeroSetLowBits(h);
      }
    }
  }

  lemma {:induction false} ZeroSetLowBits(h: nat)
    ensures SetLowBits(0, h) == Pow2(h) - 1
  {
    if h > 0 {
      ZeroSetLowBits(h - 1);
    }
  }

  /** One step of the OR with an odd all-ones value: the low bit is set and the rest is shifted. */
  lemma BitOrOddStep(x: nat, q: nat)
    requires x > 0 && q >= 1
    ensures BitOr(x, 2 * q - 1) == 2 * BitOr(x / 2, q - 1) + 1
  {
    DivModUnique(2 * q - 1, 2, q - 1, 1);
  }

  /** Setting the h low bits keeps the high bits: the result is the block's last value. */
  lemma {:induction false} SetLowBitsValue(x: nat, h: nat)
    ensures SetLowBits(x, h) == x - x % Pow2(h) + Pow2(h) - 1
  {
    if h > 0 {
      var p, q := Pow2(h), Pow2(h - 1);
      assert p == 2 * q;
      SetLowBitsValue(x / 2, h - 1);
      ModPow2Step(x, h);
      HalfStep(x, x / 2, (x / 2) % q, q, x % p, SetLowBits(x / 2, h - 1));
    } else {
      DivModUnique(x, 1, x, 0);
    }
  }

  lemma HalfStep(x: int, a: int, m: int, q: int, r: int, b: int)
    requires a == x / 2 && r == 2 * m + x % 2 && b == a - m + q - 1
    ensures 2 * b + 1 == x - r + 2 * q - 1
  {
  }

  lemma AllOnesShift(bits: PrefixLen)
    ensures 0xFFFF_FFFF / Pow2(bits) == Pow2(32 - bits) - 1
  {
    Pow2Add(32 - bits, bits);
    Pow2Values();
    DivPredecessor(Pow2(32 - bits), Pow2(bits));
  }

  lemma DivPredecessor(hi: int, lo: int)
    requires hi >= 1 && lo >= 1
    ensures (hi * lo - 1) / lo == hi - 1
  {
    assert (hi - 1) * lo == hi * lo - lo;
    DivModUnique(hi * lo - 1, lo, hi - 1, lo - 1);
  }

  /** `addr | ^uint32(0) >> bits`: the prefix address with every host bit set is its broadcast address. */
  lemma SetHostBits(p: Prefix)
    ensures BitOr(p.addr, 0xFFFF_FFFF / Pow2(p.bits)) == Broadcast(p)
  {
    AllOnesShift(p.bits);
    BitOrLowOnes(p.addr, 32 - p.bits);
    SetLowBitsValue(p.addr, 32 - p.bits);
  }

  /**
   * `last` (nets.go): the prefix address with every host bit set by OR-ing in
   * `^uint32(0) >> bits`, then decremented with uint32 wrap-around. (Reading
   * the address through `As4` and writing it back through `AddrFrom4` is the
   * octet round trip `OctetsRoundTrip`.)
   */
  function Last(p: Prefix): (r: Addr)
    ensures r.V4?
  {
    var hostMask := 0xFFFF_FFFF / Pow2(p.bits);
    var ui := BitOr(p.addr, hostMask);
    SetHostBits(p);
    var b: u32 := Broadcast(p);
    assert ui == b;
    V4(if ui == 0 then 0xFFFF_FFFF else ui - 1)
  }

  /** `last` is the broadcast address minus one: network address + 2^(32-bits) - 2 for lengths up to 31. */
  lemma LastIsBroadcastMinusOne(p: Prefix)
    ensures p.bits <= 31 ==> Last(p) == V4(Broadcast(p) - 1)
    ensures p.bits <= 31 ==> Last(p).ui == Network(p) + BlockSize(p) - 2
    ensures p.bits == 32 ==> Last(p) == V4(if p.addr == 0 then 0xFFFF_FFFF else p.addr - 1)
  {
    SetHostBits(p);
    if p.bits <= 31 {
      Pow2Monotone(1, 32 - p.bits);
      assert Pow2(1) == 2;
    } else {
      assert BlockSize(p) == 1;
    }
  }

  /** Host bits already set in the prefix address do not change `last`. */
  lemma LastIgnoresHostBits(p: Prefix)
    ensures Last(p) == Last(Prefix(Network(p), p.bits))
  {
    var m := Prefix(Network(p), p.bits);
    LastIsBroadcastMinusOne(p);
    LastIsBroadcastMinusOne(m);
    NetworkFacts(p);
    NetworkFacts(m);
    if p.bits == 32 {
      assert BlockSize(p) == 1;
    }
  }

  /**
   * For lengths up to 31, `last` is the highest address of the prefix other
   * than its broadcast address: the last one a host can be given.
   */
  lemma LastIsLastAssignable(p: Prefix)
    requires p.bits <= 31
    ensures Contains(p, Last(p)) && Last(p) != V4(Broadcast(p))
    ensures forall a: u32 :: Contains(p, V4(a)) && a != Broadcast(p) ==> a <= Last(p).ui
  {
    LastIsBroadcastMinusOne(p);
    Pow2Monotone(1, 32 - p.bits);
    assert Pow2(1) == 2;
    ContainsRange(p, Last(p).ui);
    forall a: u32 | Contains(p, V4(a)) && a != Broadcast(p)
      ensures a <= Last(p).ui
    {
      ContainsRange(p, a);
    }
  }

  // ---------------------------------------------------------------------------
  // Text form

  /** A dotted-quad field: decimal, no superfluous leading zero, at most 255. */
  predicate OctetField(f: string) {
    Canonical(f) && Value(f) <= 255
  }

  /**
   * `netip.ParseAddr` for IPv4 text: exactly four dot-separated fields, each
   * an `OctetField`. Any other text is refused (IPv6 text included).
   */
  function ParseAddr(s: string): (r: Result<Addr, ParseError>)
    ensures r.Ok? ==> r.value.V4?
  {
    var f := SplitOn(s, '.');
    if |f| == 4 && OctetField(f[0]) && OctetField(f[1]) && OctetField(f[2]) && OctetField(f[3]) then
      Ok(V4(FromOctets([Value(f[0]), Value(f[1]), Value(f[2]), Value(f[3])])))
    else
      Err(BadAddress(s))
  }

  /** `Addr.String`: dotted decimal, or "invalid IP" for the zero address. */
  function FormatAddr(a: Addr): string {
    match a
    case Invalid => "invalid IP"
    case V4(ui) =>
      var o := Octets(ui);
      FormatNat(o[0]) + "." + FormatNat(o[1]) + "." + FormatNat(o[2]) + "." + FormatNat(o[3])
  }

  lemma OctetFieldOfFormat(n: byte)
    ensures OctetField(FormatNat(n)) && Value(FormatNat(n)) == n && '.' !in FormatNat(n) && '/' !in FormatNat(n)
  {
    FormatNatValue(n);
    var s := FormatNat(n);
    assert forall i | 0 <= i < |s| :: IsDigit(s[i]);
  }

  /** Parsing inverts printing for every valid address. */
  lemma ParseFormatAddr(ui: u32)
    ensures ParseAddr(FormatAddr(V4(ui))) == Ok(V4(ui))
  {
    var o := Octets(ui);
    var f0, f1, f2, f3 := FormatNat(o[0]), FormatNat(o[1]), FormatNat(o[2]), FormatNat(o[3]);
    OctetFieldOfFormat(o[0]);
    OctetFieldOfFormat(o[1]);
    OctetFieldOfFormat(o[2]);
    OctetFieldOfFormat(o[3]);
    SplitQuad(f0, f1, f2, f3, '.');
    OctetsRoundTrip(ui);
  }

  /** Every address `ParseAddr` accepts prints back as the text it came from. */
  lemma FormatParseAddr(s: string)
    requires ParseAddr(s).Ok?
    ensures FormatAddr(ParseAddr(s).value) == s
  {
    var f := SplitOn(s, '.');
    var o := [Value(f[0]), Value(f[1]), Value(f[2]), Value(f[3])];
    FromOctetsRoundTrip(o);
    CanonicalIsFormatted(f[0]);
    CanonicalIsFormatted(f[1]);
    CanonicalIsFormatted(f[2]);
    CanonicalIsFormatted(f[3]);
    SplitOnJoin(s, '.');
    JoinQuad(f, '.');
  }

  /**
   * `netip.ParsePrefix` for IPv4 text: the address before the last '/', then a
   * length that has no sign and no leading zero and lies in [0, 32].
   */
  function ParsePrefix(s: string): (r: Result<Prefix, ParseError>)
    ensures '/' !in s ==> r == Err(BadPrefix(s))
    ensures r.Ok? ==> 0 < LastIndexOf(s, '/') < |s| - 1
  {
    var i := LastIndexOf(s, '/');
    if i < 0 then Err(BadPrefix(s))
    else
      match ParseAddr(s[..i])
      case Err(e) => Err(e)
      case Ok(ip) =>
        var bitsText := s[i + 1..];
        if |bitsText| > 1 && !('1' <= bitsText[0] <= '9') then Err(BadPrefix(s))
        else
          var (bits, ok) := Atoi(bitsText);
          if !ok || bits < 0 || bits > 32 then Err(BadPrefix(s))
          else Ok(Prefix(ip.ui, bits))
  }

  /** `Prefix.String`: address, '/', length. */
  function FormatPrefix(p: Prefix): string {
    FormatAddr(V4(p.addr)) + "/" + FormatNat(p.bits)
  }

  lemma NoSlashInAddr(ui: u32)
    ensures '/' !in FormatAddr(V4(ui))
  {
    var o := Octets(ui);
    OctetFieldOfFormat(o[0]);
    OctetFieldOfFormat(o[1]);
    OctetFieldOfFormat(o[2]);
    OctetFieldOfFormat(o[3]);
  }

  lemma PrefixLenText(bits: PrefixLen)
    ensures '/' !in FormatNat(bits)
    ensures !(|FormatNat(bits)| > 1 && !('1' <= FormatNat(bits)[0] <= '9'))
    ensures Atoi(FormatNat(bits)) == (bits, true)
  {
    var b := FormatNat(bits);
    FormatNatValue(bits);
    assert forall k | 0 <= k < |b| :: IsDigit(b[k]);
    Pow2Values();
    AtoiFormatNat(bits);
  }

  /** Parsing inverts printing for every prefix. */
  lemma ParseFormatPrefix(p: Prefix)
    ensures ParsePrefix(FormatPrefix(p)) == Ok(p)
  {
    var a, b := FormatAddr(V4(p.addr)), FormatNat(p.bits);
    var s := FormatPrefix(p);
    NoSlashInAddr(p.addr);
    PrefixLenText(p.bits);
    assert s == a + ['/'] + b;
    LastIndexOfSuffix(a, b);
    var i := LastIndexOf(s, '/');
    assert i == |a|;
    assert s[..i] == a && s[i + 1..] == b;
    ParseFormatAddr(p.addr);
    assert ParseAddr(s[..i]) == Ok(V4(p.addr));
  }

  /**
   * Every text that parses as a prefix is the printed form of that prefix:
   * the address is written canonically and the length in decimal without a
   * sign or a leading zero.
   */
  lemma FormatParsePrefix(s: string)
    requires ParsePrefix(s).Ok?
    ensures FormatPrefix(ParsePrefix(s).value) == s
  {
    var p := ParsePrefix(s).value;
    var i := LastIndexOf(s, '/');
    var a, t := s[..i], s[i + 1..];
    assert ParseAddr(a) == Ok(V4(p.addr));
    FormatParseAddr(a);
    assert Atoi(t) == (p.bits, true) && !(|t| > 1 && !('1' <= t[0] <= '9'));
    LengthText(t, p.bits);
    AroundIndex(s, i);
  }

  /** A string is what lies before an index, the character there, and what follows. */
  lemma AroundIndex(s: string, i: int)
    requires 0 <= i < |s|
    ensures s == s[..i] + [s[i]] + s[i + 1..]
  {
  }

  /** A length text the parser accepts is the decimal form of its value. */
  lemma LengthText(t: string, n: int)
    requires Atoi(t) == (n, true) && n >= 0
    requires !(|t| > 1 && !('1' <= t[0] <= '9'))
    ensures FormatNat(n) == t
  {
    assert t != [];
    assert t[0] != '+' && t[0] != '-' by {
      if |t| == 1 {
        assert t[1..] == [];
      }
    }
    ParseUintOk(t, 64);
    assert Canonical(t);
    CanonicalIsFormatted(t);
  }

  lemma {:induction false} LastIndexOfSuffix(a: string, b: string)
    requires '/' !in b
    ensures LastIndexOf(a + ['/'] + b, '/') == |a|
    decreases |b|
  {
    var s := a + ['/'] + b;
    if b != [] {
      assert s[..|s| - 1] == a + ['/'] + b[..|b| - 1];
      LastIndexOfSuffix(a, b[..|b| - 1]);
    }
  }

  /** nets_test.go: 192.168.0.0/24 gives 192.168.0.254 and 10.10.0.0/16 gives 10.10.255.254. */
  lemma LastTestVectors()
    ensures Last(Prefix(0xC0A8_0000, 24)) == V4(0xC0A8_00FE)
    ensures Last(Prefix(0x0A0A_0000, 16)) == V4(0x0A0A_FFFE)
  {
    var p1, p2 := Prefix(0xC0A8_0000, 24), Prefix(0x0A0A_0000, 16);
    Pow2Values();
    assert BlockSize(p1) == 0x100 && BlockSize(p2) == 0x1_0000;
    DivModUnique(0xC0A8_0000, 0x100, 0xC0_A800, 0);
    DivModUnique(0x0A0A_0000, 0x1_0000, 0x0A0A, 0);
    assert Network(p1) == 0xC0A8_0000 && Network(p2) == 0x0A0A_0000;
    LastIsBroadcastMinusOne(p1);
    LastIsBroadcastMinusOne(p2);
  }
}
