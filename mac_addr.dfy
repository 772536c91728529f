/**
 * addr.go's `Mac`: the last three bytes of a locally administered MAC address
 * held in a uint32, printed as three colon-separated lower-case hexadecimal
 * fields without zero padding. run_vm.go's `rndmac` prints three random
 * bytes in the same format.
 */
module MacAddr {
  import opened Wrappers
  import opened Strconv

  /** Go's `uint32`. */
  type Mac = x: int | 0 <= x < 0x1_0000_0000

  /**
   * `fmt.Sprintf("%x:%x:%x", a, b, c)` for three bytes: three unpadded
   * fields, so 5 to 8 characters, that read back as the 24-bit number the
   * bytes make.
   */
  function HexTriple(a: byte, b: byte, c: byte): (s: string)
    ensures SplitOn(s, ':') == [LowerHex(a), LowerHex(b), LowerHex(c)]
    ensures 5 <= |s| <= 8
    ensures ParseMac(s) == Some(a as int * 0x1_0000 + b as int * 0x100 + c as int)
  {
    HexFieldOfByte(a);
    HexFieldOfByte(b);
    HexFieldOfByte(c);
    ThreeFields(LowerHex(a), LowerHex(b), LowerHex(c));
    LowerHex(a) + ":" + LowerHex(b) + ":" + LowerHex(c)
  }

  /** The three bytes `Mac.String` prints: bits 23-16, 15-8 and 7-0; `byte(...)` drops everything above. */
  function MacBytes(m: Mac): (b: seq<byte>)
    ensures |b| == 3
  {
    [(m / 0x1_0000) % 0x100, (m / 0x100) % 0x100, m % 0x100]
  }

  /** `Mac.String`: reading the text back gives the Mac's low 24 bits, the higher bits are dropped. */
  function MacString(m: Mac): (s: string)
    ensures ParseMac(s) == Some(m % 0x100_0000)
  {
    var b := MacBytes(m);
    MacBytesValue(m);
    HexTriple(b[0], b[1], b[2])
  }

  /** A field of at most two lower-case hexadecimal digits. */
  predicate HexField(f: string) {
    0 < |f| <= 2 && forall i | 0 <= i < |f| :: IsLowerHexDigit(f[i])
  }

  /** Reads three colon-separated hexadecimal fields back into the 24-bit number they print. */
  function ParseMac(s: string): Option<nat> {
    var f := SplitOn(s, ':');
    if |f| == 3 && HexField(f[0]) && HexField(f[1]) && HexField(f[2]) then
      Some(LowerHexNumber(f[0]) * 0x1_0000 + LowerHexNumber(f[1]) * 0x100 + LowerHexNumber(f[2]))
    else
      None
  }

  lemma HexFieldOfByte(b: byte)
    ensures HexField(LowerHex(b)) && LowerHexNumber(LowerHex(b)) == b && ':' !in LowerHex(b)
  {
    LowerHexValueOf(b);
    var s := LowerHex(b);
    assert forall i | 0 <= i < |s| :: s[i] != ':' by {
      forall i | 0 <= i < |s| ensures s[i] != ':' {
        assert IsLowerHexDigit(s[i]);
      }
    }
  }

  /** Three fields without a colon, joined by colons, split back into the three. */
  lemma ThreeFields(fa: string, fb: string, fc: string)
    requires ':' !in fa && ':' !in fb && ':' !in fc
    ensures SplitOn(fa + ":" + fb + ":" + fc, ':') == [fa, fb, fc]
  {
    assert fa + ":" + fb + ":" + fc == fa + [':'] + (fb + [':'] + fc);
    SplitOnField(fa, ':', fb + [':'] + fc);
    SplitOnField(fb, ':', fc);
    SplitOnNoSep(fc, ':');
  }

  /** The three printed bytes make up the low 24 bits of the `Mac`. */
  lemma MacBytesValue(m: Mac)
    ensures var b := MacBytes(m); b[0] as int * 0x1_0000 + b[1] as int * 0x100 + b[2] as int == m % 0x100_0000
  {
    var lo := m % 0x100_0000;
    DivModUnique(m, 0x100_0000, m / 0x100_0000, lo);
    DivModUnique(m, 0x1_0000, m / 0x100_0000 * 0x100 + lo / 0x1_0000, lo % 0x1_0000);
    DivModUnique(m / 0x1_0000, 0x100, m / 0x100_0000, lo / 0x1_0000);
    DivModUnique(m, 0x100, m / 0x100_0000 * 0x1_0000 + lo / 0x100, lo % 0x100);
    DivModUnique(lo, 0x100, lo / 0x100, lo % 0x100);
    DivModUnique(lo / 0x100, 0x100, lo / 0x1_0000, (lo / 0x100) % 0x100);
    DivModUnique(m / 0x100, 0x100, m / 0x100_0000 * 0x100 + lo / 0x1_0000, (lo / 0x100) % 0x100);
  }

  /** Two `Mac` values print alike exactly when their low 24 bits agree. */
  lemma MacStringLow24(m: Mac, n: Mac)
    ensures MacString(m) == MacString(n) <==> m % 0x100_0000 == n % 0x100_0000
  {
    if m % 0x100_0000 == n % 0x100_0000 {
      LowBytes(m);
      LowBytes(n);
    }
  }

  lemma LowBytes(m: Mac)
    ensures MacBytes(m) == MacBytes(m % 0x100_0000)
  {
    var lo := m % 0x100_0000;
    DivModUnique(m, 0x100_0000, m / 0x100_0000, lo);
    DivModUnique(m / 0x1_0000, 0x100, m / 0x100_0000, lo / 0x1_0000);
    DivModUnique(m, 0x1_0000, m / 0x100_0000 * 0x100 + lo / 0x1_0000, lo % 0x1_0000);
    DivModUnique(m, 0x100, m / 0x100_0000 * 0x1_0000 + lo / 0x100, lo % 0x100);
    DivModUnique(m / 0x100, 0x100, m / 0x100_0000 * 0x100 + lo / 0x1_0000, (lo / 0x100) % 0x100);
    DivModUnique(lo / 0x100, 0x100, lo / 0x1_0000, (lo / 0x100) % 0x100);
    DivModUnique(lo, 0x100, lo / 0x100, lo % 0x100);
  }

  /** Fields are not padded: 0x05 prints as "5" and 0x0a as "a". */
  lemma MacStringVector()
    ensures MacString(0x05_0A_FF) == "5:a:ff"
  {
    assert MacBytes(0x05_0A_FF) == [5, 10, 255];
    assert LowerHex(5) == "5" && LowerHex(10) == "a" && LowerHex(255) == "ff";
  }
}
