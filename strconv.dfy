/**
 * The decimal and hexadecimal number handling the lab engine takes from Go's
 * strconv and fmt packages: `strconv.ParseUint` (base 10), `strconv.Atoi`,
 * fmt's `%d`, `%x` and `%X` verbs. Strings are sequences of characters;
 * `Utf8Len` gives Go's `len`, which counts the bytes of the UTF-8 encoding.
 */
module Strconv {
  import opened Wrappers

  /** Go's `byte`. */
  type byte = x: int | 0 <= x < 256

  function Pow2(n: nat): (r: nat)
    ensures r >= 1
  {
    if n == 0 then 1 else 2 * Pow2(n - 1)
  }

  lemma {:induction false} Pow2Add(a: nat, b: nat)
    ensures Pow2(a + b) == Pow2(a) * Pow2(b)
  {
    if a > 0 {
      Pow2Add(a - 1, b);
    }
  }

  lemma {:induction false} Pow2Monotone(a: nat, b: nat)
    requires a <= b
    ensures Pow2(a) <= Pow2(b)
  {
    if a < b {
      Pow2Monotone(a, b - 1);
    }
  }

  lemma Pow2Values()
    ensures Pow2(8) == 0x100 && Pow2(16) == 0x1_0000 && Pow2(32) == 0x1_0000_0000
    ensures Pow2(63) == 0x8000_0000_0000_0000 && Pow2(64) == 0x1_0000_0000_0000_0000
  {
    assert Pow2(4) == 16;
    Pow2Add(4, 4);
    Pow2Add(8, 8);
    Pow2Add(16, 16);
    Pow2Add(32, 32);
    assert Pow2(64) == 2 * Pow2(63);
  }

  lemma MulLe(a: int, b: int, d: int)
    requires a <= b && d >= 0
    ensures a * d <= b * d
  {
    assert b * d - a * d == (b - a) * d;
  }

  /** Division and remainder are determined by `a == q * d + r` with `0 <= r < d`. */
  lemma DivModUnique(a: int, d: int, q: int, r: int)
    requires d > 0 && 0 <= r < d && a == q * d + r
    ensures a / d == q && a % d == r
  {
    var q', r' := a / d, a % d;
    assert a == q' * d + r';
    assert (q + 1) * d == q * d + d && (q' + 1) * d == q' * d + d;
    if q' > q {
      MulLe(q + 1, q', d);
    } else if q' < q {
      MulLe(q' + 1, q, d);
    }
  }

  // ---------------------------------------------------------------------------
  // Decimal digits

  predicate IsDigit(c: char) {
    '0' <= c <= '9'
  }

  function DigitValue(c: char): (d: nat)
    requires IsDigit(c)
    ensures d < 10
  {
    (c as int) - ('0' as int)
  }

  function Digit(d: nat): (c: char)
    requires d < 10
    ensures IsDigit(c) && DigitValue(c) == d
  {
    ('0' as int + d) as char
  }

  predicate AllDigits(s: string) {
    forall i | 0 <= i < |s| :: IsDigit(s[i])
  }

  /** Decimal text without superfluous leading zeros: what `%d` prints for a non-negative number. */
  predicate Canonical(s: string) {
    s != [] && AllDigits(s) && (s[0] == '0' ==> |s| == 1)
  }

  /** Digits read left to right onto an accumulator, the way strconv scans them. */
  function Accumulate(acc: nat, s: string): nat
    requires AllDigits(s)
    decreases |s|
  {
    if s == [] then acc else Accumulate(10 * acc + DigitValue(s[0]), s[1..])
  }

  /** The number a string of decimal digits denotes. */
  function Value(s: string): nat
    requires AllDigits(s)
  {
    Accumulate(0, s)
  }

  lemma {:induction false} AccumulateSnoc(acc: nat, s: string, c: char)
    requires AllDigits(s) && IsDigit(c)
    ensures AllDigits(s + [c])
    ensures Accumulate(acc, s + [c]) == 10 * Accumulate(acc, s) + DigitValue(c)
    decreases |s|
  {
    assert AllDigits(s + [c]);
    if s != [] {
      assert (s + [c])[1..] == s[1..] + [c];
      AccumulateSnoc(10 * acc + DigitValue(s[0]), s[1..], c);
    }
  }

  lemma {:induction false} AccumulateGrows(acc: nat, s: string)
    requires AllDigits(s)
    ensures Accumulate(acc, s) >= acc
    ensures s != [] && s[0] != '0' ==> Accumulate(acc, s) >= 1
    decreases |s|
  {
    if s != [] {
      AccumulateGrows(10 * acc + DigitValue(s[0]), s[1..]);
    }
  }

  /** fmt's `%d` of a non-negative integer. */
  function FormatNat(n: nat): (s: string)
    ensures s != [] && AllDigits(s)
  {
    if n < 10 then [Digit(n)] else FormatNat(n / 10) + [Digit(n % 10)]
  }

  /** `%d` prints canonical decimal text that denotes the number printed. */
  lemma {:induction false} FormatNatValue(n: nat)
    ensures Canonical(FormatNat(n))
    ensures Value(FormatNat(n)) == n
  {
    if n >= 10 {
      var t := FormatNat(n / 10);
      FormatNatValue(n / 10);
      AccumulateSnoc(0, t, Digit(n % 10));
      assert FormatNat(n) == t + [Digit(n % 10)];
      assert t[0] == '0' ==> |t| == 1;
    } else {
      var d := [Digit(n)];
      assert d[1..] == [] && DigitValue(d[0]) == n;
      assert Value(d) == Accumulate(n, []);
    }
  }

  /** Conversely every canonical decimal text is what `%d` prints for its value. */
  lemma {:induction false} CanonicalIsFormatted(s: string)
    requires Canonical(s)
    ensures FormatNat(Value(s)) == s
  {
    var t, c := s[..|s| - 1], s[|s| - 1];
    assert s == t + [c];
    if t != [] {
      AccumulateSnoc(0, t, c);
      AccumulateGrows(0, t);
      assert Canonical(t);
      CanonicalIsFormatted(t);
      var n := Value(s);
      assert n >= 10 && n / 10 == Value(t) && n % 10 == DigitValue(c);
      assert Digit(DigitValue(c)) == c;
    } else {
      assert s == [c] && Value(s) == Accumulate(DigitValue(c), []);
      assert Digit(DigitValue(c)) == c;
    }
  }

  /** Distinct numbers print differently, so names built with `%d` never collide. */
  lemma FormatNatInjective(m: nat, n: nat)
    requires FormatNat(m) == FormatNat(n)
    ensures m == n
  {
    FormatNatValue(m);
    FormatNatValue(n);
  }

  // ---------------------------------------------------------------------------
  // strconv.ParseUint and strconv.Atoi, base 10

  datatype NumError = Syntax | Range

  /**
   * The digit loop of `strconv.ParseUint(s, 10, bitSize)`: it stops at the first
   * character that is not a digit (a syntax error) or at the first digit that
   * would push the value past `maxVal` (a range error), whichever comes first.
   */
  function ScanUint(acc: nat, s: string, maxVal: nat): Result<nat, NumError>
    decreases |s|
  {
    if s == [] then Ok(acc)
    else if !IsDigit(s[0]) then Err(Syntax)
    else if 10 * acc + DigitValue(s[0]) > maxVal then Err(Range)
    else ScanUint(10 * acc + DigitValue(s[0]), s[1..], maxVal)
  }

  /** `strconv.ParseUint(s, 10, bitSize)`; a range error stands for Go's `(maxVal, err)` return. */
  function ParseUint(s: string, bitSize: nat): (r: Result<nat, NumError>)
    ensures s == [] ==> r == Err(Syntax)
    ensures r.Ok? ==> r.value < Pow2(bitSize)
  {
    if s == [] then Err(Syntax)
    else
      ScanUintOk(0, s, Pow2(bitSize) - 1);
      ScanUint(0, s, Pow2(bitSize) - 1)
  }

  lemma {:induction false} ScanUintOk(acc: nat, s: string, maxVal: nat)
    requires acc <= maxVal
    ensures ScanUint(acc, s, maxVal).Ok? <==> AllDigits(s) && Accumulate(acc, s) <= maxVal
    ensures ScanUint(acc, s, maxVal).Ok? ==> ScanUint(acc, s, maxVal).value == Accumulate(acc, s)
    ensures AllDigits(s) && Accumulate(acc, s) > maxVal ==> ScanUint(acc, s, maxVal) == Err(Range)
    decreases |s|
  {
    if s != [] {
      assert AllDigits(s) ==> AllDigits(s[1..]);
      if IsDigit(s[0]) {
        var next := 10 * acc + DigitValue(s[0]);
        if next <= maxVal {
          ScanUintOk(next, s[1..], maxVal);
          assert AllDigits(s) <==> AllDigits(s[1..]);
        } else if AllDigits(s) {
          AccumulateGrows(next, s[1..]);
        }
      }
    }
  }

  /** `ParseUint` succeeds exactly on non-empty, unsigned digit strings whose value fits in `bitSize` bits. */
  lemma ParseUintOk(s: string, bitSize: nat)
    ensures ParseUint(s, bitSize).Ok? <==> s != [] && AllDigits(s) && Value(s) < Pow2(bitSize)
    ensures ParseUint(s, bitSize).Ok? ==> ParseUint(s, bitSize).value == Value(s)
  {
    if s != [] {
      ScanUintOk(0, s, Pow2(bitSize) - 1);
    }
  }

  /**
   * `strconv.Atoi` on a 64-bit platform, as `(value, err == nil)`: an optional
   * sign, then `ParseUint(digits, 10, 64)`. A syntax error gives 0; an
   * out-of-range number gives the clamped bound.
   */
  function Atoi(s: string): (r: (int, bool))
    ensures r.1 ==> -(Pow2(63) as int) <= r.0 < Pow2(63)
  {
    var bound: int := Pow2(63);
    if s == [] then (0, false)
    else
      var neg := s[0] == '-';
      var digits := if s[0] == '+' || s[0] == '-' then s[1..] else s;
      match ParseUint(digits, 64)
      case Err(Syntax) => (0, false)
      case Err(Range) => if neg then (-bound, false) else (bound - 1, false)
      case Ok(un) =>
        if !neg && un >= bound then (bound - 1, false)
        else if neg && un > bound then (-bound, false)
        else (if neg then -(un as int) else un, true)
  }

  /** An unsigned digit string below 2^63 converts to its value. */
  lemma AtoiDigits(s: string)
    requires s != [] && AllDigits(s) && Value(s) < Pow2(63)
    ensures Atoi(s) == (Value(s), true)
  {
    Pow2Values();
    ParseUintOk(s, 64);
    assert IsDigit(s[0]);
    assert ParseUint(s, 64) == Ok(Value(s));
  }

  /** `Atoi` inverts `%d` on every number it can represent. */
  lemma AtoiFormatNat(n: nat)
    requires n < Pow2(63)
    ensures Atoi(FormatNat(n)) == (n, true)
  {
    FormatNatValue(n);
    AtoiDigits(FormatNat(n));
  }

  // ---------------------------------------------------------------------------
  // Hexadecimal output

  function HexDigit(d: nat, upper: bool): (c: char)
    requires d < 16
  {
    if d < 10 then Digit(d)
    else if upper then ('A' as int + d - 10) as char
    else ('a' as int + d - 10) as char
  }

  predicate IsLowerHexDigit(c: char) {
    IsDigit(c) || 'a' <= c <= 'f'
  }

  function LowerHexValue(c: char): (d: nat)
    requires IsLowerHexDigit(c)
    ensures d < 16
  {
    if IsDigit(c) then DigitValue(c) else (c as int) - ('a' as int) + 10
  }

  /** fmt's `%x` of an unsigned integer: lower-case digits, no padding. */
  function LowerHex(n: nat): (s: string)
    ensures s != []
    ensures forall i | 0 <= i < |s| :: IsLowerHexDigit(s[i])
  {
    if n < 16 then [HexDigit(n, false)] else LowerHex(n / 16) + [HexDigit(n % 16, false)]
  }

  /** The number a string of lower-case hexadecimal digits denotes. */
  function LowerHexNumber(s: string): nat
    requires forall i | 0 <= i < |s| :: IsLowerHexDigit(s[i])
  {
    if s == [] then 0 else 16 * LowerHexNumber(s[..|s| - 1]) + LowerHexValue(s[|s| - 1])
  }

  /** `%x` prints a digit string that reads back as the number printed. */
  lemma {:induction false} LowerHexValueOf(n: nat)
    ensures LowerHexNumber(LowerHex(n)) == n
    ensures |LowerHex(n)| == 1 <==> n < 16
    ensures n < 256 ==> |LowerHex(n)| <= 2
  {
    var s := LowerHex(n);
    if n >= 16 {
      LowerHexValueOf(n / 16);
      assert s[..|s| - 1] == LowerHex(n / 16);
    }
  }

  /** fmt's `%X` of a `[]byte`: two upper-case digits per byte. */
  function UpperHexBytes(bs: seq<byte>): (s: string)
    ensures |s| == 2 * |bs|
  {
    if bs == [] then [] else [HexDigit(bs[0] / 16, true), HexDigit(bs[0] % 16, true)] + UpperHexBytes(bs[1..])
  }

  predicate IsUpperHexDigit(c: char) {
    IsDigit(c) || 'A' <= c <= 'F'
  }

  function UpperHexValue(c: char): (d: nat)
    requires IsUpperHexDigit(c)
    ensures d < 16
  {
    if IsDigit(c) then DigitValue(c) else (c as int) - ('A' as int) + 10
  }

  /** Reads text of two upper-case hexadecimal digits per byte back into the bytes. */
  function ParseUpperHexBytes(s: string): Option<seq<byte>>
    decreases |s|
  {
    if s == [] then Some([])
    else if |s| < 2 || !IsUpperHexDigit(s[0]) || !IsUpperHexDigit(s[1]) then None
    else
      match ParseUpperHexBytes(s[2..])
      case None => None
      case Some(rest) => Some([16 * UpperHexValue(s[0]) + UpperHexValue(s[1])] + rest)
  }

  lemma UpperHexDigitValue(d: nat)
    requires d < 16
    ensures IsUpperHexDigit(HexDigit(d, true)) && UpperHexValue(HexDigit(d, true)) == d
  {
  }

  /** `%X` of a byte slice reads back as the same bytes. */
  lemma {:induction false} UpperHexBytesRoundTrip(bs: seq<byte>)
    ensures ParseUpperHexBytes(UpperHexBytes(bs)) == Some(bs)
  {
    if bs != [] {
      var s := UpperHexBytes(bs);
      var hi, lo := bs[0] / 16, bs[0] % 16;
      UpperHexDigitValue(hi);
      UpperHexDigitValue(lo);
      UpperHexBytesRoundTrip(bs[1..]);
      assert s[0] == HexDigit(hi, true) && s[1] == HexDigit(lo, true);
      assert s[2..] == UpperHexBytes(bs[1..]);
      assert 16 * hi + lo == bs[0];
      assert [bs[0]] + bs[1..] == bs;
    }
  }

  // ---------------------------------------------------------------------------
  // Fields of a string

  /** The fields of `s` between occurrences of `sep`. */
  function SplitOn(s: string, sep: char): (r: seq<string>)
    ensures |r| >= 1
    decreases |s|
  {
    if s == [] then [[]]
    else if s[0] == sep then [[]] + SplitOn(s[1..], sep)
    else
      var rest := SplitOn(s[1..], sep);
      [[s[0]] + rest[0]] + rest[1..]
  }

  lemma {:induction false} SplitOnNoSep(s: string, sep: char)
    requires sep !in s
    ensures SplitOn(s, sep) == [s]
    decreases |s|
  {
    if s != [] {
      SplitOnNoSep(s[1..], sep);
      assert [s[0]] + s[1..] == s;
    }
  }

  lemma {:induction false} SplitOnField(x: string, sep: char, y: string)
    requires sep !in x
    ensures SplitOn(x + [sep] + y, sep) == [x] + SplitOn(y, sep)
    decreases |x|
  {
    var s := x + [sep] + y;
    if x == [] {
      assert s[1..] == y;
    } else {
      assert s[1..] == x[1..] + [sep] + y;
      assert s[0] == x[0] != sep;
      SplitOnField(x[1..], sep, y);
      var rest := SplitOn(s[1..], sep);
      assert rest[0] == x[1..] && rest[1..] == SplitOn(y, sep);
      assert [x[0]] + x[1..] == x;
    }
  }

  /** Four fields without the separator, joined by it, split back into the four. */
  lemma SplitQuad(a: string, b: string, c: string, d: string, sep: char)
    requires sep !in a && sep !in b && sep !in c && sep !in d
    ensures SplitOn(a + [sep] + b + [sep] + c + [sep] + d, sep) == [a, b, c, d]
  {
    Reassociate(a, b, c, d, sep);
    SplitOnNoSep(d, sep);
    SplitOnField(c, sep, d);
    SplitOnField(b, sep, c + [sep] + d);
    SplitOnField(a, sep, b + [sep] + (c + [sep] + d));
    ConsFour(a, b, c, d);
  }

  lemma Assoc<T>(a: seq<T>, b: seq<T>, c: seq<T>)
    ensures a + b + c == a + (b + c)
  {
  }

  lemma Reassociate<T>(a: seq<T>, b: seq<T>, c: seq<T>, d: seq<T>, x: T)
    ensures a + [x] + b + [x] + c + [x] + d == a + [x] + (b + [x] + (c + [x] + d))
  {
  }

  lemma ConsFour<T>(a: T, b: T, c: T, d: T)
    ensures [a] + ([b] + ([c] + [d])) == [a, b, c, d]
  {
  }

  /** Fields joined back with the separator. */
  function Join(fs: seq<string>, sep: char): string
    requires |fs| >= 1
  {
    if |fs| == 1 then fs[0] else fs[0] + [sep] + Join(fs[1..], sep)
  }

  lemma {:induction false} SplitOnJoin(s: string, sep: char)
    ensures Join(SplitOn(s, sep), sep) == s
    decreases |s|
  {
    if s != [] {
      SplitOnJoin(s[1..], sep);
      var rest := SplitOn(s[1..], sep);
      if s[0] != sep && |rest| > 1 {
        assert ([[s[0]] + rest[0]] + rest[1..])[1..] == rest[1..];
      } else if s[0] == sep {
        assert ([[]] + rest)[1..] == rest;
      }
    }
  }

  lemma JoinQuad(fs: seq<string>, sep: char)
    requires |fs| == 4
    ensures Join(fs, sep) == fs[0] + [sep] + fs[1] + [sep] + fs[2] + [sep] + fs[3]
  {
    assert fs[1..][1..] == fs[2..] && fs[2..][1..] == fs[3..];
    assert Join(fs[3..], sep) == fs[3];
    assert Join(fs[2..], sep) == fs[2] + [sep] + fs[3];
    assert Join(fs[1..], sep) == fs[1] + [sep] + (fs[2] + [sep] + fs[3]);
    assert fs[0] + [sep] + (fs[1] + [sep] + (fs[2] + [sep] + fs[3])) == fs[0] + [sep] + fs[1] + [sep] + fs[2] + [sep] + fs[3];
  }

  /** The index of the last `c` in `s`, or -1. */
  function LastIndexOf(s: string, c: char): (i: int)
    ensures -1 <= i < |s|
    ensures i >= 0 ==> s[i] == c
    ensures forall k | i < k < |s| :: s[k] != c
  {
    if s == [] then -1
    else if s[|s| - 1] == c then |s| - 1
    else
      var t := s[..|s| - 1];
      assert forall k | 0 <= k < |t| :: t[k] == s[k];
      LastIndexOf(t, c)
  }

  // ---------------------------------------------------------------------------
  // Byte length

  /** The number of bytes of a character in UTF-8. */
  function Utf8Width(c: char): (n: nat)
    ensures 1 <= n <= 4
  {
    if c as int < 0x80 then 1
    else if c as int < 0x800 then 2
    else if c as int < 0x1_0000 then 3
    else 4
  }

  /** Go's `len` of a string: the number of bytes of its UTF-8 encoding. */
  function Utf8Len(s: string): (n: nat)
    ensures |s| <= n <= 4 * |s|
  {
    if s == [] then 0 else Utf8Len(s[..|s| - 1]) + Utf8Width(s[|s| - 1])
  }

  lemma {:induction false} Utf8LenAppend(a: string, b: string)
    ensures Utf8Len(a + b) == Utf8Len(a) + Utf8Len(b)
    decreases |b|
  {
    if b == [] {
      assert a + b == a;
    } else {
      assert (a + b)[..|a + b| - 1] == a + b[..|b| - 1];
      Utf8LenAppend(a, b[..|b| - 1]);
    }
  }

  predicate IsAscii(s: string) {
    forall i | 0 <= i < |s| :: s[i] as int < 0x80
  }

  /** An ASCII string has one byte per character, and a string with a character beyond ASCII has more bytes than characters. */
  lemma {:induction false} AsciiLen(s: string)
    ensures IsAscii(s) <==> Utf8Len(s) == |s|
  {
    if s != [] {
      var init := s[..|s| - 1];
      AsciiLen(init);
      assert forall i | 0 <= i < |init| :: init[i] == s[i];
    }
  }
}
