/** Byte strings, fixed-width and minimal big-endian integers, and the two
    textual forms (lower-case hexadecimal and decimal) that the services embed
    in keys and digests. */
module ByteStrings {

  type Byte = b: int | 0 <= b < 256

  type Bytes = seq<Byte>

  type Bytes32 = b: Bytes | |b| == 32 witness seq(32, _ => 0)

  const ZERO32: Bytes32 := Zeros(32)

  const MAX_INT: nat := 0x7fff_ffff_ffff_ffff

  const UINT32_LIMIT: nat := 0x1_0000_0000

  const UINT64_LIMIT: nat := 0x1_0000_0000_0000_0000

  const WORD_BYTES: nat := 32

  const UINT256_LIMIT: nat := Pow256(WORD_BYTES)

  datatype Option<+T> = None | Some(value: T)

  /** Keccak-256 is a parameter of everything that hashes; only its width is fixed. */
  type Hash = Bytes -> Bytes32

  /** Two different strings with one digest. */
  predicate Collides(keccak: Hash, a: Bytes, b: Bytes) {
    a != b && keccak(a) == keccak(b)
  }

  function Zeros(n: nat): (b: Bytes)
    ensures |b| == n
  {
    seq(n, _ => 0)
  }

  predicate NoRepeats<T(==)>(s: seq<T>) {
    forall i, j :: 0 <= i < j < |s| ==> s[i] != s[j]
  }

  /** Splitting equal concatenations at equal lengths. */
  lemma SplitAt<T>(a: seq<T>, b: seq<T>, c: seq<T>, d: seq<T>)
    requires |a| == |c| && a + b == c + d
    ensures a == c && b == d
  {
    assert a == (a + b)[..|a|] && c == (c + d)[..|a|];
    assert b == (a + b)[|a|..] && d == (c + d)[|a|..];
  }

  // Big-endian integers.

  function Pow256(width: nat): (p: nat)
    ensures p >= 1
  {
    if width == 0 then 1 else 256 * Pow256(width - 1)
  }

  function BigEndian(n: nat, width: nat): (b: Bytes)
    ensures |b| == width
  {
    if width == 0 then [] else BigEndian(n / 256, width - 1) + [n % 256]
  }

  function FromBigEndian(b: Bytes): nat {
    if b == [] then 0 else FromBigEndian(b[..|b| - 1]) * 256 + b[|b| - 1]
  }

  function MinimalBigEndian(n: nat): Bytes {
    if n == 0 then [] else MinimalBigEndian(n / 256) + [n % 256]
  }

  lemma {:induction false} FromBigEndianBound(b: Bytes)
    ensures FromBigEndian(b) < Pow256(|b|)
  {
    if b != [] {
      FromBigEndianBound(b[..|b| - 1]);
    }
  }

  lemma {:induction false} BigEndianRoundTrip(n: nat, width: nat)
    requires n < Pow256(width)
    ensures FromBigEndian(BigEndian(n, width)) == n
  {
    if width > 0 {
      BigEndianRoundTrip(n / 256, width - 1);
      var b := BigEndian(n, width);
      assert b[..|b| - 1] == BigEndian(n / 256, width - 1);
    }
  }

  lemma BigEndianInjective(m: nat, n: nat, width: nat)
    requires m < Pow256(width) && n < Pow256(width)
    requires BigEndian(m, width) == BigEndian(n, width)
    ensures m == n
  {
    BigEndianRoundTrip(m, width);
    BigEndianRoundTrip(n, width);
  }

  lemma {:induction false} MinimalRoundTrip(n: nat)
    ensures FromBigEndian(MinimalBigEndian(n)) == n
    ensures n > 0 ==> MinimalBigEndian(n) != [] && MinimalBigEndian(n)[0] != 0
  {
    if n > 0 {
      MinimalRoundTrip(n / 256);
      var b := MinimalBigEndian(n);
      assert b[..|b| - 1] == MinimalBigEndian(n / 256);
      if n / 256 > 0 {
        assert b[0] == MinimalBigEndian(n / 256)[0];
      }
    }
  }

  lemma {:induction false} MinimalUnique(b: Bytes)
    requires b != [] ==> b[0] != 0
    ensures MinimalBigEndian(FromBigEndian(b)) == b
  {
    if b != [] {
      var init, last := b[..|b| - 1], b[|b| - 1];
      assert b == init + [last];
      PositiveWithoutLeadingZero(b);
      MinimalUnique(init);
      MinimalSnoc(init, last);
    }
  }

  lemma MinimalSnoc(init: Bytes, last: Byte)
    requires MinimalBigEndian(FromBigEndian(init)) == init
    requires FromBigEndian(init + [last]) > 0
    ensures MinimalBigEndian(FromBigEndian(init + [last])) == init + [last]
  {
    var q := FromBigEndian(init);
    assert (init + [last])[..|init|] == init;
    QuotientAndRemainder(q, last);
  }

  lemma QuotientAndRemainder(q: nat, r: Byte)
    ensures (q * 256 + r) / 256 == q && (q * 256 + r) % 256 == r
  {
  }

  lemma {:induction false} PositiveWithoutLeadingZero(b: Bytes)
    requires b != [] && b[0] != 0
    ensures FromBigEndian(b) > 0
  {
    if |b| > 1 {
      PositiveWithoutLeadingZero(b[..|b| - 1]);
    }
  }

  lemma {:induction false} MinimalLength(n: nat, width: nat)
    requires n < Pow256(width)
    ensures |MinimalBigEndian(n)| <= width
  {
    if n > 0 {
      MinimalLength(n / 256, width - 1);
    }
  }

  /** Stripping leading zeros of a fixed-width integer leaves its minimal form. */
  lemma {:induction false} BigEndianIsPaddedMinimal(n: nat, width: nat)
    requires n < Pow256(width)
    ensures |MinimalBigEndian(n)| <= width
    ensures BigEndian(n, width) == Zeros(width - |MinimalBigEndian(n)|) + MinimalBigEndian(n)
  {
    MinimalLength(n, width);
    if width > 0 {
      BigEndianIsPaddedMinimal(n / 256, width - 1);
      if n == 0 {
        assert Zeros(width) == Zeros(width - 1) + [0];
      }
    }
  }

  lemma Pow256Values()
    ensures Pow256(4) == UINT32_LIMIT
    ensures Pow256(8) == UINT64_LIMIT
    ensures MAX_INT < Pow256(8)
    ensures UINT64_LIMIT <= UINT256_LIMIT
  {
    assert Pow256(4) == 256 * 256 * 256 * 256;
    assert Pow256(8) == 256 * 256 * 256 * 256 * Pow256(4);
    Pow256Monotone(8, WORD_BYTES);
  }

  /** The widths that eight-byte lengths and integers need. */
  lemma Uint64Width(n: nat)
    requires n < UINT64_LIMIT
    ensures |MinimalBigEndian(n)| <= 8
    ensures BigEndian(n, 8) == Zeros(8 - |MinimalBigEndian(n)|) + MinimalBigEndian(n)
    ensures FromBigEndian(BigEndian(n, 8)) == n
  {
    Pow256Values();
    BigEndianIsPaddedMinimal(n, 8);
    BigEndianRoundTrip(n, 8);
  }

  lemma Uint64Bound(b: Bytes)
    requires |b| <= 8
    ensures FromBigEndian(b) < UINT64_LIMIT
  {
    Pow256Values();
    FromBigEndianBound(b);
    Pow256Monotone(|b|, 8);
  }

  lemma {:induction false} Pow256Monotone(m: nat, n: nat)
    requires m <= n
    ensures Pow256(m) <= Pow256(n)
  {
    if m < n {
      Pow256Monotone(m, n - 1);
    }
  }

  // Hexadecimal and decimal text.

  /** The bytes of a text all of whose characters are below 256. */
  function Ascii(s: string): (b: Bytes)
    ensures |b| == |s|
  {
    seq(|s|, i requires 0 <= i < |s| => s[i] as int % 256)
  }

  function HexDigit(n: nat): (c: char)
    requires n < 16
    ensures c != ':' && c as int < 256
  {
    "0123456789abcdef"[n]
  }

  function Hex(b: Bytes): (s: string)
    ensures |s| == 2 * |b|
    ensures forall i :: 0 <= i < |s| ==> s[i] != ':' && s[i] as int < 256
  {
    if b == [] then "" else [HexDigit(b[0] / 16), HexDigit(b[0] % 16)] + Hex(b[1..])
  }

  /** The canonical 0x-prefixed form. */
  function Hex0x(b: Bytes): string {
    "0x" + Hex(b)
  }

  lemma HexDigitInjective(m: nat, n: nat)
    requires m < 16 && n < 16
    requires HexDigit(m) == HexDigit(n)
    ensures m == n
  {
    var digits := "0123456789abcdef";
    assert forall i, j :: 0 <= i < j < 16 ==> digits[i] != digits[j];
  }

  lemma {:induction false} HexInjective(a: Bytes, b: Bytes)
    requires Hex(a) == Hex(b)
    ensures a == b
  {
    if a == [] || b == [] {
    } else {
      assert Hex(a)[0] == HexDigit(a[0] / 16) && Hex(b)[0] == HexDigit(b[0] / 16);
      assert Hex(a)[1] == HexDigit(a[0] % 16) && Hex(b)[1] == HexDigit(b[0] % 16);
      HexDigitInjective(a[0] / 16, b[0] / 16);
      HexDigitInjective(a[0] % 16, b[0] % 16);
      assert Hex(a)[2..] == Hex(a[1..]) && Hex(b)[2..] == Hex(b[1..]);
      HexInjective(a[1..], b[1..]);
      assert a == [a[0]] + a[1..] && b == [b[0]] + b[1..];
    }
  }

  lemma Hex0xInjective(a: Bytes, b: Bytes)
    requires Hex0x(a) == Hex0x(b)
    ensures a == b
  {
    assert Hex0x(a)[2..] == Hex(a) && Hex0x(b)[2..] == Hex(b);
    HexInjective(a, b);
  }

  /** Text that is its own bytes. */
  predicate IsByteText(s: string) {
    forall i :: 0 <= i < |s| ==> s[i] as int < 256
  }

  lemma AsciiInjective(s: string, t: string)
    requires IsByteText(s) && IsByteText(t) && Ascii(s) == Ascii(t)
    ensures s == t
  {
    assert |s| == |Ascii(s)| == |Ascii(t)| == |t|;
    forall i | 0 <= i < |s| ensures s[i] == t[i] {
      assert Ascii(s)[i] == Ascii(t)[i];
    }
  }

  lemma Hex0xAsciiInjective(a: Bytes, b: Bytes)
    requires Ascii(Hex0x(a)) == Ascii(Hex0x(b))
    ensures a == b
  {
    var s, t := Hex0x(a), Hex0x(b);
    assert |s| == |Ascii(s)| == |Ascii(t)| == |t|;
    forall i | 0 <= i < |s|
      ensures s[i] == t[i]
    {
      assert Ascii(s)[i] == Ascii(t)[i];
      assert s[i] as int < 256 && t[i] as int < 256;
    }
    Hex0xInjective(a, b);
  }

  function DecimalDigit(n: nat): (c: char)
    requires n < 10
    ensures '0' <= c <= '9'
  {
    "0123456789"[n]
  }

  function DigitValue(c: char): (n: nat)
    requires '0' <= c <= '9'
    ensures n < 10
  {
    c as int - '0' as int
  }

  lemma DigitRoundTrip(n: nat)
    requires n < 10
    ensures DigitValue(DecimalDigit(n)) == n
  {
    assert "0123456789"[n] as int == '0' as int + n;
  }

  function Decimal(n: nat): (s: string)
    ensures s != "" && forall i :: 0 <= i < |s| ==> '0' <= s[i] <= '9'
  {
    if n < 10 then [DecimalDigit(n)] else Decimal(n / 10) + [DecimalDigit(n % 10)]
  }

  predicate AllDigits(s: string) {
    forall i :: 0 <= i < |s| ==> '0' <= s[i] <= '9'
  }

  function DecimalValue(s: string): nat
    requires AllDigits(s)
  {
    if s == "" then 0 else DecimalValue(s[..|s| - 1]) * 10 + DigitValue(s[|s| - 1])
  }

  lemma {:induction false} DecimalRoundTrip(n: nat)
    ensures DecimalValue(Decimal(n)) == n
  {
    DigitRoundTrip(n % 10);
    if n >= 10 {
      DecimalRoundTrip(n / 10);
      var s := Decimal(n);
      assert s[..|s| - 1] == Decimal(n / 10);
    } else {
      var s := Decimal(n);
      assert s[..|s| - 1] == "" && s[|s| - 1] == DecimalDigit(n);
    }
  }

  lemma DecimalInjective(m: nat, n: nat)
    requires Decimal(m) == Decimal(n)
    ensures m == n
  {
    DecimalRoundTrip(m);
    DecimalRoundTrip(n);
  }
}
