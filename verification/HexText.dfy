/** Reading hexadecimal text back into bytes. */
module HexText {
  import opened ByteStrings

  predicate IsLowerHex(c: char) {
    '0' <= c <= '9' || 'a' <= c <= 'f'
  }

  predicate IsHex(c: char) {
    IsLowerHex(c) || 'A' <= c <= 'F'
  }

  function HexCharValue(c: char): (n: nat)
    requires IsHex(c)
    ensures n < 16
  {
    if c <= '9' then c as int - '0' as int
    else if c <= 'F' then c as int - 'A' as int + 10
    else c as int - 'a' as int + 10
  }

  predicate AllHex(s: string) {
    forall i :: 0 <= i < |s| ==> IsHex(s[i])
  }

  predicate AllLowerHex(s: string) {
    forall i :: 0 <= i < |s| ==> IsLowerHex(s[i])
  }

  function Unhex(s: string): (b: Bytes)
    requires |s| % 2 == 0 && AllHex(s)
    ensures |b| == |s| / 2
  {
    if s == "" then [] else [16 * HexCharValue(s[0]) + HexCharValue(s[1])] + Unhex(s[2..])
  }

  lemma DigitValueRoundTrip(n: nat)
    requires n < 16
    ensures IsLowerHex(HexDigit(n)) && HexCharValue(HexDigit(n)) == n
  {
  }

  lemma {:induction false} HexIsLowerHex(b: Bytes)
    ensures AllLowerHex(Hex(b))
  {
    if b != [] {
      HexIsLowerHex(b[1..]);
      DigitValueRoundTrip(b[0] / 16);
      DigitValueRoundTrip(b[0] % 16);
    }
  }

  lemma LowerHexIsHex(s: string)
    requires AllLowerHex(s)
    ensures AllHex(s)
  {
  }

  /** Canonical text is read back exactly. */
  lemma {:induction false} UnhexHex(b: Bytes)
    requires AllHex(Hex(b))
    ensures Unhex(Hex(b)) == b
  {
    hide AllHex, IsHex, HexCharValue, HexDigit;
    if b != [] {
      HexIsLowerHex(b[1..]);
      LowerHexIsHex(Hex(b[1..]));
      UnhexHex(b[1..]);
      DigitValueRoundTrip(b[0] / 16);
      DigitValueRoundTrip(b[0] % 16);
      assert Hex(b)[2..] == Hex(b[1..]);
      assert b == [b[0]] + b[1..];
    }
  }

  /** 0x-prefixed text of a fixed number of bytes. */
  predicate IsFixedHex(s: string, width: nat, lowerOnly: bool) {
    && |s| == 2 + 2 * width && s[..2] == "0x" && AllHex(s[2..])
    && (lowerOnly ==> AllLowerHex(s[2..]))
  }

  function FixedHex(s: string, width: nat, lowerOnly: bool): (r: Option<Bytes>)
    ensures r.Some? ==> |r.value| == width
  {
    if IsFixedHex(s, width, lowerOnly) then Some(Unhex(s[2..])) else None
  }

  lemma FixedHexOfHex0x(b: Bytes, lowerOnly: bool)
    ensures FixedHex(Hex0x(b), |b|, lowerOnly) == Some(b)
  {
    HexIsLowerHex(b);
    LowerHexIsHex(Hex(b));
    UnhexHex(b);
    assert Hex0x(b)[2..] == Hex(b) && Hex0x(b)[..2] == "0x";
  }
}
