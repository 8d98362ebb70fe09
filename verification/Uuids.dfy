/** Identifiers and challenges: 128-bit values with one canonical text. */
module Uuids {

  type Uuid = n: nat | n < 0x1_0000_0000_0000_0000_0000_0000_0000_0000

  function HexDigit(d: nat): char
    requires d < 16
  {
    "0123456789abcdef"[d]
  }

  predicate IsHex(c: char) {
    '0' <= c <= '9' || 'a' <= c <= 'f'
  }

  function Pow16(width: nat): nat {
    if width == 0 then 1 else 16 * Pow16(width - 1)
  }

  lemma {:induction false} Pow16Adds(a: nat, b: nat)
    ensures Pow16(a + b) == Pow16(a) * Pow16(b)
  {
    if a > 0 {
      Pow16Adds(a - 1, b);
      assert 16 * (Pow16(a - 1) * Pow16(b)) == (16 * Pow16(a - 1)) * Pow16(b);
    }
  }

  lemma Pow16Of32()
    ensures Pow16(32) == 0x1_0000_0000_0000_0000_0000_0000_0000_0000
  {
    Pow16Adds(2, 2);
    assert Pow16(2) == 256;
    Pow16Adds(4, 4);
    Pow16Adds(8, 8);
    Pow16Adds(16, 16);
  }

  /** The low `width` hexadecimal digits of n, most significant first. */
  function Hex(n: nat, width: nat): (s: string)
    ensures |s| == width && forall i :: 0 <= i < width ==> IsHex(s[i])
  {
    if width == 0 then "" else Hex(n / 16, width - 1) + [HexDigit(n % 16)]
  }

  function DigitOf(c: char): nat {
    if '0' <= c <= '9' then c as nat - '0' as nat else if 'a' <= c <= 'f' then c as nat - 'a' as nat + 10 else 0
  }

  /** The number a hexadecimal text stands for. */
  function HexValue(s: string): nat {
    if s == "" then 0 else 16 * HexValue(s[..|s| - 1]) + DigitOf(s[|s| - 1])
  }

  lemma {:induction false} HexReadsBack(n: nat, width: nat)
    requires n < Pow16(width)
    ensures HexValue(Hex(n, width)) == n
  {
    if width > 0 {
      assert Hex(n, width)[..width - 1] == Hex(n / 16, width - 1);
      HexReadsBack(n / 16, width - 1);
      DigitValue(n % 16);
    }
  }

  lemma DigitValue(d: nat)
    requires d < 16
    ensures HexDigit(d) == if d < 10 then '0' + d as char else 'a' + (d - 10) as char
  {
    if d < 4 {} else if d < 8 {} else if d < 12 {} else {}
  }

  /** uuid.UUID.String(): 8-4-4-4-12. */
  function FormatUuid(u: Uuid): (s: string)
    ensures |s| == 36 && forall i :: 0 <= i < 36 ==> IsHex(s[i]) || s[i] == '-'
  {
    var h := Hex(u, 32);
    h[..8] + "-" + h[8..12] + "-" + h[12..16] + "-" + h[16..20] + "-" + h[20..]
  }

  lemma FormatParts(u: Uuid)
    ensures var h, s := Hex(u, 32), FormatUuid(u);
            s[..8] + s[9..13] + s[14..18] + s[19..23] + s[24..] == h
  {
    var h, s := Hex(u, 32), FormatUuid(u);
    assert s[..8] == h[..8] && s[9..13] == h[8..12] && s[14..18] == h[12..16];
    assert s[19..23] == h[16..20] && s[24..] == h[20..];
  }

  /** The digits of an identifier's text, read as one number, are the identifier. */
  lemma FormatReadsBack(u: Uuid)
    ensures var s := FormatUuid(u);
            && s[8] == s[13] == s[18] == s[23] == '-'
            && HexValue(s[..8] + s[9..13] + s[14..18] + s[19..23] + s[24..]) == u
  {
    FormatParts(u);
    Pow16Of32();
    HexReadsBack(u, 32);
  }

  /** Distinct identifiers have distinct texts. */
  lemma FormatInjective(u: Uuid, v: Uuid)
    requires FormatUuid(u) == FormatUuid(v)
    ensures u == v
  {
    FormatReadsBack(u);
    FormatReadsBack(v);
  }
}
