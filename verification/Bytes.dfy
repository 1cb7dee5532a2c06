/** Bytes, little-endian integers and hexadecimal text, as the wire formats use them. */
module Bytes {

  type byte = x: int | 0 <= x < 256

  type uint16 = x: int | 0 <= x < 0x1_0000

  type uint32 = x: int | 0 <= x < 0x1_0000_0000

  function Le16(v: uint16): (s: seq<byte>)
    ensures |s| == 2
  {
    [v % 256, v / 256]
  }

  function Le32(v: uint32): (s: seq<byte>)
    ensures |s| == 4
  {
    [v % 256, v / 256 % 256, v / 0x1_0000 % 256, v / 0x100_0000]
  }

  /** `in[0] | in[1] << 8`; the operands share no bit, so the disjunction is a sum. */
  function Get16(s: seq<byte>, at: nat): uint16
    requires at + 2 <= |s|
  {
    var a: int, b: int := s[at], s[at + 1];
    a + 256 * b
  }

  function Get32(s: seq<byte>, at: nat): uint32
    requires at + 4 <= |s|
  {
    var a: int, b: int, c: int, d: int := s[at], s[at + 1], s[at + 2], s[at + 3];
    a + 256 * b + 0x1_0000 * c + 0x100_0000 * d
  }

  /** Reading a field gives `v` exactly when the field holds the encoding of `v`. */
  lemma Get16Iff(s: seq<byte>, at: nat, v: uint16)
    requires at + 2 <= |s|
    ensures Get16(s, at) == v <==> s[at..at + 2] == Le16(v)
  {
    var t := s[at..at + 2];
    assert t[0] == s[at] && t[1] == s[at + 1];
    if Get16(s, at) == v {
      assert t == Le16(v);
    }
  }

  lemma Get32Iff(s: seq<byte>, at: nat, v: uint32)
    requires at + 4 <= |s|
    ensures Get32(s, at) == v <==> s[at..at + 4] == Le32(v)
  {
    var t := s[at..at + 4];
    assert t[0] == s[at] && t[1] == s[at + 1] && t[2] == s[at + 2] && t[3] == s[at + 3];
    Digits32(s[at], s[at + 1], s[at + 2], s[at + 3]);
    Digits32Sum(v);
    if Get32(s, at) == v {
      assert t == Le32(v);
    }
  }

  lemma Digits32Sum(v: uint32)
    ensures v == v % 256 + 256 * (v / 256 % 256) + 0x1_0000 * (v / 0x1_0000 % 256) + 0x100_0000 * (v / 0x100_0000)
  {
    assert v / 0x1_0000 == v / 256 / 256 && v / 0x100_0000 == v / 0x1_0000 / 256;
  }

  lemma Digits32(a: byte, b: byte, c: byte, d: byte)
    ensures var v := a + 256 * b + 0x1_0000 * c + 0x100_0000 * d;
            v % 256 == a && v / 256 % 256 == b && v / 0x1_0000 % 256 == c && v / 0x100_0000 == d
  {
    var v := a + 256 * b + 0x1_0000 * c + 0x100_0000 * d;
    assert v / 256 == b + 256 * c + 0x1_0000 * d;
    assert v / 0x1_0000 == c + 256 * d;
  }

  // ---------- Writing into buffers ----------

  /** The bytes are written at `at`; what lies before and after stays. */
  twostate predicate Wrote(out: array<byte>, at: nat, s: seq<byte>)
    requires at + |s| <= out.Length
    reads out
  {
    && out[..at + |s|] == old(out[..at]) + s
    && forall i :: at + |s| <= i < out.Length ==> out[i] == old(out[i])
  }

  method Copy(out: array<byte>, at: nat, s: seq<byte>)
    requires at + |s| <= out.Length
    modifies out
    ensures Wrote(out, at, s)
  {
    for i := 0 to |s|
      invariant out[..at + i] == old(out[..at]) + s[..i]
      invariant forall j :: at + |s| <= j < out.Length ==> out[j] == old(out[j])
    {
      out[at + i] := s[i];
      assert out[..at + i + 1] == out[..at + i] + [s[i]];
      assert s[..i + 1] == s[..i] + [s[i]];
    }
    assert s[..|s|] == s;
  }

  method Put16(out: array<byte>, at: nat, value: uint16)
    requires at + 2 <= out.Length
    modifies out
    ensures Wrote(out, at, Le16(value))
  {
    out[at] := value % 256;
    out[at + 1] := value / 256;
  }

  method Put32(out: array<byte>, at: nat, value: uint32)
    requires at + 4 <= out.Length
    modifies out
    ensures Wrote(out, at, Le32(value))
  {
    var rest: int := value;
    var le := Le32(value);
    for i := 0 to 4
      invariant 0 <= rest
      invariant i == 0 ==> rest == value
      invariant i == 1 ==> rest == value / 256
      invariant i == 2 ==> rest == value / 0x1_0000
      invariant i == 3 ==> rest == value / 0x100_0000
      invariant out[..at + i] == old(out[..at]) + le[..i]
      invariant forall j :: at + 4 <= j < out.Length ==> out[j] == old(out[j])
    {
      assert i == 3 ==> rest < 256;
      assert rest % 256 == le[i];
      out[at + i] := rest % 256;
      assert out[..at + i + 1] == out[..at + i] + [le[i]];
      assert le[..i + 1] == le[..i] + [le[i]];
      assert i == 1 ==> rest / 256 == value / 0x1_0000;
      assert i == 2 ==> rest / 256 == value / 0x100_0000;
      rest := rest / 256;
    }
    assert le[..4] == le;
  }

  // ---------- Hexadecimal ----------

  function HexDigit(n: int): char
    requires 0 <= n < 16
  {
    "0123456789abcdef"[n]
  }

  function Hex(bs: seq<byte>): (s: string)
    ensures |s| == 2 * |bs|
  {
    if bs == [] then "" else [HexDigit(bs[0] / 16), HexDigit(bs[0] % 16)] + Hex(bs[1..])
  }

  lemma HexDigitInjective(m: int, n: int)
    requires 0 <= m < 16 && 0 <= n < 16 && HexDigit(m) == HexDigit(n)
    ensures m == n
  {
    var digits := "0123456789abcdef";
    assert digits[0] == '0' && digits[1] == '1' && digits[2] == '2' && digits[3] == '3' && digits[4] == '4';
    assert digits[5] == '5' && digits[6] == '6' && digits[7] == '7' && digits[8] == '8' && digits[9] == '9';
    assert digits[10] == 'a' && digits[11] == 'b' && digits[12] == 'c' && digits[13] == 'd';
    assert digits[14] == 'e' && digits[15] == 'f';
  }

  /** Two identifiers print alike only if they are equal, so comparing the text compares the identifier. */
  lemma {:induction false} HexInjective(a: seq<byte>, b: seq<byte>)
    requires Hex(a) == Hex(b)
    ensures a == b
  {
    assert |Hex(a)| == 2 * |a| && |Hex(b)| == 2 * |b|;
    if a != [] {
      var ha, hb := Hex(a), Hex(b);
      assert ha[0] == hb[0] && ha[1] == hb[1] && ha[2..] == hb[2..];
      HexDigitInjective(a[0] / 16, b[0] / 16);
      HexDigitInjective(a[0] % 16, b[0] % 16);
      assert ha[2..] == Hex(a[1..]) && hb[2..] == Hex(b[1..]);
      HexInjective(a[1..], b[1..]);
      assert a == [a[0]] + a[1..] && b == [b[0]] + b[1..];
    }
  }
}
