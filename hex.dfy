/**
 * Lower-case hexadecimal encoding of a digest, as `generateAuthToken` builds it
 * (main.ts): every byte is written with `toString(16)`, left-padded with "0"
 * to two characters, and the pieces are joined in order.
 */
module HexEncoding {
  import opened Wrappers

  /** One element of a `Uint8Array`. */
  newtype byte = x: int | 0 <= x < 256

  predicate IsLowerHexChar(c: char)
  {
    '0' <= c <= '9' || 'a' <= c <= 'f'
  }

  predicate IsLowerHex(s: string)
  {
    forall i :: 0 <= i < |s| ==> IsLowerHexChar(s[i])
  }

  /** The digit JavaScript's radix-16 `toString` writes for a value below 16. */
  function HexDigit(d: nat): (c: char)
    requires d < 16
    ensures IsLowerHexChar(c)
  {
    if d < 10 then ('0' as int + d) as char else ('a' as int + d - 10) as char
  }

  /** The value of a lower-case hexadecimal digit; `None` for any other character. */
  function DigitValue(c: char): (v: Option<nat>)
    ensures v.Some? <==> IsLowerHexChar(c)
    ensures v.Some? ==> v.value < 16 && HexDigit(v.value) == c
  {
    if '0' <= c <= '9' then Some(c as int - '0' as int)
    else if 'a' <= c <= 'f' then Some(c as int - 'a' as int + 10)
    else None
  }

  lemma DigitValueOfHexDigit(d: nat)
    requires d < 16
    ensures DigitValue(HexDigit(d)) == Some(d)
  {
  }

  /** The number a string of lower-case hexadecimal digits denotes (most significant first). */
  function HexValue(s: string): nat
    requires IsLowerHex(s)
  {
    if s == [] then 0
    else HexValue(s[..|s| - 1]) * 16 + DigitValue(s[|s| - 1]).value
  }

  /**
   * `n.toString(16)`: the radix-16 digits of `n`, most significant first,
   * with no leading zero.
   */
  function ToRadix16(n: nat): (s: string)
    ensures 1 <= |s| && IsLowerHex(s)
    ensures s[0] == '0' ==> n == 0
    ensures |s| == 1 <==> n < 16
  {
    if n < 16 then [HexDigit(n)]
    else
      var high := ToRadix16(n / 16);
      var s := high + [HexDigit(n % 16)];
      assert s[..|s| - 1] == high;
      s
  }

  /** The digits `ToRadix16` writes denote the number it was given. */
  lemma {:induction false} ToRadix16Value(n: nat)
    ensures HexValue(ToRadix16(n)) == n
  {
    var s := ToRadix16(n);
    if n >= 16 {
      ToRadix16Value(n / 16);
      assert s[..|s| - 1] == ToRadix16(n / 16);
      DigitValueOfHexDigit(n % 16);
    }
  }

  /** `s.padStart(targetLength, fill)` for a one-character fill string. */
  function PadStart(s: string, targetLength: nat, fill: char): string
  {
    if |s| < targetLength then seq(targetLength - |s|, _ => fill) + s else s
  }

  /**
   * `padStart` leaves a long enough string alone and otherwise fills on the
   * left up to the target length, keeping `s` as the suffix.
   */
  lemma PadStartShape(s: string, targetLength: nat, fill: char)
    ensures var r := PadStart(s, targetLength, fill);
      && |r| == (if |s| < targetLength then targetLength else |s|)
      && r[|r| - |s|..] == s
      && forall i :: 0 <= i < |r| - |s| ==> r[i] == fill
  {
  }

  /** `b.toString(16).padStart(2, "0")`: exactly two digits, high nibble first. */
  function ByteToHex(b: byte): (h: string)
    ensures h == [HexDigit(b as nat / 16), HexDigit(b as nat % 16)]
  {
    var digits := ToRadix16(b as nat);
    if b < 16 then
      assert digits == [HexDigit(b as nat)];
      PadStart(digits, 2, '0')
    else
      assert digits == ToRadix16(b as nat / 16) + [HexDigit(b as nat % 16)];
      PadStart(digits, 2, '0')
  }

  /** `bytes.map(ByteToHex).join("")`. */
  function HexEncode(bytes: seq<byte>): (h: string)
    ensures |h| == 2 * |bytes|
  {
    if bytes == [] then ""
    else ByteToHex(bytes[0]) + HexEncode(bytes[1..])
  }

  /** Each byte lands at positions `2k` and `2k + 1`, high nibble first. */
  lemma {:induction false} HexEncodeAt(bytes: seq<byte>, k: nat)
    requires k < |bytes|
    ensures HexEncode(bytes)[2 * k] == HexDigit(bytes[k] as nat / 16)
    ensures HexEncode(bytes)[2 * k + 1] == HexDigit(bytes[k] as nat % 16)
  {
    var h := HexEncode(bytes);
    var head := ByteToHex(bytes[0]);
    var tail := HexEncode(bytes[1..]);
    assert h == head + tail;
    if k > 0 {
      HexEncodeAt(bytes[1..], k - 1);
      assert bytes[1..][k - 1] == bytes[k];
      assert h[2 * k] == tail[2 * (k - 1)];
      assert h[2 * k + 1] == tail[2 * (k - 1) + 1];
    }
  }

  /** A token consists of lower-case hexadecimal digits only. */
  lemma HexEncodeIsLowerHex(bytes: seq<byte>)
    ensures IsLowerHex(HexEncode(bytes))
  {
    var h := HexEncode(bytes);
    forall i | 0 <= i < |h|
      ensures IsLowerHexChar(h[i])
    {
      HexEncodeAt(bytes, i / 2);
    }
  }

  /** The inverse of `HexEncode`: pairs of lower-case digits back to bytes. */
  function HexDecode(s: string): (r: Option<seq<byte>>)
    ensures r.Some? ==> 2 * |r.value| == |s|
  {
    if s == [] then Some([])
    else if |s| == 1 then None
    else
      match (DigitValue(s[0]), DigitValue(s[1]), HexDecode(s[2..]))
      case (Some(hi), Some(lo), Some(rest)) => Some([(hi * 16 + lo) as byte] + rest)
      case _ => None
  }

  /** Decoding undoes encoding. */
  lemma {:induction false} HexDecodeEncode(bytes: seq<byte>)
    ensures HexDecode(HexEncode(bytes)) == Some(bytes)
  {
    if bytes != [] {
      var b := bytes[0];
      var h := HexEncode(bytes);
      assert h == ByteToHex(b) + HexEncode(bytes[1..]);
      assert h[2..] == HexEncode(bytes[1..]);
      DigitValueOfHexDigit(b as nat / 16);
      DigitValueOfHexDigit(b as nat % 16);
      HexDecodeEncode(bytes[1..]);
      assert [b] + bytes[1..] == bytes;
    }
  }

  /** Encoding undoes decoding: every string `HexDecode` accepts is an encoding. */
  lemma {:induction false} HexEncodeDecode(s: string, bytes: seq<byte>)
    requires HexDecode(s) == Some(bytes)
    ensures HexEncode(bytes) == s
  {
    if s != [] {
      var hi := DigitValue(s[0]).value;
      var lo := DigitValue(s[1]).value;
      var rest := HexDecode(s[2..]).value;
      var b := (hi * 16 + lo) as byte;
      assert bytes == [b] + rest;
      assert b as nat / 16 == hi && b as nat % 16 == lo;
      assert ByteToHex(b) == [s[0], s[1]];
      HexEncodeDecode(s[2..], rest);
      assert bytes[1..] == rest;
      assert HexEncode(bytes) == ByteToHex(b) + HexEncode(rest);
      assert s == [s[0], s[1]] + s[2..];
    }
  }

  /** Distinct digests give distinct tokens. */
  lemma HexEncodeInjective(a: seq<byte>, b: seq<byte>)
    ensures HexEncode(a) == HexEncode(b) <==> a == b
  {
    HexDecodeEncode(a);
    HexDecodeEncode(b);
  }
}
