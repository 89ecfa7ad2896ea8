/** Base16 as Node's `Buffer` implements it: `buf.toString("hex")` writes
    each byte as two lower-case digits (the lower-case alphabet of section 8
    of RFC 4648), and `Buffer.from(s, "hex")` reads digit pairs of either
    case from the start and stops at the first pair that is not two hex
    digits, dropping an odd final digit. */
module Hex {

  type byte = x: int | 0 <= x < 256

  predicate IsLowerHexDigit(c: char)
  {
    ('0' <= c <= '9') || ('a' <= c <= 'f')
  }

  /** The lower-case digit for a value below sixteen: `0`-`9`, then `a`-`f`. */
  function Digit(k: int): (c: char)
    requires 0 <= k < 16
    ensures IsLowerHexDigit(c)
  {
    if k < 10 then ('0' as int + k) as char else ('a' as int + k - 10) as char
  }

  /** The value of one hex digit of either case, or -1 when it is none. */
  function Nibble(c: char): (r: int)
    ensures -1 <= r < 16
    ensures IsLowerHexDigit(c) <==> 0 <= r && Digit(r) == c
    ensures r >= 0 <==> IsLowerHexDigit(c) || ('A' <= c <= 'F')
  {
    if '0' <= c <= '9' then c as int - '0' as int
    else if 'a' <= c <= 'f' then c as int - 'a' as int + 10
    else if 'A' <= c <= 'F' then c as int - 'A' as int + 10
    else -1
  }

  /** `buf.toString("hex")`. */
  function Encode(bs: seq<byte>): (s: string)
    ensures |s| == 2 * |bs|
    ensures forall i :: 0 <= i < |s| ==> IsLowerHexDigit(s[i])
  {
    if bs == [] then []
    else [Digit(bs[0] / 16), Digit(bs[0] % 16)] + Encode(bs[1..])
  }

  /** `Buffer.from(s, "hex")`. */
  function Decode(s: string): (bs: seq<byte>)
    ensures |bs| <= |s| / 2
    decreases |s|
  {
    if |s| < 2 then []
    else
      var hi, lo := Nibble(s[0]), Nibble(s[1]);
      if hi < 0 || lo < 0 then [] else [hi * 16 + lo] + Decode(s[2..])
  }

  /** Reading a digit back gives its value. */
  lemma NibbleDigit(k: int)
    requires 0 <= k < 16
    ensures Nibble(Digit(k)) == k
  {
  }

  /** Decoding what was encoded gives the bytes back. */
  lemma {:induction false} DecodeEncode(bs: seq<byte>)
    ensures Decode(Encode(bs)) == bs
  {
    if bs != [] {
      var s := Encode(bs);
      assert s[2..] == Encode(bs[1..]);
      NibbleDigit(bs[0] / 16);
      NibbleDigit(bs[0] % 16);
      DecodeEncode(bs[1..]);
      assert bs == [bs[0]] + bs[1..];
    }
  }

  /** An encoding holds no character outside the sixteen digits, so in
      particular no ':' separator. */
  lemma EncodeHasNoColon(bs: seq<byte>)
    ensures ':' !in Encode(bs)
  {
  }
}
