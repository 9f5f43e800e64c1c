/** Lowercase hexadecimal text and the bytes it spells. */
module Hexadecimal {
  import opened Bytes

  predicate LowerHex(c: char)
  {
    '0' <= c <= '9' || 'a' <= c <= 'f'
  }

  predicate AllHex(s: string)
  {
    forall i :: 0 <= i < |s| ==> LowerHex(s[i])
  }

  function Digit(c: char): (d: int)
    requires LowerHex(c)
    ensures 0 <= d < 16
  {
    if c <= '9' then c as int - '0' as int else c as int - 'a' as int + 10
  }

  function HexChar(d: int): (c: char)
    requires 0 <= d < 16
    ensures LowerHex(c) && Digit(c) == d
  {
    if d < 10 then ('0' as int + d) as char else ('a' as int + d - 10) as char
  }

  /** Pairs of digits; a trailing odd digit is dropped. */
  function HexBytes(s: string): (r: seq<u8>)
    requires AllHex(s)
    ensures |r| == |s| / 2
  {
    if |s| < 2 then [] else [Digit(s[0]) * 16 + Digit(s[1])] + HexBytes(s[2..])
  }

  function HexText(b: seq<u8>): (s: string)
    ensures |s| == 2 * |b| && AllHex(s)
  {
    if b == [] then "" else [HexChar(b[0] / 16), HexChar(b[0] % 16)] + HexText(b[1..])
  }

  /** Decoding undoes encoding. */
  lemma {:induction false} HexDecodesText(b: seq<u8>)
    ensures HexBytes(HexText(b)) == b
  {
    hide Digit, HexChar;
    if b != [] {
      HexDecodesText(b[1..]);
      var s := HexText(b);
      assert s[0] == HexChar(b[0] / 16) && s[1] == HexChar(b[0] % 16) && s[2..] == HexText(b[1..]);
      assert b[0] == b[0] / 16 * 16 + b[0] % 16;
      assert b == [b[0]] + b[1..];
    }
  }

  /** Encoding undoes decoding, on even-length text. */
  lemma {:induction false} HexEncodesBytes(s: string)
    requires AllHex(s) && |s| % 2 == 0
    ensures HexText(HexBytes(s)) == s
  {
    if s != "" {
      HexEncodesBytes(s[2..]);
      DigitInverse(s[0]);
      DigitInverse(s[1]);
      var first := Digit(s[0]) * 16 + Digit(s[1]);
      assert HexBytes(s)[1..] == HexBytes(s[2..]);
      assert first / 16 == Digit(s[0]) && first % 16 == Digit(s[1]);
      assert s == [s[0], s[1]] + s[2..];
    }
  }

  /** Byte `i` is spelled by digits `2i` and `2i + 1`, the high half first. */
  lemma {:induction false} HexAt(s: string, i: nat)
    requires AllHex(s) && 2 * i + 1 < |s|
    ensures HexBytes(s)[i] == 16 * Digit(s[2 * i]) + Digit(s[2 * i + 1])
    decreases i
  {
    if i > 0 {
      HexAt(s[2..], i - 1);
      assert s[2..][2 * (i - 1)] == s[2 * i] && s[2..][2 * (i - 1) + 1] == s[2 * i + 1];
    }
  }

  lemma DigitInverse(c: char)
    requires LowerHex(c)
    ensures HexChar(Digit(c)) == c
  {
  }
}
