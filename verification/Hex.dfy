/** Bytes, and their hexadecimal text. */
module Hex {
  import opened Base

  type byte = b: int | 0 <= b < 256
  type nibble = n: int | 0 <= n < 16

  const DIGITS: string := "0123456789abcdef"

  function Digit(n: nibble): char { DIGITS[n] }

  /** Both cases of the letters are read; only lower case is written. */
  function DigitValue(c: char): (r: Option<int>)
    ensures r.Some? ==> 0 <= r.value < 16
  {
    if '0' <= c <= '9' then Some(c as int - '0' as int)
    else if 'a' <= c <= 'f' then Some(c as int - 'a' as int + 10)
    else if 'A' <= c <= 'F' then Some(c as int - 'A' as int + 10)
    else None
  }

  lemma DigitRoundTrip(n: nibble)
    ensures DigitValue(Digit(n)) == Some(n)
  {
    assert DIGITS[0..] == "0123456789abcdef";
  }

  function Encode(bs: seq<byte>): (s: string)
    ensures |s| == 2 * |bs|
    ensures forall c | c in s :: DigitValue(c).Some?
  {
    if bs == [] then ""
    else
      DigitRoundTrip(bs[0] / 16);
      DigitRoundTrip(bs[0] % 16);
      [Digit(bs[0] / 16), Digit(bs[0] % 16)] + Encode(bs[1..])
  }

  /** Two lower-case digits for each byte, the high one first. */
  lemma {:induction false} EncodeIs(bs: seq<byte>, i: nat)
    requires i < |bs|
    ensures Encode(bs)[2 * i] == "0123456789abcdef"[bs[i] / 16]
    ensures Encode(bs)[2 * i + 1] == "0123456789abcdef"[bs[i] % 16]
  {
    if i == 0 {
    } else {
      EncodeIs(bs[1..], i - 1);
      assert Encode(bs) == [Digit(bs[0] / 16), Digit(bs[0] % 16)] + Encode(bs[1..]);
    }
  }

  /** None for an odd number of characters or a character that is no digit. */
  function Decode(s: string): Option<seq<byte>> {
    if s == "" then Some([])
    else if |s| == 1 then None
    else if DigitValue(s[0]).None? || DigitValue(s[1]).None? || Decode(s[2..]).None? then None
    else Some([PairByte(s[0], s[1])] + Decode(s[2..]).value)
  }

  function PairByte(hi: char, lo: char): byte
    requires DigitValue(hi).Some? && DigitValue(lo).Some?
  {
    DigitValue(hi).value * 16 + DigitValue(lo).value
  }

  lemma {:induction false} DecodeEncode(bs: seq<byte>)
    ensures Decode(Encode(bs)) == Some(bs)
  {
    if bs == [] {
    } else {
      var s := Encode(bs);
      DigitRoundTrip(bs[0] / 16);
      DigitRoundTrip(bs[0] % 16);
      assert s[2..] == Encode(bs[1..]);
      DecodeEncode(bs[1..]);
      assert PairByte(s[0], s[1]) == bs[0];
      assert bs == [bs[0]] + bs[1..];
    }
  }

  /** The number a big-endian digit text stands for. */
  function TextValue(s: string): nat
    requires forall c | c in s :: DigitValue(c).Some?
  {
    if s == "" then 0 else TextValue(s[..|s| - 1]) * 16 + DigitValue(s[|s| - 1]).value
  }
}
