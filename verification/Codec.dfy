/** A trigger block number as it travels in an identity prefix: written by the tester, read back by the
    collector, and read and written once more by the SQL functions (utils/utils.go,
    continuous/collection_queries.sql). */
module Codec {
  import opened Base
  import opened Hex

  function Max0(n: int): nat { if n > 0 then n else 0 }

  function Zeros(n: nat): (z: seq<byte>)
    ensures |z| == n && forall i | 0 <= i < n :: z[i] == 0
  {
    seq(n, _ => 0)
  }

  // --- little and big endian ---

  function LE(v: nat, n: nat): (s: seq<byte>)
    ensures |s| == n
  {
    if n == 0 then [] else [v % 256] + LE(v / 256, n - 1)
  }

  function FromLE(s: seq<byte>): nat {
    if s == [] then 0 else s[0] + 256 * FromLE(s[1..])
  }

  function FromBE(s: seq<byte>): nat {
    if s == [] then 0 else FromBE(s[..|s| - 1]) * 256 + s[|s| - 1]
  }

  function Pow256(n: nat): nat { if n == 0 then 1 else 256 * Pow256(n - 1) }

  lemma Pow256Is()
    ensures Pow256(8) == WORD
  {
    assert Pow256(4) == 0x1_0000_0000;
    assert Pow256(8) == 256 * (256 * (256 * (256 * Pow256(4))));
  }

  lemma {:induction false} LERoundTrip(v: nat, n: nat)
    requires v < Pow256(n)
    ensures FromLE(LE(v, n)) == v
  {
    if n == 0 {
    } else {
      LERoundTrip(v / 256, n - 1);
      assert LE(v, n)[1..] == LE(v / 256, n - 1);
    }
  }

  /** A byte string is determined by its length and the number it stands for. */
  lemma {:induction false} FromLERoundTrip(s: seq<byte>)
    ensures FromLE(s) < Pow256(|s|)
    ensures LE(FromLE(s), |s|) == s
  {
    if s == [] {
    } else {
      FromLERoundTrip(s[1..]);
      assert FromLE(s) / 256 == FromLE(s[1..]) && FromLE(s) % 256 == s[0];
      assert s == [s[0]] + s[1..];
    }
  }

  lemma {:induction false} FromLEAppend(a: seq<byte>, b: seq<byte>)
    ensures FromLE(a + b) == FromLE(a) + Pow256(|a|) * FromLE(b)
  {
    if a == [] {
      assert a + b == b;
    } else {
      FromLEAppend(a[1..], b);
      assert (a + b)[1..] == a[1..] + b;
      assert Pow256(|a|) * FromLE(b) == 256 * (Pow256(|a| - 1) * FromLE(b));
    }
  }

  lemma {:induction false} FromLEZero(s: seq<byte>)
    ensures FromLE(s) == 0 <==> forall i | 0 <= i < |s| :: s[i] == 0
  {
    if s == [] {
    } else {
      FromLEZero(s[1..]);
      assert forall i | 0 <= i < |s[1..]| :: s[1..][i] == s[i + 1];
      if FromLE(s) == 0 {
        forall i | 0 <= i < |s| ensures s[i] == 0 {
          if i > 0 {
            assert s[1..][i - 1] == 0;
          }
        }
      }
    }
  }

  // --- the prefix ---

  /** 32 bytes: the number in the first eight, little endian, when it is positive. */
  function PrefixFromBlockNumber(n: int64): (p: seq<byte>)
    ensures |p| == 32
  {
    if n > 0 then LE(n, 8) + Zeros(24) else Zeros(32)
  }

  function BlockNumberFromPrefix(p: seq<byte>): int64
    requires |p| >= 8
  {
    Int64(FromLE(p[..8]))
  }

  /** Decoding an encoded block number gives it back; negative numbers come back as 0. */
  lemma PrefixRoundTrip(n: int64)
    ensures BlockNumberFromPrefix(PrefixFromBlockNumber(n)) == Max0(n)
  {
    var p := PrefixFromBlockNumber(n);
    Pow256Is();
    if n > 0 {
      assert p[..8] == LE(n, 8);
      LERoundTrip(n, 8);
    } else {
      FromLEZero(p[..8]);
    }
  }

  lemma PrefixInjective(m: int64, n: int64)
    ensures PrefixFromBlockNumber(m) == PrefixFromBlockNumber(n) <==> Max0(m) == Max0(n)
  {
    PrefixRoundTrip(m);
    PrefixRoundTrip(n);
  }

  /** A well-formed prefix is one the tester can have written. */
  predicate WellFormed(p: seq<byte>)
    requires |p| == 32
  {
    p[7] < 128 && forall i | 8 <= i < 32 :: p[i] == 0
  }

  lemma TailZero(p: seq<byte>)
    requires |p| == 32
    ensures p == p[..8] + Zeros(24) <==> forall i | 8 <= i < 32 :: p[i] == 0
  {
    if p == p[..8] + Zeros(24) {
      assert forall i | 8 <= i < 32 :: p[i] == Zeros(24)[i - 8];
    }
  }

  /** Re-encoding what was decoded gives the same 32 bytes exactly for well-formed prefixes. */
  lemma ReencodeIff(p: seq<byte>)
    requires |p| == 32
    ensures PrefixFromBlockNumber(BlockNumberFromPrefix(p)) == p <==> WellFormed(p)
  {
    TailZero(p);
    DecodedHead(p[..8]);
    if p[7] >= 128 {
      assert Zeros(32)[7] == 0;
    } else if FromLE(p[..8]) == 0 {
      assert p[..8] + Zeros(24) == Zeros(32);
    }
  }

  lemma DecodedHead(s: seq<byte>)
    requires |s| == 8
    ensures s[7] < 128 ==> Int64(FromLE(s)) == FromLE(s) && LE(FromLE(s), 8) == s
    ensures s[7] >= 128 ==> Int64(FromLE(s)) < 0
    ensures FromLE(s) == 0 ==> s == Zeros(8)
  {
    FromLERoundTrip(s);
    Pow256Is();
    TopByte(s);
    WordSign(FromLE(s));
    if FromLE(s) == 0 {
      LEZero(8);
    }
  }

  lemma WordSign(v: nat)
    requires v < WORD
    ensures Int64(v) == if v < 0x8000_0000_0000_0000 then v else v - WORD
  {
  }

  /** Eight bytes are below 2^63 exactly when the last one is below 128. */
  lemma TopByte(s: seq<byte>)
    requires |s| == 8
    ensures FromLE(s) < 0x8000_0000_0000_0000 <==> s[7] < 128
  {
    assert s == s[..7] + [s[7]];
    FromLEAppend(s[..7], [s[7]]);
    FromLERoundTrip(s[..7]);
    assert FromLE([s[7]]) == s[7] + 256 * FromLE([]);
    assert Pow256(4) == 0x1_0000_0000;
    assert Pow256(7) == 256 * (256 * (256 * Pow256(4)));
  }

  // --- the identity ---

  /** The identity preimage: prefix and sender address, 52 bytes. */
  function Preimage(prefix: seq<byte>, sender: seq<byte>): seq<byte> { prefix + sender }

  /** An account's address. */
  type Address = s: seq<byte> | |s| == 20 witness seq(20, _ => 0)

  /** BytesToAddress: the last 20 bytes, or zeros in front of fewer. */
  function BytesToAddress(s: seq<byte>): Address {
    if |s| >= 20 then s[|s| - 20..] else Zeros(20 - |s|) + s
  }

  /** The collector's test whether a decryption key belongs to a trigger of this tester. */
  predicate MatchesTrigger(preimage: seq<byte>, trigger: int, sender: Address)
    requires |preimage| >= 32
  {
    BytesToAddress(preimage[32..]) == sender && BlockNumberFromPrefix(preimage[..32]) == trigger
  }

  /** A key's preimage matches exactly the trigger and the sender it was made from. */
  lemma PreimageMatchesIff(n: int64, sender: Address, trigger: int, other: Address)
    ensures MatchesTrigger(Preimage(PrefixFromBlockNumber(n), sender), trigger, other)
       <==> Max0(n) == trigger && sender == other
  {
    var p := Preimage(PrefixFromBlockNumber(n), sender);
    assert p[..32] == PrefixFromBlockNumber(n) && p[32..] == sender;
    PrefixRoundTrip(n);
  }

  /** Of a preimage with a longer tail only the last 20 bytes count, so the match says nothing about the
      bytes between. */
  lemma MatchIgnoresMiddle(n: int64, middle: seq<byte>, sender: Address, trigger: int, other: Address)
    ensures MatchesTrigger(Preimage(PrefixFromBlockNumber(n), middle + sender), trigger, other)
       <==> Max0(n) == trigger && sender == other
  {
    var p := Preimage(PrefixFromBlockNumber(n), middle + sender);
    assert p[..32] == PrefixFromBlockNumber(n) && p[32..] == middle + sender;
    assert (middle + sender)[|middle|..] == sender;
    PrefixRoundTrip(n);
  }

  // --- the SQL functions ---

  function Reverse(s: seq<byte>): (r: seq<byte>)
    ensures |r| == |s| && forall i | 0 <= i < |s| :: r[i] == s[|s| - 1 - i]
  {
    seq(|s|, i requires 0 <= i < |s| => s[|s| - 1 - i])
  }

  lemma {:induction false} FromBEReverse(s: seq<byte>)
    ensures FromBE(Reverse(s)) == FromLE(s)
  {
    if s == [] {
    } else {
      FromBEReverse(s[1..]);
      var r := Reverse(s);
      assert r[..|r| - 1] == Reverse(s[1..]);
    }
  }

  /** SUBSTRING(s FROM start FOR count): positions count from 1, and those outside the string are
      skipped without being made up for. */
  function Substring(s: seq<byte>, start: int, count: nat): seq<byte> {
    var lo := if start < 1 then 1 else start;
    var hi := if start + count - 1 > |s| then |s| else start + count - 1;
    if lo > hi then [] else s[lo - 1..hi]
  }

  /** prefix_to_blocknumber, read as an exact number. */
  function SqlDecode(s: seq<byte>): nat { FromBE(Reverse(Substring(s, 0, 32))) }

  /** The SQL decoder sees 31 bytes, the tester's eight; they agree exactly when the rest is zero and the
      word is not negative. The 32nd byte is seen by neither. */
  lemma SqlDecodeAgreesIff(p: seq<byte>)
    requires |p| >= 32
    ensures SqlDecode(p) == BlockNumberFromPrefix(p) <==> p[7] < 128 && forall i | 8 <= i < 31 :: p[i] == 0
  {
    var high := FromLE(p[8..31]);
    SqlDecodeIs(p);
    FromLERoundTrip(p[..8]);
    Pow256Is();
    TopByte(p[..8]);
    FromLEZero(p[8..31]);
    assert forall i | 8 <= i < 31 :: p[i] == p[8..31][i - 8];
    if high != 0 {
      assert WORD * high >= WORD;
    }
  }

  lemma SqlDecodeIs(p: seq<byte>)
    requires |p| >= 32
    ensures SqlDecode(p) == FromLE(p[..8]) + WORD * FromLE(p[8..31])
  {
    var q := p[..31];
    assert Substring(p, 0, 32) == q;
    FromBEReverse(q);
    assert q == p[..8] + p[8..31];
    FromLEAppend(p[..8], p[8..31]);
    Pow256Is();
  }

  /** A prefix on which they differ: 0 to the program, 2^64 to the SQL function. */
  lemma SqlDecodeDiffers()
    ensures var p := Zeros(8) + [1] + Zeros(23);
      BlockNumberFromPrefix(p) == 0 && SqlDecode(p) == WORD
  {
    var p := Zeros(8) + [1] + Zeros(23);
    SqlDecodeIs(p);
    assert p[..8] == Zeros(8);
    FromLEZero(p[..8]);
    assert p[8..31] == [1] + Zeros(22);
    FromLEAppend([1], Zeros(22));
    FromLEZero(Zeros(22));
    assert FromLE([1]) == 1 + 256 * FromLE([]);
  }

  /** So it reads back every number the tester writes, also out of a whole identity preimage. */
  lemma SqlDecodesPrefix(n: int64, sender: seq<byte>)
    ensures SqlDecode(Preimage(PrefixFromBlockNumber(n), sender)) == Max0(n)
  {
    var p := Preimage(PrefixFromBlockNumber(n), sender);
    SqlDecodeAgreesIff(p);
    assert p[..32] == PrefixFromBlockNumber(n);
    assert p[..8] == p[..32][..8];
    PrefixRoundTrip(n);
    ReencodeIff(p[..32]);
    assert p[..32][7] == p[7];
    assert forall i | 8 <= i < 31 :: p[i] == p[..32][i];
  }

  /** to_hex of a non-negative number: digits without leading zeros. */
  function ToHex(v: nat): (s: string)
    ensures |s| >= 1 && forall c | c in s :: DigitValue(c).Some?
    ensures TextValue(s) == v
  {
    DigitRoundTrip(v % 16);
    if v < 16 then
      assert [Digit(v)][..0] == "";
      [Digit(v)]
    else
      var t := ToHex(v / 16);
      assert (t + [Digit(v % 16)])[..|t|] == t;
      t + [Digit(v % 16)]
  }

  function Pow16(n: nat): nat { if n == 0 then 1 else 16 * Pow16(n - 1) }

  lemma {:induction false} ToHexLength(v: nat, n: nat)
    requires v < Pow16(n) && n >= 1
    ensures |ToHex(v)| <= n
  {
    if v < 16 {
    } else {
      ToHexLength(v / 16, n - 1);
    }
  }

  /** lpad(s, n, '0'), for texts that are not longer than n. */
  function Lpad(s: string, n: nat): (r: string)
    requires |s| <= n && forall c | c in s :: DigitValue(c).Some?
    ensures |r| == n && forall c | c in r :: DigitValue(c).Some?
  {
    seq(n - |s|, _ => '0') + s
  }

  lemma {:induction false} LpadValue(s: string, n: nat)
    requires |s| <= n && forall c | c in s :: DigitValue(c).Some?
    ensures TextValue(Lpad(s, n)) == TextValue(s)
  {
    var r := Lpad(s, n);
    if s == "" {
      ZerosValue(r);
    } else {
      assert r[..n - 1] == Lpad(s[..|s| - 1], n - 1);
      LpadValue(s[..|s| - 1], n - 1);
    }
  }

  lemma {:induction false} ZerosValue(s: string)
    requires forall i | 0 <= i < |s| :: s[i] == '0'
    ensures (forall c | c in s :: DigitValue(c).Some?) && TextValue(s) == 0
  {
    if s == "" {
    } else {
      ZerosValue(s[..|s| - 1]);
    }
  }

  lemma {:induction false} DecodeAppend(a: string, b: string)
    requires |a| % 2 == 0 && Decode(a).Some? && Decode(b).Some?
    ensures Decode(a + b) == Some(Decode(a).value + Decode(b).value)
    decreases |a|
  {
    if a == "" {
      assert a + b == b && [] + Decode(b).value == Decode(b).value;
    } else {
      assert (a + b)[2..] == a[2..] + b && (a + b)[0] == a[0] && (a + b)[1] == a[1];
      DecodeAppend(a[2..], b);
      assert [PairByte(a[0], a[1])] + Decode(a[2..]).value + Decode(b).value
          == [PairByte(a[0], a[1])] + (Decode(a[2..]).value + Decode(b).value);
    }
  }

  lemma DecodePair(s: string)
    requires |s| == 2 && DigitValue(s[0]).Some? && DigitValue(s[1]).Some?
    ensures Decode(s) == Some([PairByte(s[0], s[1])])
  {
    assert s[2..] == "" && [PairByte(s[0], s[1])] + [] == [PairByte(s[0], s[1])];
  }

  /** Decoding an even digit text keeps the number. */
  lemma {:induction false} DecodeValue(s: string)
    requires |s| % 2 == 0 && forall c | c in s :: DigitValue(c).Some?
    ensures Decode(s).Some? && |Decode(s).value| == |s| / 2
    ensures FromBE(Decode(s).value) == TextValue(s)
    decreases |s|
  {
    if s == "" {
    } else {
      var n := |s|;
      var front, pair := s[..n - 2], s[n - 2..];
      DecodeValue(front);
      DecodePair(pair);
      DecodeAppend(front, pair);
      assert s == front + pair;
      var bs := Decode(s).value;
      assert bs[..|bs| - 1] == Decode(front).value;
      TextValueLastTwo(s);
    }
  }

  lemma TextValueLastTwo(s: string)
    requires |s| >= 2 && forall c | c in s :: DigitValue(c).Some?
    ensures TextValue(s)
         == TextValue(s[..|s| - 2]) * 256 + DigitValue(s[|s| - 2]).value * 16 + DigitValue(s[|s| - 1]).value
  {
    assert s[..|s| - 1][..|s| - 2] == s[..|s| - 2];
  }

  /** blocknumber_to_prefix before its last encode: the 16 bytes it stands for. A negative bigint shows
      its two's complement. */
  function SqlEncode(n: int64): Option<seq<byte>> {
    var word: nat := if n < 0 then n + 0x1_0000_0000_0000_0000 else n;
    WordFits(word);
    match Decode(Lpad(ToHex(word), 32))
    case Some(bs) => Some(Reverse(bs))
    case None => None
  }

  lemma WordFits(v: nat)
    requires v < 0x1_0000_0000_0000_0000
    ensures |ToHex(v)| <= 32
  {
    assert Pow16(4) == 0x1_0000;
    assert Pow16(8) == 16 * (16 * (16 * (16 * Pow16(4))));
    assert Pow16(12) == 16 * (16 * (16 * (16 * Pow16(8))));
    assert Pow16(16) == 16 * (16 * (16 * (16 * Pow16(12))));
    ToHexLength(v, 16);
  }

  lemma SqlEncodeIs(n: int64)
    ensures SqlEncode(n) == Some(LE(if n < 0 then n + 0x1_0000_0000_0000_0000 else n, 16))
  {
    var word: nat := if n < 0 then n + 0x1_0000_0000_0000_0000 else n;
    WordFits(word);
    var text := Lpad(ToHex(word), 32);
    LpadValue(ToHex(word), 32);
    DecodeValue(text);
    var bs := Decode(text).value;
    var r := Reverse(bs);
    assert Reverse(r) == bs;
    FromBEReverse(r);
    FromLERoundTrip(r);
  }

  /** The SQL encoder's 16 bytes followed by 16 zeros are the tester's prefix exactly for numbers that
      are not negative. */
  lemma SqlEncodeAgreesIff(n: int64)
    ensures SqlEncode(n).Some?
    ensures SqlEncode(n).value + Zeros(16) == PrefixFromBlockNumber(n) <==> n >= 0
  {
    SqlEncodeIs(n);
    Pow256Is();
    if n >= 0 {
      EncodersAgree(n);
    } else {
      var word := n + 0x1_0000_0000_0000_0000;
      LESplit(word, 8);
      ThreeParts(LE(word, 8));
      NonZeroShows(word);
    }
  }

  lemma EncodersAgree(n: int64)
    requires n >= 0
    ensures LE(n, 16) + Zeros(16) == PrefixFromBlockNumber(n)
  {
    Pow256Is();
    LESplit(n, 8);
    ThreeParts(LE(n, 8));
    if n == 0 {
      LEZero(8);
    }
  }

  lemma ThreeParts(s: seq<byte>)
    ensures s + Zeros(8) + Zeros(16) == s + Zeros(24)
    ensures Zeros(8) + Zeros(24) == Zeros(32)
  {
  }

  lemma NonZeroShows(word: nat)
    requires 0 < word < Pow256(8)
    ensures LE(word, 8) + Zeros(24) != Zeros(32)
  {
    LERoundTrip(word, 8);
    FromLEZero(LE(word, 8));
    var i :| 0 <= i < 8 && LE(word, 8)[i] != 0;
    assert (LE(word, 8) + Zeros(24))[i] != Zeros(32)[i];
  }

  lemma LEZero(n: nat)
    ensures LE(0, n) == Zeros(n)
  {
    FromLEZero(Zeros(n));
    FromLERoundTrip(Zeros(n));
  }

  /** A number that fits into n bytes leaves the bytes above them zero. */
  lemma LESplit(v: nat, n: nat)
    requires v < Pow256(n)
    ensures LE(v, n + 8) == LE(v, n) + Zeros(8)
  {
    var s := LE(v, n) + Zeros(8);
    assert FromLE(s) == v by {
      LERoundTrip(v, n);
      FromLEAppend(LE(v, n), Zeros(8));
      FromLEZero(Zeros(8));
      assert Pow256(n) * 0 == 0;
    }
    FromLERoundTrip(s);
  }
}
