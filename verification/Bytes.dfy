/** Bytes, big-endian words, hexadecimal and decimal text, and Go's 64-bit signed integers. */
module Bytes {
  import opened Wrappers

  type Byte = b: int | 0 <= b < 256

  /** A Go byte slice or string: no allocation is longer than MAX_ALLOC bytes. */
  const MAX_ALLOC := 0x1_0000_0000_0000
  type GoBytes = s: seq<Byte> | |s| <= MAX_ALLOC
  type GoString = s: string | |s| <= MAX_ALLOC

  type Address = s: seq<Byte> | |s| == 20 witness seq(20, _ => 0)
  type Word = s: seq<Byte> | |s| == 32 witness seq(32, _ => 0)

  /** The authorised signers of a DON, each with its node operator's id. */
  type Signers = map<Address, nat>

  // ----- Big-endian numbers -----

  function Pow256(n: nat): (p: nat)
    ensures p > 0
  {
    if n == 0 then 1 else 256 * Pow256(n - 1)
  }

  function FromBE(s: seq<Byte>): nat { Leading(s, |s|) }

  /** The number that the first n bytes stand for. */
  function Leading(s: seq<Byte>, n: nat): nat
    requires n <= |s|
  {
    if n == 0 then 0 else 256 * Leading(s, n - 1) + s[n - 1]
  }

  function ToBE(v: nat, n: nat): (s: seq<Byte>)
    ensures |s| == n
  {
    if n == 0 then [] else ToBE(v / 256, n - 1) + [v % 256]
  }

  lemma {:induction false} LeadingOfPrefix(s: seq<Byte>, t: seq<Byte>, n: nat)
    requires n <= |s| && n <= |t| && s[..n] == t[..n]
    ensures Leading(s, n) == Leading(t, n)
  {
    if n > 0 {
      assert s[n - 1] == s[..n][n - 1] == t[..n][n - 1] == t[n - 1];
      assert s[..n - 1] == s[..n][..n - 1] == t[..n][..n - 1] == t[..n - 1];
      LeadingOfPrefix(s, t, n - 1);
    }
  }

  lemma {:induction false} LeadingBound(s: seq<Byte>, n: nat)
    requires n <= |s|
    ensures Leading(s, n) < Pow256(n)
  {
    if n > 0 {
      LeadingBound(s, n - 1);
    }
  }

  /** Writing and reading a number that fits. */
  lemma {:induction false} FromToBE(v: nat, n: nat)
    requires v < Pow256(n)
    ensures FromBE(ToBE(v, n)) == v
    decreases n
  {
    if n > 0 {
      FromToBE(v / 256, n - 1);
      LeadingOfPrefix(ToBE(v, n), ToBE(v / 256, n - 1), n - 1);
    }
  }

  /** Reading and writing back. */
  lemma {:induction false} ToLeading(s: seq<Byte>, n: nat)
    requires n <= |s|
    ensures ToBE(Leading(s, n), n) == s[..n]
  {
    if n > 0 {
      ToLeading(s, n - 1);
      assert s[..n] == s[..n - 1] + [s[n - 1]];
    }
  }

  lemma ToFromBE(s: seq<Byte>)
    ensures ToBE(FromBE(s), |s|) == s
  {
    ToLeading(s, |s|);
    assert s[..|s|] == s;
  }

  // ----- Go's int on a 64-bit platform -----

  const TWO_63 := 0x8000_0000_0000_0000
  const TWO_64 := 0x1_0000_0000_0000_0000

  type Int64 = v: int | -TWO_63 <= v < TWO_63

  /** Two's-complement wrap-around. */
  function Wrap64(v: int): (r: Int64)
    ensures (r - v) % TWO_64 == 0
    ensures -TWO_63 <= v < TWO_63 ==> r == v
  {
    if -TWO_63 <= v < TWO_63 then v else (v + TWO_63) % TWO_64 - TWO_63
  }

  /** int(new(big.Int).SetBytes(s).Int64()): the low 64 bits, as a signed number. */
  function WordToInt(s: seq<Byte>): (r: Int64)
    ensures FromBE(s) < TWO_63 ==> r == FromBE(s)
  {
    Wrap64(FromBE(s))
  }

  // ----- Hexadecimal text, as encoding/hex reads and writes it -----

  function HexChar(v: nat): char
    requires v < 16
  {
    if v < 10 then ('0' as int + v) as char else ('a' as int + v - 10) as char
  }

  function HexDigit(c: char): (r: Option<nat>)
    ensures r.Some? ==> r.value < 16
  {
    if '0' <= c <= '9' then Some((c as int) - ('0' as int))
    else if 'a' <= c <= 'f' then Some((c as int) - ('a' as int) + 10)
    else if 'A' <= c <= 'F' then Some((c as int) - ('A' as int) + 10)
    else None
  }

  function EncodeHex(s: seq<Byte>): (t: string)
    ensures |t| == 2 * |s|
  {
    if s == [] then "" else [HexChar(s[0] / 16), HexChar(s[0] % 16)] + EncodeHex(s[1..])
  }

  function DecodeHex(t: string): Option<seq<Byte>> {
    if t == "" then Some([])
    else if |t| == 1 then None
    else
      match (HexDigit(t[0]), HexDigit(t[1]), DecodeHex(t[2..]))
      case (Some(h), Some(l), Some(rest)) => Some([16 * h + l] + rest)
      case _ => None
  }

  lemma {:induction false} DecodeHexLength(t: string)
    ensures DecodeHex(t).Some? ==> 2 * |DecodeHex(t).value| == |t|
  {
    if |t| > 1 {
      DecodeHexLength(t[2..]);
    }
  }

  lemma {:induction false} DecodeEncodeHex(s: seq<Byte>)
    ensures DecodeHex(EncodeHex(s)) == Some(s)
  {
    if s != [] {
      DecodeEncodeHex(s[1..]);
      DecodeHexPair(s[0] / 16, s[0] % 16, EncodeHex(s[1..]), s[1..]);
      assert [16 * (s[0] / 16) + s[0] % 16] + s[1..] == s;
    }
  }

  lemma DecodeHexPair(h: nat, l: nat, t: string, rest: seq<Byte>)
    requires h < 16 && l < 16 && DecodeHex(t) == Some(rest)
    ensures DecodeHex([HexChar(h), HexChar(l)] + t) == Some([16 * h + l] + rest)
  {
    var u := [HexChar(h), HexChar(l)] + t;
    assert u[0] == HexChar(h) && u[1] == HexChar(l) && u[2..] == t;
  }

  /** The character is the hexadecimal digit of v, in lower or upper case. */
  predicate IsDigitOf(c: char, v: nat) {
    v < 16 && (c == "0123456789abcdef"[v] || c == "0123456789ABCDEF"[v])
  }

  /** The text has two digits for each byte, the upper half first. */
  predicate HexText(t: string, s: seq<Byte>) {
    && |t| == 2 * |s|
    && forall i | 0 <= i < |s| :: IsDigitOf(t[2 * i], s[i] / 16) && IsDigitOf(t[2 * i + 1], s[i] % 16)
  }

  /** The text has the two lower-case digits of each byte. */
  predicate LowerHex(t: string, s: seq<Byte>) {
    && |t| == 2 * |s|
    && forall i | 0 <= i < |s| :: t[2 * i] == "0123456789abcdef"[s[i] / 16] && t[2 * i + 1] == "0123456789abcdef"[s[i] % 16]
  }

  lemma {:induction false} EncodeHexIsLower(s: seq<Byte>)
    ensures LowerHex(EncodeHex(s), s)
  {
    if s != [] {
      EncodeHexIsLower(s[1..]);
      var t, rest := EncodeHex(s), EncodeHex(s[1..]);
      HexCharIsLower(s[0] / 16);
      HexCharIsLower(s[0] % 16);
      assert t == [HexChar(s[0] / 16), HexChar(s[0] % 16)] + rest;
      forall i | 0 <= i < |s|
        ensures t[2 * i] == "0123456789abcdef"[s[i] / 16] && t[2 * i + 1] == "0123456789abcdef"[s[i] % 16]
      {
        if i > 0 {
          assert t[2 * i] == rest[2 * (i - 1)] && t[2 * i + 1] == rest[2 * (i - 1) + 1] && s[i] == s[1..][i - 1];
        }
      }
    }
  }

  lemma HexCharIsLower(v: nat)
    requires v < 16
    ensures HexChar(v) == "0123456789abcdef"[v]
  {
  }

  lemma HexDigitIff(c: char, v: nat)
    ensures HexDigit(c) == Some(v) <==> IsDigitOf(c, v)
  {
  }

  lemma HexTextTail(t: string, s: seq<Byte>)
    requires |t| >= 2 && s != []
    ensures HexText(t, s) <==> IsDigitOf(t[0], s[0] / 16) && IsDigitOf(t[1], s[0] % 16) && HexText(t[2..], s[1..])
  {
    if IsDigitOf(t[0], s[0] / 16) && IsDigitOf(t[1], s[0] % 16) && HexText(t[2..], s[1..]) {
      forall i | 0 <= i < |s| ensures IsDigitOf(t[2 * i], s[i] / 16) && IsDigitOf(t[2 * i + 1], s[i] % 16) {
        if i > 0 {
          assert s[1..][i - 1] == s[i] && t[2..][2 * (i - 1)] == t[2 * i] && t[2..][2 * (i - 1) + 1] == t[2 * i + 1];
        }
      }
    }
    if HexText(t, s) {
      assert IsDigitOf(t[2 * 0], s[0] / 16) && IsDigitOf(t[2 * 0 + 1], s[0] % 16);
      forall i | 0 <= i < |s[1..]| ensures IsDigitOf(t[2..][2 * i], s[1..][i] / 16) && IsDigitOf(t[2..][2 * i + 1], s[1..][i] % 16) {
        assert s[1..][i] == s[i + 1] && t[2..][2 * i] == t[2 * (i + 1)] && t[2..][2 * i + 1] == t[2 * (i + 1) + 1];
      }
    }
  }

  lemma DecodePair(t: string)
    requires |t| >= 2
    ensures DecodeHex(t) ==
            match (HexDigit(t[0]), HexDigit(t[1]), DecodeHex(t[2..]))
            case (Some(h), Some(l), Some(rest)) => Some([16 * h + l] + rest)
            case _ => None
  {
  }

  lemma JoinDigits(h: nat, l: nat, v: Byte)
    requires h < 16 && l < 16
    ensures 16 * h + l == v <==> h == v / 16 && l == v % 16
  {
  }

  lemma DecodeStep(t: string, s: seq<Byte>)
    requires |t| >= 2 && s != []
    ensures DecodeHex(t) == Some(s) <==>
            HexDigit(t[0]) == Some(s[0] / 16) && HexDigit(t[1]) == Some(s[0] % 16) && DecodeHex(t[2..]) == Some(s[1..])
  {
    DecodePair(t);
    JoinDigits(s[0] / 16, s[0] % 16, s[0]);
    assert s == [s[0]] + s[1..];
    if DecodeHex(t) == Some(s) {
      var h, l, rest := HexDigit(t[0]).value, HexDigit(t[1]).value, DecodeHex(t[2..]).value;
      assert s == [16 * h + l] + rest && s[1..] == rest;
      JoinDigits(h, l, s[0]);
    }
  }

  /** Decoding accepts exactly the hexadecimal texts, in either case. */
  lemma {:induction false} DecodeHexIff(t: string, s: seq<Byte>)
    ensures DecodeHex(t) == Some(s) <==> HexText(t, s)
    decreases |t|
  {
    if |t| < 2 {
    } else if s == [] {
      DecodePair(t);
    } else {
      DecodeHexIff(t[2..], s[1..]);
      DecodeStep(t, s);
      HexTextTail(t, s);
      HexDigitIff(t[0], s[0] / 16);
      HexDigitIff(t[1], s[0] % 16);
    }
  }

  // ----- Decimal text, as fmt writes an unsigned number -----

  function Decimal(v: nat): string {
    var digit := [('0' as int + v % 10) as char];
    if v < 10 then digit else Decimal(v / 10) + digit
  }

  lemma {:induction false} DecimalDigits(v: nat)
    ensures |Decimal(v)| > 0 && forall i | 0 <= i < |Decimal(v)| :: '0' <= Decimal(v)[i] <= '9'
    ensures v > 0 ==> Decimal(v)[0] != '0'
  {
    if v >= 10 {
      DecimalDigits(v / 10);
    }
  }

  function DecimalValue(t: string): int {
    if t == "" then 0 else 10 * DecimalValue(t[..|t| - 1]) + (t[|t| - 1] as int) - ('0' as int)
  }

  lemma {:induction false} DecimalInverse(v: nat)
    ensures DecimalValue(Decimal(v)) == v
  {
    if v >= 10 {
      DecimalInverse(v / 10);
      DecimalDigits(v / 10);
      assert Decimal(v)[..|Decimal(v)| - 1] == Decimal(v / 10);
    } else {
      assert DecimalValue(Decimal(v)[..0]) == 0;
    }
  }
}
