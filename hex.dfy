/**
 * The hexadecimal codec of krypt-core (ext/krypt/core/krypt_hex.c).
 *
 * Encoding writes every octet as two lowercase hex digits, high nibble
 * first. Decoding reads pairs of digits through an inverse table that
 * accepts both cases and rejects everything else. Characters are octets,
 * as in the C code (`unsigned char`).
 */
module Hex {
  import opened Wrappers

  /** SSIZE_MAX and SIZE_MAX of an LP64 platform. */
  const SsizeMax: int := 0x7fff_ffff_ffff_ffff
  const SizeMax: int := 0xffff_ffff_ffff_ffff

  /** The forward table "0123456789abcdef", as octets. */
  const HexTable: seq<byte> :=
    [0x30, 0x31, 0x32, 0x33, 0x34, 0x35, 0x36, 0x37,
     0x38, 0x39, 0x61, 0x62, 0x63, 0x64, 0x65, 0x66]

  /** The largest octet the inverse table covers ('f'). */
  const InvMax: int := 102

  /** The inverse table of lines 21-28: entry c is the digit value of octet
      c, or -1. Its 103 entries are six runs: 48 times -1 (up to '/'), the
      values 0-9 ('0'-'9'), 7 times -1, the values 10-15 ('A'-'F'), 26
      times -1, and the values 10-15 again ('a'-'f'). */
  function InvTable(): (t: seq<int>)
    ensures |t| == InvMax + 1
  {
    seq(48, i => -1) + seq(10, i => i) + seq(7, i => -1) +
    seq(6, i => 10 + i) + seq(26, i => -1) + seq(6, i => 10 + i)
  }

  // ---------------------------------------------------------------------
  // Reference definitions, independent of the tables
  // ---------------------------------------------------------------------

  /** '0'-'9', 'A'-'F' or 'a'-'f'. */
  predicate IsHexDigit(c: byte) {
    (0x30 <= c <= 0x39) || (0x41 <= c <= 0x46) || (0x61 <= c <= 0x66)
  }

  /** '0'-'9' or 'a'-'f': the digits the encoder emits. */
  predicate IsLowerHexDigit(c: byte) {
    (0x30 <= c <= 0x39) || (0x61 <= c <= 0x66)
  }

  /** The value of a hex digit, by arithmetic on its character code. */
  function DigitValue(c: byte): (v: int)
    requires IsHexDigit(c)
    ensures 0 <= v < 16
  {
    if c <= 0x39 then (c - 0x30)
    else if c <= 0x46 then (c - 0x41) + 10
    else (c - 0x61) + 10
  }

  /** An upper-case hex letter mapped to lower case; anything else unchanged. */
  function LowerOctet(c: byte): byte {
    if 0x41 <= c <= 0x46 then c + 0x20 else c
  }

  function Lower(s: seq<byte>): (r: seq<byte>)
    ensures |r| == |s|
    ensures forall i :: 0 <= i < |s| ==> r[i] == LowerOctet(s[i])
  {
    seq(|s|, i requires 0 <= i < |s| => LowerOctet(s[i]))
  }

  // ---------------------------------------------------------------------
  // The tables
  // ---------------------------------------------------------------------

  /** The inverse table holds -1 or a nibble. */
  lemma InvTableRange(c: int)
    requires 0 <= c <= InvMax
    ensures -1 <= InvTable()[c] < 16
  {
    var t := InvTable();
    if c < 48 { assert t[c] == -1; }
    else if c < 58 { assert t[c] == c - 48; }
    else if c < 65 { assert t[c] == -1; }
    else if c < 71 { assert t[c] == c - 55; }
    else if c < 97 { assert t[c] == -1; }
    else { assert t[c] == c - 87; }
  }

  /** Lookup of an input octet in the inverse table, bounds check included
      (krypt_hex.c lines 60-64): -1 unless the octet is a digit. */
  function HexValue(c: byte): (v: int)
    ensures -1 <= v < 16
  {
    if c > InvMax then -1
    else
      InvTableRange(c);
      InvTable()[c]
  }

  /** The inverse table agrees with the arithmetic definition of the digits. */
  lemma HexValueIsDigitValue(c: byte)
    ensures HexValue(c) >= 0 <==> IsHexDigit(c)
    ensures IsHexDigit(c) ==> HexValue(c) == DigitValue(c)
  {
    var t := InvTable();
    var k := c;
    if k > InvMax {
    } else if k < 48 { assert t[k] == -1; }
    else if k < 58 { assert t[k] == k - 48; }
    else if k < 65 { assert t[k] == -1; }
    else if k < 71 { assert t[k] == k - 55; }
    else if k < 97 { assert t[k] == -1; }
    else { assert t[k] == k - 87; }
  }

  /** The forward and the inverse table are inverse to each other on nibbles. */
  lemma HexValueOfTable(n: byte)
    requires n < 16
    ensures HexValue(HexTable[n]) == n
    ensures IsLowerHexDigit(HexTable[n])
  {
    var t := InvTable();
    var h := HexTable;
    if n < 10 {
      assert h[n] == 0x30 + n;
      assert t[(0x30 + n)] == n;
    } else {
      assert h[n] == 0x57 + n;
      assert t[(0x57 + n)] == n;
    }
  }

  /** Splitting an octet into its nibbles and joining them back. */
  lemma {:induction false} NibbleArithmetic(hi: int, lo: int)
    requires 0 <= hi < 16 && 0 <= lo < 16
    ensures (16 * hi + lo) / 16 == hi && (16 * hi + lo) % 16 == lo
  {
  }

  /** Every octet is its two nibbles. */
  lemma OctetNibbles(b: byte)
    ensures 0 <= b / 16 < 16 && 0 <= b % 16 < 16
    ensures 16 * (b / 16) + b % 16 == b
  {
  }

  /** The forward table maps the value of a digit to that digit in lowercase. */
  lemma TableOfDigit(c: byte)
    requires IsHexDigit(c)
    ensures HexTable[DigitValue(c)] == LowerOctet(c)
  {
    var h := HexTable;
    if c <= 0x39 {
      assert h[(c - 0x30)] == c;
    } else if c <= 0x46 {
      assert h[(c - 0x41) + 10] == c + 0x20;
    } else {
      assert h[(c - 0x61) + 10] == c;
    }
  }

  /** Two table digits decode to the octet made of their nibbles. */
  lemma DecodePairOfNibbles(hi: int, lo: int)
    requires 0 <= hi < 16 && 0 <= lo < 16
    ensures DecodePair(HexTable[hi], HexTable[lo]) == Some(16 * hi + lo)
  {
    HexValueOfTable(hi);
    HexValueOfTable(lo);
  }

  // ---------------------------------------------------------------------
  // Encoding
  // ---------------------------------------------------------------------

  /** One octet: the high nibble's digit, then the low nibble's (lines 44-45). */
  function EncodeOctet(b: byte): seq<byte> {
    [HexTable[b / 16], HexTable[b % 16]]
  }

  /** The hex encoding of a whole buffer. */
  function Encode(s: seq<byte>): (r: seq<byte>)
    ensures |r| == 2 * |s|
  {
    if s == [] then [] else Encode(s[..|s| - 1]) + EncodeOctet(s[|s| - 1])
  }

  /** Octet i of the input lands at positions 2i and 2i+1 of the encoding. */
  lemma {:induction false} EncodeAt(s: seq<byte>, i: int)
    requires 0 <= i < |s|
    ensures Encode(s)[2 * i] == HexTable[s[i] / 16]
    ensures Encode(s)[2 * i + 1] == HexTable[s[i] % 16]
  {
    if i < |s| - 1 {
      EncodeAt(s[..|s| - 1], i);
      assert s[..|s| - 1][i] == s[i];
    }
  }

  /** The encoder only emits lowercase digits. */
  lemma EncodeIsLowercase(s: seq<byte>)
    ensures forall j :: 0 <= j < |Encode(s)| ==> IsLowerHexDigit(Encode(s)[j])
  {
    forall j | 0 <= j < |Encode(s)| ensures IsLowerHexDigit(Encode(s)[j]) {
      EncodeAt(s, j / 2);
      HexValueOfTable(s[j / 2] / 16);
      HexValueOfTable(s[j / 2] % 16);
    }
  }

  /** int_hex_encode (lines 34-48): fills the preallocated buffer `out`. */
  method IntHexEncode(bytes: seq<byte>, out: array<byte>)
    requires out.Length == 2 * |bytes|
    modifies out
    ensures out[..] == Encode(bytes)
  {
    var i := 0;
    while i < |bytes|
      invariant 0 <= i <= |bytes|
      invariant out[..2 * i] == Encode(bytes[..i])
    {
      var b := bytes[i];
      var j := i * 2;
      out[j] := HexTable[b / 16];
      out[j + 1] := HexTable[b % 16];
      assert bytes[..i + 1][..i] == bytes[..i];
      assert out[..2 * (i + 1)] == out[..2 * i] + [out[j], out[j + 1]];
      i := i + 1;
    }
    assert bytes[..i] == bytes;
    assert out[..2 * i] == out[..];
  }

  /** krypt_hex_encode (lines 91-107): refuses buffers whose encoding would
      not fit in an ssize_t, and otherwise returns 2 * len octets. */
  method KryptHexEncode(bytes: seq<byte>) returns (ret: int, out: seq<byte>)
    requires |bytes| <= SizeMax
    ensures ret == -1 <==> |bytes| > SsizeMax / 2
    ensures ret == -1 ==> out == []
    ensures ret != -1 ==> ret == 2 * |bytes| && ret == |out| && out == Encode(bytes)
  {
    if |bytes| > SsizeMax / 2 {
      return -1, [];
    }
    ret := 2 * |bytes|;
    var retval := new byte[ret];
    IntHexEncode(bytes, retval);
    out := retval[..];
  }

  // ---------------------------------------------------------------------
  // Decoding
  // ---------------------------------------------------------------------

  /** One iteration of int_hex_decode (lines 58-75): two digits make one
      octet, high nibble first; any illegal digit fails. */
  function DecodePair(c: byte, d: byte): Option<byte> {
    if c > InvMax || d > InvMax then None
    else if HexValue(c) < 0 then None
    else if HexValue(d) < 0 then None
    else Some(16 * HexValue(c) + HexValue(d))
  }

  /** The first n pairs of `s`, decoded in order; None once a pair fails. */
  function DecodePairs(s: seq<byte>, n: nat): (r: Option<seq<byte>>)
    requires 2 * n <= |s|
    ensures r.Some? ==> |r.value| == n
  {
    if n == 0 then Some([])
    else
      match DecodePairs(s, n - 1)
      case None => None
      case Some(p) =>
        match DecodePair(s[2 * n - 2], s[2 * n - 1])
        case None => None
        case Some(b) => Some(p + [b])
  }

  /** What krypt_hex_decode computes: odd lengths are refused, and so is any
      input with a character that is not a hex digit. */
  function Decode(s: seq<byte>): Option<seq<byte>> {
    if |s| % 2 != 0 then None else DecodePairs(s, |s| / 2)
  }

  /** A pair decodes exactly when both octets are hex digits, to their value. */
  lemma DecodePairSpec(c: byte, d: byte)
    ensures DecodePair(c, d).Some? <==> IsHexDigit(c) && IsHexDigit(d)
    ensures DecodePair(c, d).Some? ==>
      DecodePair(c, d).value == 16 * DigitValue(c) + DigitValue(d)
  {
    HexValueIsDigitValue(c);
    HexValueIsDigitValue(d);
  }

  /** Once a pair fails, every longer prefix fails too. */
  lemma {:induction false} DecodePairsFailureSticks(s: seq<byte>, n: nat, m: nat)
    requires n <= m && 2 * m <= |s|
    requires DecodePairs(s, n).None?
    ensures DecodePairs(s, m).None?
    decreases m - n
  {
    if n < m {
      DecodePairsFailureSticks(s, n + 1, m);
    }
  }

  /** int_hex_decode (lines 50-78): fills `out` pair by pair and stops at
      the first illegal character, leaving a partially written buffer. */
  method IntHexDecode(bytes: seq<byte>, out: array<byte>) returns (ok: bool)
    requires out.Length == |bytes| / 2
    modifies out
    ensures ok <==> DecodePairs(bytes, |bytes| / 2).Some?
    ensures ok ==> out[..] == DecodePairs(bytes, |bytes| / 2).value
  {
    var i := 0;
    while i < |bytes| / 2
      invariant 0 <= i <= |bytes| / 2
      invariant DecodePairs(bytes, i) == Some(out[..i])
    {
      var c := bytes[i * 2];
      var d := bytes[i * 2 + 1];
      if c > InvMax || d > InvMax {
        DecodePairsFailureSticks(bytes, i + 1, |bytes| / 2);
        return false;
      }
      var b := HexValue(c);
      if b < 0 {
        DecodePairsFailureSticks(bytes, i + 1, |bytes| / 2);
        return false;
      }
      out[i] := 16 * b;
      b := HexValue(d);
      if b < 0 {
        DecodePairsFailureSticks(bytes, i + 1, |bytes| / 2);
        return false;
      }
      out[i] := out[i] + b;
      assert out[..i + 1] == out[..i] + [out[i]];
      i := i + 1;
    }
    assert out[..i] == out[..];
    return true;
  }

  /** krypt_hex_decode (lines 124-143): odd lengths are refused up front; a
      decoding failure discards the buffer, so the caller never sees a
      partial result. */
  method KryptHexDecode(bytes: seq<byte>) returns (ret: int, out: seq<byte>)
    requires |bytes| <= SizeMax
    ensures ret == -1 <==> Decode(bytes).None?
    ensures ret == -1 ==> out == []
    ensures ret != -1 ==> ret == |bytes| / 2 && Decode(bytes) == Some(out)
  {
    if |bytes| % 2 != 0 || |bytes| / 2 > SsizeMax {
      return -1, [];
    }
    ret := |bytes| / 2;
    var retval := new byte[ret];
    var ok := IntHexDecode(bytes, retval);
    if !ok {
      return -1, [];
    }
    out := retval[..];
  }

  // ---------------------------------------------------------------------
  // Properties of the codec
  // ---------------------------------------------------------------------

  /** Decoding succeeds exactly on even-length input made of hex digits. */
  lemma {:induction false} DecodePairsSpec(s: seq<byte>, n: nat)
    requires 2 * n <= |s|
    ensures DecodePairs(s, n).Some? <==> forall j :: 0 <= j < 2 * n ==> IsHexDigit(s[j])
    ensures DecodePairs(s, n).Some? ==> forall i :: 0 <= i < n ==>
      DecodePairs(s, n).value[i] == 16 * DigitValue(s[2 * i]) + DigitValue(s[2 * i + 1])
  {
    if n > 0 {
      DecodePairsSpec(s, n - 1);
      DecodePairSpec(s[2 * n - 2], s[2 * n - 1]);
      if DecodePairs(s, n).Some? {
        assert DecodePairs(s, n).value == DecodePairs(s, n - 1).value + [DecodePair(s[2 * n - 2], s[2 * n - 1]).value];
      }
      if !DecodePairs(s, n).Some? && DecodePairs(s, n - 1).Some? {
        assert !IsHexDigit(s[2 * n - 2]) || !IsHexDigit(s[2 * n - 1]);
      }
    }
  }

  lemma DecodeSpec(s: seq<byte>)
    ensures Decode(s).Some? <==> |s| % 2 == 0 && forall j :: 0 <= j < |s| ==> IsHexDigit(s[j])
    ensures Decode(s).Some? ==> |Decode(s).value| == |s| / 2
  {
    if |s| % 2 == 0 {
      DecodePairsSpec(s, |s| / 2);
    }
  }

  /** Round trip: decoding the encoding of any buffer gives the buffer back. */
  lemma {:induction false} DecodePairsOfEncode(s: seq<byte>, n: nat)
    requires n <= |s|
    ensures DecodePairs(Encode(s), n) == Some(s[..n])
  {
    if n > 0 {
      DecodePairsOfEncode(s, n - 1);
      var b := s[n - 1];
      EncodeAt(s, n - 1);
      OctetNibbles(b);
      DecodePairOfNibbles(b / 16, b % 16);
      assert DecodePair(Encode(s)[2 * n - 2], Encode(s)[2 * n - 1]) == Some(b);
      assert s[..n] == s[..n - 1] + [b];
    }
  }

  lemma {:induction false} DecodeEncode(s: seq<byte>)
    ensures Decode(Encode(s)) == Some(s)
  {
    var e := Encode(s);
    assert |e| == 2 * |s|;
    assert |e| % 2 == 0 && |e| / 2 == |s|;
    DecodePairsOfEncode(s, |s|);
    assert s[..|s|] == s;
  }

  /** The other direction: re-encoding decoded input gives the input in
      lowercase. */
  lemma EncodeDecode(h: seq<byte>)
    requires Decode(h).Some?
    ensures Encode(Decode(h).value) == Lower(h)
  {
    var b := Decode(h).value;
    DecodeSpec(h);
    DecodePairsSpec(h, |h| / 2);
    var e := Encode(b);
    forall j | 0 <= j < |h| ensures e[j] == Lower(h)[j] {
      var i := j / 2;
      assert j == 2 * i || j == 2 * i + 1;
      EncodeAt(b, i);
      DigitNibbles(h[2 * i], h[2 * i + 1], b[i]);
    }
  }

  /** An octet built from two digits encodes back to those digits, lowercased. */
  lemma DigitNibbles(c: byte, d: byte, b: byte)
    requires IsHexDigit(c) && IsHexDigit(d)
    requires b == 16 * DigitValue(c) + DigitValue(d)
    ensures HexTable[b / 16] == LowerOctet(c)
    ensures HexTable[b % 16] == LowerOctet(d)
  {
    var hi, lo := DigitValue(c), DigitValue(d);
    NibbleArithmetic(hi, lo);
    assert b / 16 == hi && b % 16 == lo;
    TableOfDigit(c);
    TableOfDigit(d);
  }
}
