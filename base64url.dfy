/**
 * The "URL and Filename safe" base64 alphabet of section 5 of RFC 4648, with
 * `=` padding, as Python's `base64.urlsafe_b64encode` writes it and
 * `base64.urlsafe_b64decode` reads well-formed input.
 */
module Base64Url {
  import opened Wrappers
  import opened Utf8

  type sextet = x: int | 0 <= x < 64

  const PAD: char := '='

  predicate IsSymbol(c: char) {
    ('A' <= c <= 'Z') || ('a' <= c <= 'z') || ('0' <= c <= '9') || c == '-' || c == '_'
  }

  /** The value a symbol stands for (table 2 of RFC 4648 with `-` and `_` at 62 and 63). */
  function Value(c: char): (v: sextet)
    requires IsSymbol(c)
  {
    if 'A' <= c <= 'Z' then c as int - 'A' as int
    else if 'a' <= c <= 'z' then c as int - 'a' as int + 26
    else if '0' <= c <= '9' then c as int - '0' as int + 52
    else if c == '-' then 62
    else 63
  }

  /** The symbol that stands for `v`. */
  function Symbol(v: sextet): (c: char)
    ensures IsSymbol(c)
  {
    if v < 26 then (('A' as int) + v) as char
    else if v < 52 then (('a' as int) + v - 26) as char
    else if v < 62 then (('0' as int) + v - 52) as char
    else if v == 62 then '-'
    else '_'
  }

  /** `Value` undoes `Symbol`. */
  lemma SymbolValue(v: sextet)
    ensures Value(Symbol(v)) == v
  {
  }

  // The four sextets of a block of bytes b0 b1 b2, most significant bits first.
  function Hi0(b0: byte): sextet { b0 / 4 }
  function Hi1(b0: byte, b1: byte): sextet { b0 % 4 * 16 + b1 / 16 }
  function Hi2(b1: byte, b2: byte): sextet { b1 % 16 * 4 + b2 / 64 }
  function Hi3(b2: byte): sextet { b2 % 64 }

  // The three bytes of a block of sextets v0 v1 v2 v3.
  function Lo0(v0: sextet, v1: sextet): byte { v0 * 4 + v1 / 16 }
  function Lo1(v1: sextet, v2: sextet): byte { v1 % 16 * 16 + v2 / 4 }
  function Lo2(v2: sextet, v3: sextet): byte { v2 % 4 * 64 + v3 }

  lemma Split16(q: int, r: int)
    requires 0 <= r < 16
    ensures (q * 16 + r) / 16 == q && (q * 16 + r) % 16 == r
  {
  }

  lemma Split4(q: int, r: int)
    requires 0 <= r < 4
    ensures (q * 4 + r) / 4 == q && (q * 4 + r) % 4 == r
  {
  }

  /** Regrouping the sextets of three bytes gives the bytes back. */
  lemma Regroup0(b0: byte, b1: byte)
    ensures Lo0(Hi0(b0), Hi1(b0, b1)) == b0
  {
    Split16(b0 % 4, b1 / 16);
  }

  lemma Regroup1(b0: byte, b1: byte, b2: byte)
    ensures Lo1(Hi1(b0, b1), Hi2(b1, b2)) == b1
  {
    Split16(b0 % 4, b1 / 16);
    Split4(b1 % 16, b2 / 64);
  }

  lemma Regroup2(b1: byte, b2: byte)
    ensures Lo2(Hi2(b1, b2), Hi3(b2)) == b2
  {
    Split4(b1 % 16, b2 / 64);
  }

  /** Three bytes become four symbols. */
  function EncodeBlock(b0: byte, b1: byte, b2: byte): string {
    [Symbol(Hi0(b0)), Symbol(Hi1(b0, b1)), Symbol(Hi2(b1, b2)), Symbol(Hi3(b2))]
  }

  /** urlsafe_b64encode: full blocks, then a last block padded with `=`. */
  function Encode(b: seq<byte>): (r: string)
    ensures |r| == (|b| + 2) / 3 * 4
    decreases |b|
  {
    if |b| == 0 then ""
    else if |b| == 1 then [Symbol(Hi0(b[0])), Symbol(Hi1(b[0], 0)), PAD, PAD]
    else if |b| == 2 then [Symbol(Hi0(b[0])), Symbol(Hi1(b[0], b[1])), Symbol(Hi2(b[1], 0)), PAD]
    else
      assert (|b| + 2) / 3 == (|b| - 1) / 3 + 1;
      EncodeBlock(b[0], b[1], b[2]) + Encode(b[3..])
  }

  /** Every character of an encoding is a symbol of the alphabet or the padding. */
  lemma {:induction false} EncodeAlphabet(b: seq<byte>)
    ensures forall i :: 0 <= i < |Encode(b)| ==> IsSymbol(Encode(b)[i]) || Encode(b)[i] == PAD
    decreases |b|
  {
    if |b| > 2 {
      EncodeAlphabet(b[3..]);
      var q, t := EncodeBlock(b[0], b[1], b[2]), Encode(b[3..]);
      assert forall i :: 4 <= i < |q + t| ==> (q + t)[i] == t[i - 4];
    }
  }

  predicate AllSymbols(q: string) {
    forall i :: 0 <= i < |q| ==> IsSymbol(q[i])
  }

  function DecodeBlock(q: string): (r: seq<byte>)
    requires |q| == 4 && AllSymbols(q)
    ensures |r| == 3
  {
    var v0, v1, v2, v3 := Value(q[0]), Value(q[1]), Value(q[2]), Value(q[3]);
    [Lo0(v0, v1), Lo1(v1, v2), Lo2(v2, v3)]
  }

  /**
   * The last quantum may carry one or two `=`; the bits the padding leaves
   * over are dropped, as the lenient Python decoder drops them.
   */
  function DecodeLast(q: string): (r: Option<seq<byte>>)
    requires |q| == 4
    ensures r.Some? ==> 1 <= |r.value| <= 3
  {
    if AllSymbols(q) then Some(DecodeBlock(q))
    else if AllSymbols(q[..3]) && q[3] == PAD then
      var v0, v1, v2 := Value(q[0]), Value(q[1]), Value(q[2]);
      Some([Lo0(v0, v1), Lo1(v1, v2)])
    else if AllSymbols(q[..2]) && q[2] == PAD && q[3] == PAD then
      var v0, v1 := Value(q[0]), Value(q[1]);
      Some([Lo0(v0, v1)])
    else None
  }

  /**
   * urlsafe_b64decode on input made only of symbols and final padding;
   * a length that is not a multiple of four ("Incorrect padding": the
   * recursion is left with one to three characters), a
   * character outside the alphabet, or padding before the last quantum
   * is a failure (binascii.Error, a ValueError). Accepted text gives three
   * bytes per quantum, less one or two for the padding of the last.
   */
  function Decode(s: string): (r: Option<seq<byte>>)
    ensures r.Some? ==> |s| % 4 == 0
    ensures r.Some? ==> |r.value| <= |s| / 4 * 3 <= |r.value| + 2
    decreases |s|
  {
    if |s| == 0 then Some([])
    else if |s| < 4 then None
    else if |s| == 4 then DecodeLast(s)
    else if !AllSymbols(s[..4]) then None
    else
      assert |s| / 4 * 3 == |s[4..]| / 4 * 3 + 3;
      match Decode(s[4..])
      case None => None
      case Some(rest) => Some(DecodeBlock(s[..4]) + rest)
  }

  lemma BlockRoundTrip(b0: byte, b1: byte, b2: byte)
    ensures AllSymbols(EncodeBlock(b0, b1, b2))
    ensures DecodeBlock(EncodeBlock(b0, b1, b2)) == [b0, b1, b2]
  {
    SymbolValue(Hi0(b0));
    SymbolValue(Hi1(b0, b1));
    SymbolValue(Hi2(b1, b2));
    SymbolValue(Hi3(b2));
    Regroup0(b0, b1);
    Regroup1(b0, b1, b2);
    Regroup2(b1, b2);
  }

  lemma OneByteRoundTrip(b0: byte)
    ensures DecodeLast(Encode([b0])) == Some([b0])
  {
    var q := Encode([b0]);
    assert !AllSymbols(q) by { assert q[3] == PAD; }
    assert !AllSymbols(q[..3]) by { assert q[..3][2] == PAD; }
    assert AllSymbols(q[..2]) && q[2] == PAD && q[3] == PAD;
    SymbolValue(Hi0(b0));
    SymbolValue(Hi1(b0, 0));
    Regroup0(b0, 0);
  }

  lemma TwoByteRoundTrip(b0: byte, b1: byte)
    ensures DecodeLast(Encode([b0, b1])) == Some([b0, b1])
  {
    var q := Encode([b0, b1]);
    assert !AllSymbols(q) by { assert q[3] == PAD; }
    assert AllSymbols(q[..3]) && q[3] == PAD;
    SymbolValue(Hi0(b0));
    SymbolValue(Hi1(b0, b1));
    SymbolValue(Hi2(b1, 0));
    Regroup0(b0, b1);
    Regroup1(b0, b1, 0);
  }

  /** The last full block of the input, with nothing after it. */
  lemma LastBlockRoundTrip(b: seq<byte>)
    requires |b| == 3
    ensures Decode(Encode(b)) == Some(b)
  {
    var q := EncodeBlock(b[0], b[1], b[2]);
    BlockRoundTrip(b[0], b[1], b[2]);
    assert Encode(b) == q by {
      assert Encode(b[3..]) == [];
      assert q + [] == q;
    }
    assert Decode(q) == Some([b[0], b[1], b[2]]) by {
      assert Decode(q) == DecodeLast(q);
    }
    ExactlyThree(b);
  }

  /** Decoding undoes encoding: `urlsafe_b64decode(urlsafe_b64encode(b)) == b`. */
  lemma {:induction false} RoundTrip(b: seq<byte>)
    ensures Decode(Encode(b)) == Some(b)
    decreases |b|
  {
    if |b| == 1 {
      assert b == [b[0]];
      OneByteRoundTrip(b[0]);
    } else if |b| == 2 {
      assert b == [b[0], b[1]];
      TwoByteRoundTrip(b[0], b[1]);
    } else if |b| == 3 {
      LastBlockRoundTrip(b);
    } else if |b| > 3 {
      var tail := b[3..];
      RoundTrip(tail);
      BlockStep(b);
    }
  }

  /** A full block in front of a tail that round-trips. */
  lemma BlockStep(b: seq<byte>)
    requires |b| > 3 && Decode(Encode(b[3..])) == Some(b[3..])
    ensures Decode(Encode(b)) == Some(b)
  {
    var rest := b[3..];
    var q, t := EncodeBlock(b[0], b[1], b[2]), Encode(rest);
    BlockRoundTrip(b[0], b[1], b[2]);
    NonEmptyEncode(rest);
    EncodeCons(b);
    DecodeCons(q, t, rest);
    FirstThree(b);
  }

  lemma ExactlyThree(b: seq<byte>)
    requires |b| == 3
    ensures [b[0], b[1], b[2]] == b
  {
  }

  lemma FirstThree(b: seq<byte>)
    requires |b| >= 3
    ensures [b[0], b[1], b[2]] + b[3..] == b
  {
  }

  lemma NonEmptyEncode(b: seq<byte>)
    requires |b| > 0
    ensures |Encode(b)| > 0
  {
  }

  lemma EncodeCons(b: seq<byte>)
    requires |b| > 3
    ensures Encode(b) == EncodeBlock(b[0], b[1], b[2]) + Encode(b[3..])
  {
  }

  lemma DecodeCons(q: string, t: string, rest: seq<byte>)
    requires |q| == 4 && AllSymbols(q) && |t| > 0 && Decode(t) == Some(rest)
    ensures Decode(q + t) == Some(DecodeBlock(q) + rest)
  {
    var s := q + t;
    assert s[..4] == q && s[4..] == t;
  }
}
