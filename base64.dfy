/**
 * The Base64 encoding of section 4 of RFC 4648 (the standard alphabet, with
 * `=` padding), as `btoa` produces it, and its strict decoder.
 */
module Base64 {
  import opened Wrappers
  import opened JsString

  const PAD: CodeUnit := '=' as int

  /** Table 1 of RFC 4648: the 65 characters of the standard alphabet, less `=`. */
  predicate IsAlphabet(c: CodeUnit)
  {
    ('A' as int <= c <= 'Z' as int) || ('a' as int <= c <= 'z' as int)
    || ('0' as int <= c <= '9' as int) || c == '+' as int || c == '/' as int
  }

  /** The 6-bit value an alphabet character stands for. */
  function SextetValue(c: CodeUnit): (v: int)
    requires IsAlphabet(c)
    ensures 0 <= v < 64
  {
    if 'A' as int <= c <= 'Z' as int then c - 'A' as int
    else if 'a' as int <= c <= 'z' as int then c - 'a' as int + 26
    else if '0' as int <= c <= '9' as int then c - '0' as int + 52
    else if c == '+' as int then 62
    else 63
  }

  /** The alphabet character for a 6-bit value; `SextetValue` undoes it. */
  function Sextet(v: int): (c: CodeUnit)
    requires 0 <= v < 64
    ensures IsAlphabet(c) && SextetValue(c) == v
  {
    if v < 26 then 'A' as int + v
    else if v < 52 then 'a' as int + (v - 26)
    else if v < 62 then '0' as int + (v - 52)
    else if v == 62 then '+' as int
    else '/' as int
  }

  /** Three octets become four characters, most significant bits first. */
  function EncodeGroup(b0: Byte, b1: Byte, b2: Byte): seq<CodeUnit>
  {
    [Sextet(b0 / 4), Sextet(b0 % 4 * 16 + b1 / 16), Sextet(b1 % 16 * 4 + b2 / 64), Sextet(b2 % 64)]
  }

  /** A final single octet: two characters and `==`. */
  function EncodeLastOne(b0: Byte): seq<CodeUnit>
  {
    [Sextet(b0 / 4), Sextet(b0 % 4 * 16), PAD, PAD]
  }

  /** A final pair of octets: three characters and `=`. */
  function EncodeLastTwo(b0: Byte, b1: Byte): seq<CodeUnit>
  {
    [Sextet(b0 / 4), Sextet(b0 % 4 * 16 + b1 / 16), Sextet(b1 % 16 * 4), PAD]
  }

  /**
   * Base64 with padding. The final one or two octets are padded with zero
   * bits to a whole character and the group is completed with `=`, so the
   * output length is 4 * ceil(n / 3).
   */
  function Encode(b: seq<Byte>): (r: seq<CodeUnit>)
    ensures |r| == 4 * ((|b| + 2) / 3)
    decreases |b|
  {
    if |b| == 0 then []
    else if |b| == 1 then EncodeLastOne(b[0])
    else if |b| == 2 then EncodeLastTwo(b[0], b[1])
    else EncodeGroup(b[0], b[1], b[2]) + Encode(b[3..])
  }

  /** The octets of four alphabet characters. */
  function DecodeGroup(c0: CodeUnit, c1: CodeUnit, c2: CodeUnit, c3: CodeUnit): seq<Byte>
    requires IsAlphabet(c0) && IsAlphabet(c1) && IsAlphabet(c2) && IsAlphabet(c3)
  {
    var v0, v1, v2, v3 := SextetValue(c0), SextetValue(c1), SextetValue(c2), SextetValue(c3);
    [v0 * 4 + v1 / 16, v1 % 16 * 16 + v2 / 4, v2 % 4 * 64 + v3]
  }

  /**
   * The last group of a padded encoding: four characters, or two or three
   * followed by `==` or `=`. Bits below the last whole octet are discarded.
   */
  function DecodeFinal(c0: CodeUnit, c1: CodeUnit, c2: CodeUnit, c3: CodeUnit): Option<seq<Byte>>
  {
    if !(IsAlphabet(c0) && IsAlphabet(c1)) then None
    else if c2 == PAD && c3 == PAD then
      Some([SextetValue(c0) * 4 + SextetValue(c1) / 16])
    else if IsAlphabet(c2) && c3 == PAD then
      Some([SextetValue(c0) * 4 + SextetValue(c1) / 16, SextetValue(c1) % 16 * 16 + SextetValue(c2) / 4])
    else if IsAlphabet(c2) && IsAlphabet(c3) then
      Some(DecodeGroup(c0, c1, c2, c3))
    else None
  }

  /**
   * Strict decoding of padded Base64: the length is a multiple of four, only
   * the last group may carry padding, and every other character is in the
   * alphabet; anything else is rejected.
   */
  function Decode(s: seq<CodeUnit>): Option<seq<Byte>>
    decreases |s|
  {
    if |s| == 0 then Some([])
    else if |s| < 4 then None
    else if |s| == 4 then DecodeFinal(s[0], s[1], s[2], s[3])
    else if IsAlphabet(s[0]) && IsAlphabet(s[1]) && IsAlphabet(s[2]) && IsAlphabet(s[3]) then
      match Decode(s[4..])
      case None => None
      case Some(rest) => Some(DecodeGroup(s[0], s[1], s[2], s[3]) + rest)
    else None
  }

  lemma {:induction false} GroupRoundTrip(b0: Byte, b1: Byte, b2: Byte)
    ensures var g := EncodeGroup(b0, b1, b2);
      DecodeGroup(g[0], g[1], g[2], g[3]) == [b0, b1, b2]
  {
    var v1 := b0 % 4 * 16 + b1 / 16;
    var v2 := b1 % 16 * 4 + b2 / 64;
    assert v1 / 16 == b0 % 4 && v1 % 16 == b1 / 16;
    assert v2 / 4 == b1 % 16 && v2 % 4 == b2 / 64;
  }

  /** A final group of one octet and `==` decodes to that octet. */
  lemma {:induction false} FinalOneRoundTrip(b0: Byte)
    ensures var g := EncodeLastOne(b0); DecodeFinal(g[0], g[1], g[2], g[3]) == Some([b0])
  {
    assert (b0 % 4 * 16) / 16 == b0 % 4;
  }

  /** A final group of two octets and `=` decodes to those octets. */
  lemma {:induction false} FinalTwoRoundTrip(b0: Byte, b1: Byte)
    ensures var g := EncodeLastTwo(b0, b1); DecodeFinal(g[0], g[1], g[2], g[3]) == Some([b0, b1])
  {
    var v1 := b0 % 4 * 16 + b1 / 16;
    assert v1 / 16 == b0 % 4 && v1 % 16 == b1 / 16;
    assert (b1 % 16 * 4) / 4 == b1 % 16;
  }

  /** A group of four alphabet characters in front of decodable text decodes ahead of it. */
  lemma {:induction false} DecodeGroupThen(g: seq<CodeUnit>, t: seq<CodeUnit>, rest: seq<Byte>)
    requires |g| == 4 && IsAlphabet(g[0]) && IsAlphabet(g[1]) && IsAlphabet(g[2]) && IsAlphabet(g[3])
    requires Decode(t) == Some(rest)
    ensures Decode(g + t) == Some(DecodeGroup(g[0], g[1], g[2], g[3]) + rest)
  {
    var s := g + t;
    if |t| == 0 {
      assert s == g && rest == [];
      assert g[2] != PAD && g[3] != PAD;
      assert DecodeFinal(g[0], g[1], g[2], g[3]) == Some(DecodeGroup(g[0], g[1], g[2], g[3]));
      assert DecodeGroup(g[0], g[1], g[2], g[3]) + rest == DecodeGroup(g[0], g[1], g[2], g[3]);
    } else {
      assert s[..4] == g && s[4..] == t;
    }
  }

  /** Decoding undoes encoding, for every octet string. */
  lemma {:induction false} DecodeEncode(b: seq<Byte>)
    ensures Decode(Encode(b)) == Some(b)
    decreases |b|
  {
    if |b| == 1 {
      FinalOneRoundTrip(b[0]);
      assert b == [b[0]];
    } else if |b| == 2 {
      FinalTwoRoundTrip(b[0], b[1]);
      assert b == [b[0], b[1]];
    } else if |b| >= 3 {
      DecodeEncode(b[3..]);
      DecodeEncodeGroup(b);
    }
  }

  /** The round trip extends over one more leading group of three octets. */
  lemma {:induction false} DecodeEncodeGroup(b: seq<Byte>)
    requires |b| >= 3 && Decode(Encode(b[3..])) == Some(b[3..])
    ensures Decode(Encode(b)) == Some(b)
  {
    var g, t := EncodeGroup(b[0], b[1], b[2]), Encode(b[3..]);
    GroupRoundTrip(b[0], b[1], b[2]);
    DecodeGroupThen(g, t, b[3..]);
    DecodeSplit(b, g, t);
  }

  lemma {:induction false} DecodeSplit(b: seq<Byte>, g: seq<CodeUnit>, t: seq<CodeUnit>)
    requires |b| >= 3 && g == EncodeGroup(b[0], b[1], b[2]) && t == Encode(b[3..])
    requires Decode(g + t) == Some([b[0], b[1], b[2]] + b[3..])
    ensures Decode(Encode(b)) == Some(b)
  {
    assert Encode(b) == g + t;
    assert b == [b[0], b[1], b[2]] + b[3..];
  }

  /** The number of `=` that completes k characters to a multiple of four. */
  function PadLength(k: int): int
  {
    (4 - k % 4) % 4
  }

  /** Alphabet characters up to position k, padding from there on. */
  predicate PaddedAt(e: seq<CodeUnit>, k: int)
  {
    0 <= k <= |e|
    && (forall i :: 0 <= i < k ==> IsAlphabet(e[i]))
    && (forall i :: k <= i < |e| ==> e[i] == PAD)
  }

  /**
   * A complete padded text whose data characters end at position k: at
   * most two `=` and a multiple of four characters in all.
   */
  predicate WellPadded(e: seq<CodeUnit>, k: int)
  {
    PaddedAt(e, k) && |e| - k <= 2 && |e| - k == PadLength(k)
  }

  /** ceil(4n / 3) characters carry data; the rest of the 4 * ceil(n / 3) is padding. */
  lemma {:induction false} PaddingCount(n: nat)
    ensures var k := (4 * n + 2) / 3;
      k <= 4 * ((n + 2) / 3) <= k + 2 && 4 * ((n + 2) / 3) - k == PadLength(k)
  {
    var m := n / 3;
    if n % 3 == 0 {
      assert n == 3 * m && (4 * n + 2) / 3 == 4 * m && (n + 2) / 3 == m;
    } else if n % 3 == 1 {
      assert n == 3 * m + 1 && (4 * n + 2) / 3 == 4 * m + 2 && (n + 2) / 3 == m + 1;
    } else {
      assert n == 3 * m + 2 && (4 * n + 2) / 3 == 4 * m + 3 && (n + 2) / 3 == m + 1;
    }
  }

  /** Text of 4 * ceil(n / 3) characters with data up to ceil(4n / 3) is well padded. */
  lemma {:induction false} PaddedOfLength(e: seq<CodeUnit>, n: nat)
    requires |e| == 4 * ((n + 2) / 3) && PaddedAt(e, (4 * n + 2) / 3)
    ensures WellPadded(e, (4 * n + 2) / 3)
  {
    PaddingCount(n);
  }

  /**
   * Every character of an encoding before position ceil(4n / 3) is in the
   * alphabet, and the zero, one or two characters from there on are padding.
   */
  lemma {:induction false} EncodeShape(b: seq<Byte>)
    ensures WellPadded(Encode(b), (4 * |b| + 2) / 3)
  {
    assert WellPadded(Encode(b), (4 * |b| + 2) / 3) by {
      EncodePadded(b);
      PaddedOfLength(Encode(b), |b|);
    }
  }
  lemma {:induction false} EncodePadded(b: seq<Byte>)
    ensures PaddedAt(Encode(b), (4 * |b| + 2) / 3)
    decreases |b|
  {
    if |b| >= 3 {
      EncodePadded(b[3..]);
      var g, t := EncodeGroup(b[0], b[1], b[2]), Encode(b[3..]);
      assert Encode(b) == g + t;
      assert (4 * |b| + 2) / 3 == (4 * |b[3..]| + 2) / 3 + 4;
      PaddedAfterGroup(g, t, (4 * |b[3..]| + 2) / 3);
    }
  }

  lemma {:induction false} PaddedAfterGroup(g: seq<CodeUnit>, t: seq<CodeUnit>, k: int)
    requires |g| == 4 && IsAlphabet(g[0]) && IsAlphabet(g[1]) && IsAlphabet(g[2]) && IsAlphabet(g[3])
    requires PaddedAt(t, k)
    ensures PaddedAt(g + t, k + 4)
  {
    var e := g + t;
    forall i | 0 <= i < k + 4 ensures IsAlphabet(e[i]) {
      if i >= 4 { assert e[i] == t[i - 4]; }
    }
    forall i | k + 4 <= i < |e| ensures e[i] == PAD {
      assert e[i] == t[i - 4];
    }
  }

  /**
   * The last character of the group for octets 3g to 3g + 2 holds the low
   * six bits of octet 3g + 2.
   */
  lemma {:induction false} EncodeGroupLast(b: seq<Byte>, g: nat)
    requires 3 * g + 3 <= |b|
    ensures 4 * g + 3 < |Encode(b)| && Encode(b)[4 * g + 3] == Sextet(b[3 * g + 2] % 64)
    decreases g
  {
    var t := Encode(b[3..]);
    assert Encode(b) == EncodeGroup(b[0], b[1], b[2]) + t;
    if g > 0 {
      EncodeGroupLast(b[3..], g - 1);
      assert Encode(b)[4 * g + 3] == t[4 * (g - 1) + 3];
    }
  }
}
