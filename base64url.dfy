/**
 * The link token of the create-link page: the standard Base64 text that
 * `btoa` returns, made URL-safe by three `replace` calls (`+` to `-`, `/` to
 * `_`, trailing `=` removed). The result is the base64url alphabet of
 * section 5 of RFC 4648 with the padding left out, as section 3.2 permits.
 * The module also holds `atob`, the browser's forgiving decoder, and the
 * inverse of the URL-safe rewriting.
 */
module Base64Url {
  import opened Wrappers
  import opened JsString
  import opened Base64

  const PLUS: CodeUnit := '+' as int
  const SLASH: CodeUnit := '/' as int
  const MINUS: CodeUnit := '-' as int
  const UNDERSCORE: CodeUnit := '_' as int

  /** Section 5 of RFC 4648: `A`-`Z`, `a`-`z`, `0`-`9`, `-` and `_`. */
  predicate IsUrlAlphabet(c: CodeUnit)
  {
    ('A' as int <= c <= 'Z' as int) || ('a' as int <= c <= 'z' as int)
    || ('0' as int <= c <= '9' as int) || c == MINUS || c == UNDERSCORE
  }

  /** `s.replace(/x/g, y)` for a one-character pattern `x`. */
  function ReplaceAll(s: JsStr, from: CodeUnit, to: CodeUnit): JsStr
  {
    seq(|s|, i requires 0 <= i < |s| => if s[i] == from then to else s[i])
  }


  /** `.replace(/\+/g, '-').replace(/\//g, '_')` */
  function ToUrlSafe(s: JsStr): JsStr
  {
    ReplaceAll(ReplaceAll(s, PLUS, MINUS), SLASH, UNDERSCORE)
  }

  /** The reverse mapping, `-` to `+` and `_` to `/`. */
  function FromUrlSafe(s: JsStr): JsStr
  {
    ReplaceAll(ReplaceAll(s, MINUS, PLUS), UNDERSCORE, SLASH)
  }

  /**
   * `.replace(/=+$/, '')`: the longest run of `=` at the end is removed. The
   * three clauses determine the result: a prefix of `s`, followed in `s` by
   * nothing but `=`, and not itself ending in `=`.
   */
  function StripPadding(s: JsStr): (r: JsStr)
    ensures |r| <= |s| && r == s[..|r|]
    ensures forall i :: |r| <= i < |s| ==> s[i] == PAD
    ensures r == [] || r[|r| - 1] != PAD
    decreases |s|
  {
    if |s| > 0 && s[|s| - 1] == PAD then StripPadding(s[..|s| - 1]) else s
  }

  /** The replace chain that turns the output of `btoa` into the link token. */
  function MakeUrlSafe(encoded: JsStr): JsStr
  {
    StripPadding(ToUrlSafe(encoded))
  }

  /** Padding with `=` back to a multiple of four characters. */
  function Repad(t: JsStr): JsStr
  {
    t + seq(Base64.PadLength(|t|), _ => PAD)
  }

  /** Cutting off a tail of padding after a non-padding character. */
  lemma {:induction false} StripPaddingAt(s: JsStr, k: nat)
    requires k <= |s|
    requires forall i :: k <= i < |s| ==> s[i] == PAD
    requires k == 0 || s[k - 1] != PAD
    ensures StripPadding(s) == s[..k]
  {
  }

  /**
   * For a padded text, the token is the URL-safe image of its data
   * characters; mapping back gives those characters and re-padding gives
   * the text.
   */
  lemma {:induction false} UrlSafeOfPadded(e: JsStr, k: nat)
    requires WellPadded(e, k)
    ensures MakeUrlSafe(e) == ToUrlSafe(e[..k])
    ensures FromUrlSafe(MakeUrlSafe(e)) == e[..k]
    ensures Repad(e[..k]) == e
  {
    var u := ToUrlSafe(e);
    assert |u| == |e|;
    forall i | k <= i < |u| ensures u[i] == PAD { }
    if k > 0 {
      assert IsAlphabet(e[k - 1]);
    }
    StripPaddingAt(u, k);
    assert u[..k] == ToUrlSafe(e[..k]);
    var back := FromUrlSafe(u[..k]);
    forall i | 0 <= i < k ensures back[i] == e[i] {
      assert IsAlphabet(e[i]);
    }
    var r := Repad(e[..k]);
    assert |r| == |e|;
    forall i | 0 <= i < |e| ensures r[i] == e[i] {
      if i >= k { assert r[i] == PAD; }
    }
  }

  /** The token uses only the base64url alphabet: never `+`, `/` or `=`. */
  lemma {:induction false} TokenAlphabet(b: seq<Byte>)
    ensures var t := MakeUrlSafe(Encode(b));
      forall i :: 0 <= i < |t| ==>
        IsUrlAlphabet(t[i]) && t[i] != PLUS && t[i] != SLASH && t[i] != PAD
  {
    var e, k := Encode(b), (4 * |b| + 2) / 3;
    EncodeShape(b);
    UrlSafeOfPadded(e, k);
    forall i | 0 <= i < k ensures IsUrlAlphabet(ToUrlSafe(e[..k])[i]) {
      assert IsAlphabet(e[i]);
    }
  }

  /** An n-octet input gives a token of ceil(4n / 3) characters. */
  lemma {:induction false} TokenLength(b: seq<Byte>)
    ensures |MakeUrlSafe(Encode(b))| == (4 * |b| + 2) / 3
  {
    EncodeShape(b);
    UrlSafeOfPadded(Encode(b), (4 * |b| + 2) / 3);
  }

  /**
   * Mapping `-` and `_` back, re-padding to a multiple of four and decoding
   * strictly gives back the octets that were encoded.
   */
  lemma {:induction false} TokenRoundTrip(b: seq<Byte>)
    ensures Decode(Repad(FromUrlSafe(MakeUrlSafe(Encode(b))))) == Some(b)
  {
    EncodeShape(b);
    UrlSafeOfPadded(Encode(b), (4 * |b| + 2) / 3);
    DecodeEncode(b);
  }

  /**
   * `btoa`: each code unit is taken as one octet and the octets are Base64
   * encoded; a code unit above 0xFF raises an exception instead.
   */
  function Btoa(s: JsStr): Option<JsStr>
  {
    if Latin1(s) then Some(Encode(ToBytes(s))) else None
  }

  predicate AllAlphabet(s: JsStr)
  {
    forall i :: 0 <= i < |s| ==> IsAlphabet(s[i])
  }

  /**
   * The first step of `atob` (the forgiving-base64 decode of the WHATWG
   * Infra standard): when the length is a multiple of four, one or two final
   * `=` are dropped.
   */
  function ForgivingData(s: JsStr): JsStr
  {
    if |s| % 4 == 0 && |s| >= 2 && s[|s| - 1] == PAD && s[|s| - 2] == PAD then s[..|s| - 2]
    else if |s| % 4 == 0 && |s| >= 1 && s[|s| - 1] == PAD then s[..|s| - 1]
    else s
  }

  /**
   * `atob`: after the padding is dropped, a length of 1 modulo 4 or any
   * character outside the standard alphabet raises an exception; otherwise
   * the characters are decoded and each octet becomes one code unit.
   */
  function Atob(s: JsStr): Option<JsStr>
  {
    var data := ForgivingData(s);
    if |data| % 4 == 1 || !AllAlphabet(data) then None
    else match Decode(Repad(data))
      case None => None
      case Some(b) => Some(FromBytes(b))
  }

  /** A padded text and its data characters leave the same data for `atob`. */
  lemma {:induction false} ForgivingDataOfPadded(e: JsStr, k: nat)
    requires WellPadded(e, k)
    ensures ForgivingData(e) == e[..k] && ForgivingData(e[..k]) == e[..k]
    ensures AllAlphabet(e[..k]) && |e[..k]| % 4 != 1
  {
    if |e| - k == 2 {
      assert e[..|e| - 2] == e[..k];
    } else if |e| - k == 1 {
      assert e[|e| - 2] != PAD;
      assert e[..|e| - 1] == e[..k];
    } else if k > 0 {
      assert e[|e| - 1] != PAD;
    }
    if k > 0 {
      assert e[..k][k - 1] != PAD;
    }
  }

  /** A Base64 text, with or without its padding, is what `atob` decodes. */
  lemma {:induction false} AtobPadded(b: seq<Byte>, t: JsStr)
    requires var e, k := Encode(b), (4 * |b| + 2) / 3; t == e || t == e[..k]
    ensures Atob(t) == Some(FromBytes(b))
  {
    var e, k := Encode(b), (4 * |b| + 2) / 3;
    EncodeShape(b);
    ForgivingDataOfPadded(e, k);
    UrlSafeOfPadded(e, k);
    DecodeEncode(b);
  }

  /** `atob` undoes `btoa` whenever `btoa` succeeds. */
  lemma {:induction false} AtobBtoa(s: JsStr)
    ensures Btoa(s).Some? <==> Latin1(s)
    ensures Btoa(s).Some? ==> Atob(Btoa(s).value) == Some(s)
  {
    if Latin1(s) {
      AtobPadded(ToBytes(s), Encode(ToBytes(s)));
      assert FromBytes(ToBytes(s)) == s;
    }
  }

  /** `atob` also accepts the URL-safe token once `-` and `_` are mapped back. */
  lemma {:induction false} AtobToken(b: seq<Byte>)
    ensures Atob(FromUrlSafe(MakeUrlSafe(Encode(b)))) == Some(FromBytes(b))
  {
    EncodeShape(b);
    UrlSafeOfPadded(Encode(b), (4 * |b| + 2) / 3);
    AtobPadded(b, Encode(b)[..(4 * |b| + 2) / 3]);
  }

  /** `atob` rejects any text holding `-` or `_`. */
  lemma {:induction false} AtobRejectsUrlSafe(t: JsStr, i: nat)
    requires i < |t| && (t[i] == MINUS || t[i] == UNDERSCORE)
    ensures Atob(t) == None
  {
  }
}
