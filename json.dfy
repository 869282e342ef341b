/**
 * `JSON.stringify` of a flat object whose values are strings, as the
 * create-link page calls it, and a parser for flat objects of string values
 * written without white space, which reads back every text it writes.
 * Strings are quoted as ECMA-262 (2019 and later) does: the short escapes of
 * section 7 of RFC 8259 for `"`, `\`, backspace, form feed, newline,
 * carriage return and tab; `\u00xx` for the other control characters; and
 * `\uxxxx` in lower-case hexadecimal for a surrogate that is not half of a
 * pair. Every other code unit is written as it is.
 */
module Json {
  import opened Wrappers
  import opened JsString

  const QUOTE: CodeUnit := '"' as int
  const BACKSLASH: CodeUnit := '\\' as int
  const COLON: CodeUnit := ':' as int
  const COMMA: CodeUnit := ',' as int
  const OPEN_BRACE: CodeUnit := '{' as int
  const CLOSE_BRACE: CodeUnit := '}' as int

  /** One member of a flat object: a key and its string value. */
  datatype Field = Field(key: JsStr, value: JsStr)

  predicate IsLeadSurrogate(u: CodeUnit) { 0xD800 <= u <= 0xDBFF }

  predicate IsTrailSurrogate(u: CodeUnit) { 0xDC00 <= u <= 0xDFFF }

  /** `s[i]` is a surrogate that does not form a pair with its neighbour. */
  predicate LoneSurrogateAt(s: JsStr, i: int)
    requires 0 <= i < |s|
  {
    (IsLeadSurrogate(s[i]) && !(i + 1 < |s| && IsTrailSurrogate(s[i + 1])))
    || (IsTrailSurrogate(s[i]) && !(i > 0 && IsLeadSurrogate(s[i - 1])))
  }

  /** The short escape letter of section 7 of RFC 8259, if the code unit has one. */
  function ShortEscape(u: CodeUnit): Option<CodeUnit>
  {
    if u == 0x08 then Some('b' as int)
    else if u == 0x09 then Some('t' as int)
    else if u == 0x0A then Some('n' as int)
    else if u == 0x0C then Some('f' as int)
    else if u == 0x0D then Some('r' as int)
    else if u == QUOTE then Some(QUOTE)
    else if u == BACKSLASH then Some(BACKSLASH)
    else None
  }

  function HexDigit(v: int): CodeUnit
    requires 0 <= v < 16
  {
    if v < 10 then '0' as int + v else 'a' as int + (v - 10)
  }

  /** `\u` and four lower-case hexadecimal digits. */
  function UnicodeEscape(u: CodeUnit): JsStr
  {
    [BACKSLASH, 'u' as int, HexDigit(u / 0x1000), HexDigit(u / 0x100 % 16), HexDigit(u / 16 % 16), HexDigit(u % 16)]
  }

  /** How `JSON.stringify` writes the code unit at position i of a string. */
  function EscapeAt(s: JsStr, i: int): JsStr
    requires 0 <= i < |s|
  {
    match ShortEscape(s[i])
    case Some(c) => [BACKSLASH, c]
    case None =>
      if s[i] < 0x20 || LoneSurrogateAt(s, i) then UnicodeEscape(s[i]) else [s[i]]
  }

  /** The escaped form of `s[i..]`. */
  function EscapeFrom(s: JsStr, i: int): JsStr
    requires 0 <= i <= |s|
    decreases |s| - i
  {
    if i == |s| then [] else EscapeAt(s, i) + EscapeFrom(s, i + 1)
  }

  /** A string value in double quotes. */
  function QuoteString(s: JsStr): JsStr
  {
    [QUOTE] + EscapeFrom(s, 0) + [QUOTE]
  }

  function Member(f: Field): JsStr
  {
    QuoteString(f.key) + [COLON] + QuoteString(f.value)
  }

  /** The members in order, separated by commas and no white space. */
  function Members(fields: seq<Field>): JsStr
    decreases |fields|
  {
    if |fields| == 0 then []
    else if |fields| == 1 then Member(fields[0])
    else Member(fields[0]) + [COMMA] + Members(fields[1..])
  }

  /** `JSON.stringify` of an object whose own keys, in order, are those of `fields`. */
  function Stringify(fields: seq<Field>): JsStr
  {
    [OPEN_BRACE] + Members(fields) + [CLOSE_BRACE]
  }

  /* ---------------- the parser ---------------- */

  function HexValue(c: CodeUnit): Option<int>
  {
    if '0' as int <= c <= '9' as int then Some(c - '0' as int)
    else if 'a' as int <= c <= 'f' as int then Some(c - 'a' as int + 10)
    else if 'A' as int <= c <= 'F' as int then Some(c - 'A' as int + 10)
    else None
  }

  /** Four hexadecimal digits, the value of a `\u` escape. */
  function HexQuad(t: JsStr): (r: Option<CodeUnit>)
    requires |t| == 4
  {
    match (HexValue(t[0]), HexValue(t[1]), HexValue(t[2]), HexValue(t[3]))
    case (Some(d0), Some(d1), Some(d2), Some(d3)) =>
      if 0 <= d0 < 16 && 0 <= d1 < 16 && 0 <= d2 < 16 && 0 <= d3 < 16
      then Some(d0 * 0x1000 + d1 * 0x100 + d2 * 16 + d3) else None
    case _ => None
  }

  /** The code unit that an escape (after its backslash) stands for, and what follows it. */
  function ParseEscape(t: JsStr): (r: Option<(CodeUnit, JsStr)>)
    ensures r.Some? ==> |r.value.1| < |t|
  {
    if |t| == 0 then None
    else if t[0] == 'b' as int then Some((0x08, t[1..]))
    else if t[0] == 't' as int then Some((0x09, t[1..]))
    else if t[0] == 'n' as int then Some((0x0A, t[1..]))
    else if t[0] == 'f' as int then Some((0x0C, t[1..]))
    else if t[0] == 'r' as int then Some((0x0D, t[1..]))
    else if t[0] == QUOTE || t[0] == BACKSLASH || t[0] == '/' as int then Some((t[0], t[1..]))
    else if t[0] == 'u' as int && |t| >= 5 then
      match HexQuad(t[1..5])
      case None => None
      case Some(u) => Some((u, t[5..]))
    else None
  }

  /**
   * The contents of a string literal whose opening quote has been read, and
   * the text after its closing quote. A raw control character is an error.
   */
  function ParseStringBody(t: JsStr): (r: Option<(JsStr, JsStr)>)
    ensures r.Some? ==> |r.value.1| < |t|
    decreases |t|
  {
    if |t| == 0 then None
    else if t[0] == QUOTE then Some(([], t[1..]))
    else if t[0] == BACKSLASH then
      match ParseEscape(t[1..])
      case None => None
      case Some((u, rest)) =>
        match ParseStringBody(rest)
        case None => None
        case Some((v, after)) => Some(([u] + v, after))
    else if t[0] < 0x20 then None
    else
      match ParseStringBody(t[1..])
      case None => None
      case Some((v, after)) => Some(([t[0]] + v, after))
  }

  /** The members of an object, from the opening quote of the first key up to the closing brace. */
  function ParseMembers(t: JsStr): Option<seq<Field>>
    decreases |t|
  {
    if |t| == 0 || t[0] != QUOTE then None
    else match ParseStringBody(t[1..])
      case None => None
      case Some((k, r1)) =>
        if |r1| < 2 || r1[0] != COLON || r1[1] != QUOTE then None
        else match ParseStringBody(r1[2..])
          case None => None
          case Some((v, r2)) =>
            if r2 == [CLOSE_BRACE] then Some([Field(k, v)])
            else if |r2| > 0 && r2[0] == COMMA then
              match ParseMembers(r2[1..])
              case None => None
              case Some(more) => Some([Field(k, v)] + more)
            else None
  }

  /**
   * A flat object of string values written without white space, the form
   * `JSON.stringify` writes; anything else is rejected.
   */
  function ParseObject(t: JsStr): Option<seq<Field>>
  {
    if t == [OPEN_BRACE, CLOSE_BRACE] then Some([])
    else if |t| > 0 && t[0] == OPEN_BRACE then ParseMembers(t[1..])
    else None
  }

  /* ---------------- round trip ---------------- */

  function Prepend(u: CodeUnit, r: Option<(JsStr, JsStr)>): Option<(JsStr, JsStr)>
  {
    match r
    case None => None
    case Some((v, after)) => Some(([u] + v, after))
  }

  lemma {:induction false} HexDigitValue(v: int)
    requires 0 <= v < 16
    ensures HexValue(HexDigit(v)) == Some(v)
  {
  }

  lemma {:induction false} HexDecomposition(u: CodeUnit)
    ensures u == u / 0x1000 * 0x1000 + u / 0x100 % 16 * 0x100 + u / 16 % 16 * 16 + u % 16
  {
    var q1 := u / 16;
    var q2 := u / 0x100;
    var q3 := u / 0x1000;
    assert u == q1 * 16 + u % 16;
    assert q2 == q1 / 16;
    assert q1 == q2 * 16 + q1 % 16;
    assert q3 == q2 / 16;
    assert q2 == q3 * 16 + q2 % 16;
  }

  lemma {:induction false} HexRoundTrip(u: CodeUnit)
    ensures HexQuad(UnicodeEscape(u)[2..]) == Some(u)
  {
    var q := UnicodeEscape(u)[2..];
    HexDigitValue(u / 0x1000);
    HexDigitValue(u / 0x100 % 16);
    HexDigitValue(u / 16 % 16);
    HexDigitValue(u % 16);
    HexDecomposition(u);
  }

  /** The escaped form of one code unit reads back as that code unit. */
  lemma {:induction false} ParseEscapeAt(s: JsStr, i: int, rest: JsStr)
    requires 0 <= i < |s|
    ensures ParseStringBody(EscapeAt(s, i) + rest) == Prepend(s[i], ParseStringBody(rest))
  {
    var t := EscapeAt(s, i) + rest;
    match ShortEscape(s[i])
    case Some(c) =>
      assert t[1..] == [c] + rest;
      assert ParseEscape(t[1..]) == Some((s[i], rest));
    case None =>
      if s[i] < 0x20 || LoneSurrogateAt(s, i) {
        HexRoundTrip(s[i]);
        assert t[1..][1..5] == UnicodeEscape(s[i])[2..];
        assert t[1..][5..] == rest;
      } else {
        assert t[1..] == rest;
      }
  }

  /** Reading one escaped unit in front of a body that reads back as `v`. */
  lemma {:induction false} ParseStep(e: JsStr, rest: JsStr, u: CodeUnit, v: JsStr, tail: JsStr)
    requires ParseStringBody(e + rest) == Prepend(u, ParseStringBody(rest))
    requires ParseStringBody(rest) == Some((v, tail))
    ensures ParseStringBody(e + rest) == Some(([u] + v, tail))
  {
  }

  /** A quoted string reads back as its contents, leaving what follows it. */
  lemma {:induction false} ParseEscaped(s: JsStr, i: int, tail: JsStr)
    requires 0 <= i <= |s|
    ensures ParseStringBody(EscapeFrom(s, i) + [QUOTE] + tail) == Some((s[i..], tail))
    decreases |s| - i
  {
    var x := EscapeFrom(s, i) + [QUOTE] + tail;
    if i < |s| {
      var e, rest := EscapeAt(s, i), EscapeFrom(s, i + 1) + [QUOTE] + tail;
      assert x == e + rest by {
        assert EscapeFrom(s, i) == e + EscapeFrom(s, i + 1);
      }
      assert ParseStringBody(e + rest) == Some(([s[i]] + s[i + 1..], tail)) by {
        ParseEscapeAt(s, i, rest);
        ParseEscaped(s, i + 1, tail);
        ParseStep(e, rest, s[i], s[i + 1..], tail);
      }
      assert s[i..] == [s[i]] + s[i + 1..];
    } else {
      assert x == [QUOTE] + tail && s[i..] == [];
    }
  }



  /** One member reads back as its key and value, leaving what follows it. */
  lemma {:induction false} ParseMember(f: Field, after: JsStr)
    ensures var t := Member(f) + after;
      |t| > 0 && t[0] == QUOTE
      && ParseStringBody(t[1..]) == Some((f.key, [COLON, QUOTE] + EscapeFrom(f.value, 0) + [QUOTE] + after))
      && ParseStringBody(EscapeFrom(f.value, 0) + [QUOTE] + after) == Some((f.value, after))
  {
    var r1 := [COLON, QUOTE] + EscapeFrom(f.value, 0) + [QUOTE] + after;
    assert Member(f) + after == [QUOTE] + (EscapeFrom(f.key, 0) + [QUOTE] + r1);
    ParseEscaped(f.key, 0, r1);
    ParseEscaped(f.value, 0, after);
    assert f.key[0..] == f.key && f.value[0..] == f.value;
  }

  /** One step of `ParseMembers` once the first member has been read. */
  lemma {:induction false} ParseMembersStep(t: JsStr, f: Field, r1: JsStr, after: JsStr)
    requires |t| > 0 && t[0] == QUOTE && ParseStringBody(t[1..]) == Some((f.key, r1))
    requires |r1| >= 2 && r1[0] == COLON && r1[1] == QUOTE
    requires ParseStringBody(r1[2..]) == Some((f.value, after))
    ensures after == [CLOSE_BRACE] ==> ParseMembers(t) == Some([f])
    ensures |after| > 0 && after[0] == COMMA ==>
      ParseMembers(t) == match ParseMembers(after[1..])
        case None => None
        case Some(more) => Some([f] + more)
  {
  }

  /** What `ParseMembers` makes of one member followed by `after`. */
  lemma {:induction false} ParseMemberThen(f: Field, after: JsStr, t: JsStr)
    requires t == Member(f) + after
    ensures after == [CLOSE_BRACE] ==> ParseMembers(t) == Some([f])
    ensures |after| > 0 && after[0] == COMMA ==>
      ParseMembers(t) == match ParseMembers(after[1..])
        case None => None
        case Some(more) => Some([f] + more)
  {
    ParseMember(f, after);
    var r1 := [COLON, QUOTE] + EscapeFrom(f.value, 0) + [QUOTE] + after;
    assert r1[2..] == EscapeFrom(f.value, 0) + [QUOTE] + after;
    assert ParseStringBody(t[1..]) == Some((f.key, r1));
    assert ParseStringBody(r1[2..]) == Some((f.value, after));
    ParseMembersStep(t, f, r1, after);
  }

  lemma {:induction false} ParseMembersRoundTrip(fields: seq<Field>)
    requires |fields| > 0
    ensures ParseMembers(Members(fields) + [CLOSE_BRACE]) == Some(fields)
    decreases |fields|
  {
    var f := fields[0];
    var t := Members(fields) + [CLOSE_BRACE];
    if |fields| == 1 {
      ParseMemberThen(f, [CLOSE_BRACE], t);
      assert fields == [f];
    } else {
      var after := [COMMA] + Members(fields[1..]) + [CLOSE_BRACE];
      ParseMemberThen(f, after, t);
      ParseMembersRoundTrip(fields[1..]);
      assert after[1..] == Members(fields[1..]) + [CLOSE_BRACE];
      assert fields == [f] + fields[1..];
    }
  }

  /** Parsing undoes `Stringify`: every key and value, in order. */
  lemma {:induction false} ParseStringify(fields: seq<Field>)
    ensures ParseObject(Stringify(fields)) == Some(fields)
  {
    if |fields| > 0 {
      var t := Stringify(fields);
      assert t[0] == OPEN_BRACE && t[1..] == Members(fields) + [CLOSE_BRACE];
      assert t != [OPEN_BRACE, CLOSE_BRACE] by { assert Members(fields)[0] == QUOTE; }
      ParseMembersRoundTrip(fields);
    }
  }

  /* ---------------- printable ASCII ---------------- */

  /** Printable ASCII other than `"` and `\\`: the code units written as they are. */
  predicate PlainUnit(u: CodeUnit)
  {
    0x20 <= u < 0x7F && u != QUOTE && u != BACKSLASH
  }

  predicate Plain(s: JsStr)
  {
    forall i :: 0 <= i < |s| ==> PlainUnit(s[i])
  }

  lemma {:induction false} EscapePlainFrom(s: JsStr, i: nat)
    requires Plain(s) && i <= |s|
    ensures EscapeFrom(s, i) == s[i..]
    decreases |s| - i
  {
    if i < |s| {
      EscapePlainFrom(s, i + 1);
      assert s[i..] == [s[i]] + s[i + 1..];
    }
  }

  /** A string of plain code units is quoted unchanged. */
  lemma {:induction false} QuotePlain(s: JsStr)
    requires Plain(s)
    ensures QuoteString(s) == [QUOTE] + s + [QUOTE]
  {
    EscapePlainFrom(s, 0);
    assert s[0..] == s;
  }

  lemma {:induction false} MemberPlainLength(f: Field)
    requires Plain(f.key) && Plain(f.value)
    ensures |Member(f)| == |f.key| + |f.value| + 5
  {
    QuotePlain(f.key);
    QuotePlain(f.value);
  }

  /** A member with a plain, non-empty value ends with that value's last code unit and `"`. */
  lemma {:induction false} MemberPlainEnd(f: Field)
    requires Plain(f.value) && f.value != []
    ensures |Member(f)| >= 2 && Member(f)[|Member(f)| - 2] == f.value[|f.value| - 1]
  {
    QuotePlain(f.value);
    assert Member(f) == QuoteString(f.key) + [COLON] + ([QUOTE] + f.value + [QUOTE]);
  }

  /** The members of an object end with its last member. */
  lemma {:induction false} MembersEnd(fields: seq<Field>)
    requires |fields| > 0
    ensures var m, l := Members(fields), Member(fields[|fields| - 1]);
      |l| <= |m| && m[|m| - |l|..] == l
    decreases |fields|
  {
    if |fields| > 1 {
      MembersEnd(fields[1..]);
      assert fields[1..][|fields| - 2] == fields[|fields| - 1];
    }
  }

  /** An object whose last value is plain and non-empty ends with that value's last code unit, `"` and `}`. */
  lemma {:induction false} StringifyLastUnit(p: seq<Field>)
    requires |p| > 0 && Plain(p[|p| - 1].value) && p[|p| - 1].value != []
    ensures var s, v := Stringify(p), p[|p| - 1].value; |s| >= 3 && s[|s| - 3] == v[|v| - 1]
  {
    MembersEnd(p);
    MemberPlainEnd(p[|p| - 1]);
    var m, l := Members(p), Member(p[|p| - 1]);
    assert m[|m| - 2] == l[|l| - 2];
  }

  /** The length of a four-member object of plain keys and values. */
  lemma {:induction false} StringifyPlainFourLength(f0: Field, f1: Field, f2: Field, f3: Field)
    requires Plain(f0.key) && Plain(f0.value) && Plain(f1.key) && Plain(f1.value)
    requires Plain(f2.key) && Plain(f2.value) && Plain(f3.key) && Plain(f3.value)
    ensures |Stringify([f0, f1, f2, f3])| == 25 + |f0.key| + |f0.value| + |f1.key| + |f1.value|
        + |f2.key| + |f2.value| + |f3.key| + |f3.value|
  {
    MemberPlainLength(f0); MemberPlainLength(f1); MemberPlainLength(f2); MemberPlainLength(f3);
    var p := [f0, f1, f2, f3];
    assert p[1..] == [f1, f2, f3] && p[1..][1..] == [f2, f3] && p[1..][1..][1..] == [f3];
    assert |Members([f2, f3])| == |Member(f2)| + 1 + |Member(f3)|;
    assert |Members([f1, f2, f3])| == |Member(f1)| + 1 + |Members([f2, f3])|;
  }

  /* ---------------- what `btoa` accepts ---------------- */

  /**
   * The JSON text of `s` fits in one octet per code unit: every code unit
   * is at most 0xFF or is a lone surrogate, which is written as `\uxxxx`.
   */
  predicate Encodable(s: JsStr)
  {
    EncodableFrom(s, 0)
  }

  /** The code unit at i is written in one octet, or as `\uxxxx`. */
  predicate EncodableAt(s: JsStr, i: int)
    requires 0 <= i < |s|
  {
    s[i] < 0x100 || LoneSurrogateAt(s, i)
  }

  predicate EncodableFrom(s: JsStr, i: int)
    requires 0 <= i
  {
    forall j :: i <= j < |s| ==> EncodableAt(s, j)
  }

  lemma {:induction false} EscapeAtLatin1(s: JsStr, i: int)
    requires 0 <= i < |s|
    ensures Latin1(EscapeAt(s, i)) <==> EncodableAt(s, i)
  {
    var e := EscapeAt(s, i);
    match ShortEscape(s[i])
    case Some(c) =>
      assert e == [BACKSLASH, c] && c < 0x80 && s[i] < 0x80;
      assert Latin1(e);
    case None =>
      if s[i] < 0x20 || LoneSurrogateAt(s, i) {
        assert forall j :: 0 <= j < |e| ==> e[j] < 0x80;
      } else {
        assert e == [s[i]];
        assert Latin1(e) <==> e[0] < 0x100;
      }
  }

  lemma {:induction false} EscapeFromLatin1(s: JsStr, i: int)
    requires 0 <= i <= |s|
    ensures Latin1(EscapeFrom(s, i)) <==> EncodableFrom(s, i)
    decreases |s| - i
  {
    if i < |s| {
      EscapeAtLatin1(s, i);
      EscapeFromLatin1(s, i + 1);
      Latin1Append(EscapeAt(s, i), EscapeFrom(s, i + 1));
      assert EncodableFrom(s, i) <==> EncodableAt(s, i) && EncodableFrom(s, i + 1);
    }
  }

  lemma {:induction false} QuoteStringLatin1(s: JsStr)
    ensures Latin1(QuoteString(s)) <==> Encodable(s)
  {
    EscapeFromLatin1(s, 0);
    Latin1Append([QUOTE], EscapeFrom(s, 0));
    Latin1Append([QUOTE] + EscapeFrom(s, 0), [QUOTE]);
  }

  lemma {:induction false} MemberLatin1(f: Field)
    ensures Latin1(Member(f)) <==> Encodable(f.key) && Encodable(f.value)
  {
    QuoteStringLatin1(f.key);
    QuoteStringLatin1(f.value);
    Latin1Append(QuoteString(f.key), [COLON]);
    Latin1Append(QuoteString(f.key) + [COLON], QuoteString(f.value));
  }

  /** Every key and every value of the object is `Encodable`. */
  predicate FieldsEncodable(fields: seq<Field>)
  {
    forall j :: 0 <= j < |fields| ==> Encodable(fields[j].key) && Encodable(fields[j].value)
  }

  lemma {:induction false} MembersLatin1(fields: seq<Field>)
    ensures Latin1(Members(fields)) <==> FieldsEncodable(fields)
    decreases |fields|
  {
    if |fields| == 1 {
      MemberLatin1(fields[0]);
    } else if |fields| > 1 {
      MemberLatin1(fields[0]);
      MembersLatin1(fields[1..]);
      Latin1Append(Member(fields[0]), [COMMA]);
      Latin1Append(Member(fields[0]) + [COMMA], Members(fields[1..]));
      FieldsEncodableSplit(fields);
    }
  }

  lemma {:induction false} FieldsEncodableSplit(fields: seq<Field>)
    requires |fields| > 0
    ensures FieldsEncodable(fields) <==>
      Encodable(fields[0].key) && Encodable(fields[0].value) && FieldsEncodable(fields[1..])
  {
    if Encodable(fields[0].key) && Encodable(fields[0].value) && FieldsEncodable(fields[1..]) {
      forall j | 0 <= j < |fields| ensures Encodable(fields[j].key) && Encodable(fields[j].value) {
        if j > 0 { assert fields[j] == fields[1..][j - 1]; }
      }
    }
    if FieldsEncodable(fields) {
      forall j | 0 <= j < |fields| - 1 ensures Encodable(fields[1..][j].key) && Encodable(fields[1..][j].value) {
        assert fields[1..][j] == fields[j + 1];
      }
    }
  }

  /**
   * The JSON text holds no code unit above 0xFF exactly when every key and
   * value is `Encodable`.
   */
  lemma {:induction false} StringifyLatin1(fields: seq<Field>)
    ensures Latin1(Stringify(fields)) <==> FieldsEncodable(fields)
  {
    MembersLatin1(fields);
    Latin1Append([OPEN_BRACE], Members(fields));
    Latin1Append([OPEN_BRACE] + Members(fields), [CLOSE_BRACE]);
  }

  lemma {:induction false} PlainEncodable(s: JsStr)
    requires Plain(s)
    ensures Encodable(s)
  {
  }
}
