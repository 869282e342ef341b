/**
 * A family of links the generator produces and the link page, as written,
 * rejects: the page hands the base64url token to `atob` without mapping
 * `-` and `_` back to `+` and `/`.
 */
module RejectedLinks {
  import opened Wrappers
  import opened JsString
  import opened Json
  import opened Base64Url
  import opened CreateLink
  import opened ActionLink

  /**
   * The JSON text of a tip whose fields are plain: 51 code units of fixed
   * text around the three values, the description last, followed by `"}`.
   */
  lemma {:induction false} TipJsonLayout(form: Form)
    requires form.actionType == Tip
    requires Plain(form.recipientAddress) && Plain(form.tipAmount) && Plain(form.description)
    requires form.description != []
    ensures var json, n := PayloadJson(form), |form.recipientAddress| + |form.tipAmount| + |form.description|;
      |json| == 51 + n && json[48 + n] == form.description[|form.description| - 1]
  {
    var f0, f1 := Field(TYPE_KEY, TIP_TYPE), Field(RECIPIENT_KEY, form.recipientAddress);
    var f2, f3 := Field(AMOUNT_KEY, form.tipAmount), Field(DESC_KEY, form.description);
    assert Payload(form) == [f0, f1, f2, f3];
    StringifyPlainFourLength(f0, f1, f2, f3);
    StringifyLastUnit([f0, f1, f2, f3]);
  }

  /** A sextet of 63 at the end of a full group is `/` in base64, so `_` in the token. */
  lemma {:induction false} UnderscoreInToken(b: seq<Byte>, g: nat)
    requires 3 * g + 3 <= |b| && b[3 * g + 2] % 64 == 63
    ensures 4 * g + 3 < |MakeUrlSafe(Base64.Encode(b))| && MakeUrlSafe(Base64.Encode(b))[4 * g + 3] == UNDERSCORE
  {
    Base64.EncodeGroupLast(b, g);
    var e := Base64.Encode(b);
    Base64.EncodeShape(b);
    var k := (4 * |b| + 2) / 3;
    UrlSafeOfPadded(e, k);
  }

  /** A JSON text with such a byte gives a token that the page as written rejects. */
  lemma {:induction false} UnderscoreTokenRejected(json: JsStr, g: nat)
    requires Latin1(json) && 3 * g + 3 <= |json| && json[3 * g + 2] == '?' as int
    ensures var token := MakeUrlSafe(Base64.Encode(ToBytes(json)));
      UNDERSCORE in token && ResolveAsWritten(token) == None
  {
    var b := ToBytes(json);
    assert b[3 * g + 2] == json[3 * g + 2];
    UnderscoreInToken(b, g);
    AsWrittenRejectsUrlSafe(MakeUrlSafe(Base64.Encode(b)), 4 * g + 3);
  }

  /** A tip with both required fields and plain values is encodable, so it is always generated. */
  lemma {:induction false} PlainTipGenerated(form: Form, origin: JsStr)
    requires form.actionType == Tip && RequiredPresent(form)
    requires Plain(form.recipientAddress) && Plain(form.tipAmount) && Plain(form.description)
    ensures FormEncodable(form) && Generate(form, origin).Generated?
  {
    PlainEncodable(form.recipientAddress); PlainEncodable(form.tipAmount); PlainEncodable(form.description);
    GeneratedIff(form, origin);
  }

  /** A description ending in `?` at the right offset makes the third byte of a group 0x3F. */
  lemma {:induction false} TipSlashAt(form: Form, g: nat)
    requires form.actionType == Tip
    requires Plain(form.recipientAddress) && Plain(form.tipAmount) && Plain(form.description)
    requires form.description != [] && form.description[|form.description| - 1] == '?' as int
    requires 3 * g == 46 + |form.recipientAddress| + |form.tipAmount| + |form.description|
    ensures 3 * g + 3 <= |PayloadJson(form)| && PayloadJson(form)[3 * g + 2] == '?' as int
  {
    TipJsonLayout(form);
  }

  /** The group whose third byte is the JSON text's code unit 48 + n. */
  function LastGroup(n: nat): (g: nat)
    requires n % 3 == 2
    ensures 3 * g == 46 + n
  {
    16 + n / 3
  }

  /** The token of such a tip's JSON text holds `_`, so the page as written rejects it. */
  lemma {:induction false} TipJsonRejected(form: Form)
    requires form.actionType == Tip && Latin1(PayloadJson(form))
    requires Plain(form.recipientAddress) && Plain(form.tipAmount) && Plain(form.description)
    requires form.description != [] && form.description[|form.description| - 1] == '?' as int
    requires (|form.recipientAddress| + |form.tipAmount| + |form.description|) % 3 == 2
    ensures var token := MakeUrlSafe(Base64.Encode(ToBytes(PayloadJson(form))));
      UNDERSCORE in token && ResolveAsWritten(token) == None
  {
    var g := LastGroup(|form.recipientAddress| + |form.tipAmount| + |form.description|);
    TipSlashAt(form, g);
    UnderscoreTokenRejected(PayloadJson(form), g);
  }

  /**
   * The page as written rejects links the generator produces: any tip of
   * plain text whose description ends in `?` and whose three values have
   * a total length of 2 modulo 3 (recipient `0xab`, amount `1`,
   * description `???`, say) gets a token holding `_`, while
   * `ResolveGenerated` shows that mapping `-` and `_` back before `atob`
   * resolves that same token to the tip.
   */
  lemma {:induction false} TipTokenUnderscore(form: Form, origin: JsStr)
    requires form.actionType == Tip && RequiredPresent(form)
    requires Plain(form.recipientAddress) && Plain(form.tipAmount) && Plain(form.description)
    requires form.description != [] && form.description[|form.description| - 1] == '?' as int
    requires (|form.recipientAddress| + |form.tipAmount| + |form.description|) % 3 == 2
    ensures Generate(form, origin).Generated?
    ensures var token := TokenOf(Generate(form, origin).link, origin);
      UNDERSCORE in token && ResolveAsWritten(token) == None
  {
    PlainTipGenerated(form, origin);
    GeneratedLink(form, origin);
    TokenOfLink(origin, MakeUrlSafe(Base64.Encode(ToBytes(PayloadJson(form)))));
    TipJsonRejected(form);
  }

}
