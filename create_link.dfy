/**
 * `handleGenerateLink` of the create-link page: it checks the fields the
 * chosen action needs, writes them as a flat JSON object, turns the JSON
 * text into a base64url token and shows `{origin}/a/{token}`. The page's
 * `isLoading` flag and `generatedLink` text are the fields of a class.
 */
module CreateLink {
  import opened Wrappers
  import opened JsString
  import opened Json
  import opened Base64Url

  /** The two tabs of the form, `'tip'` and `'nft_sale'`. */
  datatype ActionType = Tip | NftSale

  /** The form's state when it is submitted; every input is a string. */
  datatype Form = Form(
    actionType: ActionType,
    recipientAddress: JsStr,
    tipAmount: JsStr,
    description: JsStr,
    contractAddress: JsStr,
    tokenId: JsStr,
    price: JsStr)

  /** How a submission ends. */
  datatype Outcome =
    | MissingTipFields
    | MissingNftSaleFields
    | GenerationFailed
    | Generated(link: JsStr)

  const TIP_FIELDS_MISSING: string := "Please fill out all required fields for the tip."
  const NFT_SALE_FIELDS_MISSING: string := "Please fill out all required fields for the NFT sale."
  const GENERATION_FAILED: string := "Failed to generate link."
  const LINK_GENERATED: string := "Link generated successfully!"

  /** The toast that replaces the "Generating link..." toast. */
  datatype Toast = ToastError(message: string) | ToastSuccess(message: string)

  function ToastFor(outcome: Outcome): Toast
  {
    match outcome
    case MissingTipFields => ToastError(TIP_FIELDS_MISSING)
    case MissingNftSaleFields => ToastError(NFT_SALE_FIELDS_MISSING)
    case GenerationFailed => ToastError(GENERATION_FAILED)
    case Generated(_) => ToastSuccess(LINK_GENERATED)
  }

  /**
   * The required fields are all non-empty (an empty string is falsy). The
   * description is never required.
   */
  predicate RequiredPresent(form: Form)
  {
    match form.actionType
    case Tip => form.recipientAddress != [] && form.tipAmount != []
    case NftSale => form.contractAddress != [] && form.tokenId != [] && form.price != []
  }

  /** The keys and the two `type` values of the payload, as code units. */
  const TYPE_KEY: JsStr := ['t' as int, 'y' as int, 'p' as int, 'e' as int]  // "type"
  const TIP_TYPE: JsStr := ['t' as int, 'i' as int, 'p' as int]  // "tip"
  const NFT_SALE_TYPE: JsStr := ['n' as int, 'f' as int, 't' as int, '_' as int, 's' as int, 'a' as int, 'l' as int, 'e' as int]  // "nft_sale"
  const RECIPIENT_KEY: JsStr := ['r' as int, 'e' as int, 'c' as int, 'i' as int, 'p' as int, 'i' as int, 'e' as int, 'n' as int, 't' as int]  // "recipient"
  const AMOUNT_KEY: JsStr := ['a' as int, 'm' as int, 'o' as int, 'u' as int, 'n' as int, 't' as int]  // "amount"
  const CONTRACT_KEY: JsStr := ['c' as int, 'o' as int, 'n' as int, 't' as int, 'r' as int, 'a' as int, 'c' as int, 't' as int]  // "contract"
  const TOKEN_ID_KEY: JsStr := ['t' as int, 'o' as int, 'k' as int, 'e' as int, 'n' as int, 'I' as int, 'd' as int]  // "tokenId"
  const PRICE_KEY: JsStr := ['p' as int, 'r' as int, 'i' as int, 'c' as int, 'e' as int]  // "price"
  const DESC_KEY: JsStr := ['d' as int, 'e' as int, 's' as int, 'c' as int]  // "desc"

  /**
   * The keys and `type` values of the object literals, and the path of the
   * link, spelled as the page writes them.
   */
  lemma {:induction false} KeysSpelled()
    ensures TYPE_KEY == Ascii("type") && TIP_TYPE == Ascii("tip") && NFT_SALE_TYPE == Ascii("nft_sale")
    ensures RECIPIENT_KEY == Ascii("recipient") && AMOUNT_KEY == Ascii("amount") && DESC_KEY == Ascii("desc")
    ensures CONTRACT_KEY == Ascii("contract") && TOKEN_ID_KEY == Ascii("tokenId") && PRICE_KEY == Ascii("price")
    ensures LINK_PATH == Ascii("/a/")
  {
  }

  /** The object literal of the chosen action, keys in the order written. */
  function Payload(form: Form): seq<Field>
  {
    match form.actionType
    case Tip => [
      Field(TYPE_KEY, TIP_TYPE),
      Field(RECIPIENT_KEY, form.recipientAddress),
      Field(AMOUNT_KEY, form.tipAmount),
      Field(DESC_KEY, form.description)]
    case NftSale => [
      Field(TYPE_KEY, NFT_SALE_TYPE),
      Field(CONTRACT_KEY, form.contractAddress),
      Field(TOKEN_ID_KEY, form.tokenId),
      Field(PRICE_KEY, form.price),
      Field(DESC_KEY, form.description)]
  }

  /** The JSON text of the payload. */
  function PayloadJson(form: Form): JsStr
  {
    Stringify(Payload(form))
  }

  /** `btoa` of the JSON text and the replace chain; `None` where `btoa` throws. */
  function EncodeToken(json: JsStr): Option<JsStr>
  {
    match Btoa(json)
    case None => None
    case Some(encoded) => Some(MakeUrlSafe(encoded))
  }

  const LINK_PATH: JsStr := ['/' as int, 'a' as int, '/' as int]  // "/a/"

  /**
   * The field values `btoa` accepts once they are in the JSON text: each
   * code unit at most 0xFF, or a lone surrogate (written as `\uxxxx`).
   */
  predicate FormEncodable(form: Form)
  {
    match form.actionType
    case Tip => Encodable(form.recipientAddress) && Encodable(form.tipAmount) && Encodable(form.description)
    case NftSale =>
      Encodable(form.contractAddress) && Encodable(form.tokenId) && Encodable(form.price)
      && Encodable(form.description)
  }

  /**
   * What one submission produces: a validation error naming the action, a
   * generation error when `btoa` throws, or the link.
   */
  function Generate(form: Form, origin: JsStr): Outcome
  {
    if !RequiredPresent(form) then
      if form.actionType == Tip then MissingTipFields else MissingNftSaleFields
    else
      match EncodeToken(PayloadJson(form))
      case None => GenerationFailed
      case Some(token) => Generated(origin + LINK_PATH + token)
  }

  /** The link the page shows after an outcome: none unless one was generated. */
  function ShownLink(outcome: Outcome): JsStr
  {
    if outcome.Generated? then outcome.link else []
  }

  /** Once the required fields are present, the outcome is decided by `btoa` of the JSON text. */
  lemma {:induction false} GenerateFromEncoding(form: Form, origin: JsStr, encoded: Option<JsStr>)
    requires RequiredPresent(form) && encoded == Btoa(PayloadJson(form))
    ensures Generate(form, origin) ==
      if encoded.None? then GenerationFailed else Generated(origin + LINK_PATH + MakeUrlSafe(encoded.value))
  {
  }

  /** The create-link page component and the two state variables the handler sets. */
  class CreateLinkPage {
    var generatedLink: JsStr
    var isLoading: bool

    constructor ()
      ensures generatedLink == [] && !isLoading
    {
      generatedLink := [];
      isLoading := false;
    }

    /**
     * `handleGenerateLink`: the link is cleared first and set only on
     * success, `isLoading` is false again on every way out, and the final
     * toast reports the outcome.
     */
    method HandleGenerateLink(form: Form, origin: JsStr) returns (toast: Toast)
      modifies this
      ensures !isLoading
      ensures generatedLink == ShownLink(Generate(form, origin))
      ensures toast == ToastFor(Generate(form, origin))
    {
      isLoading := true;
      generatedLink := [];
      var actionData: seq<Field>;
      if form.actionType == Tip {
        if form.recipientAddress == [] || form.tipAmount == [] {
          ValidationErrors(form, origin);
          toast := ToastError(TIP_FIELDS_MISSING);
          isLoading := false;
          return;
        }
        actionData := [
          Field(TYPE_KEY, TIP_TYPE),
          Field(RECIPIENT_KEY, form.recipientAddress),
          Field(AMOUNT_KEY, form.tipAmount),
          Field(DESC_KEY, form.description)];
        assert actionData == Payload(form);
      } else {
        if form.contractAddress == [] || form.tokenId == [] || form.price == [] {
          ValidationErrors(form, origin);
          toast := ToastError(NFT_SALE_FIELDS_MISSING);
          isLoading := false;
          return;
        }
        actionData := [
          Field(TYPE_KEY, NFT_SALE_TYPE),
          Field(CONTRACT_KEY, form.contractAddress),
          Field(TOKEN_ID_KEY, form.tokenId),
          Field(PRICE_KEY, form.price),
          Field(DESC_KEY, form.description)];
        assert actionData == Payload(form);
      }
      var jsonString := Stringify(actionData);
      var encoded := Btoa(jsonString);
      GenerateFromEncoding(form, origin, encoded);
      if encoded.None? {
        toast := ToastError(GENERATION_FAILED);
      } else {
        var encodedData := MakeUrlSafe(encoded.value);
        var newLink := origin + LINK_PATH + encodedData;
        generatedLink := newLink;
        toast := ToastSuccess(LINK_GENERATED);
      }
      isLoading := false;
    }
  }

  /* ---------------- properties ---------------- */

  /**
   * The handler stops with a validation error exactly when a required field
   * of the chosen action is empty, and the error names that action.
   */
  lemma {:induction false} ValidationErrors(form: Form, origin: JsStr)
    ensures Generate(form, origin) == MissingTipFields <==>
      form.actionType == Tip && (form.recipientAddress == [] || form.tipAmount == [])
    ensures Generate(form, origin) == MissingNftSaleFields <==>
      form.actionType == NftSale && (form.contractAddress == [] || form.tokenId == [] || form.price == [])
  {
  }

  lemma {:induction false} PayloadEncodable(form: Form)
    ensures FieldsEncodable(Payload(form)) <==> FormEncodable(form)
  {
    var p := Payload(form);
    if FormEncodable(form) {
      forall j | 0 <= j < |p| ensures Encodable(p[j].key) && Encodable(p[j].value) {
        if j == 0 {} else if j == 1 {} else if j == 2 {} else if j == 3 {} else {}
      }
    }
    if FieldsEncodable(p) {
      assert Encodable(p[1].value) && Encodable(p[2].value) && Encodable(p[3].value);
      if form.actionType == NftSale {
        assert Encodable(p[4].value);
      }
    }
  }

  /**
   * A link is generated exactly when the required fields are present and
   * every field value survives `btoa`; a description with a character above
   * 0xFF makes the handler fail even though it is optional.
   */
  lemma {:induction false} GeneratedIff(form: Form, origin: JsStr)
    ensures Generate(form, origin).Generated? <==> RequiredPresent(form) && FormEncodable(form)
    ensures Generate(form, origin) == GenerationFailed <==> RequiredPresent(form) && !FormEncodable(form)
  {
    StringifyLatin1(Payload(form));
    PayloadEncodable(form);
  }

  /**
   * A form with its required fields and encodable values gets a link: the
   * origin, `/a/` and the padding-free base64url encoding of the JSON text.
   */
  lemma {:induction false} GeneratedLink(form: Form, origin: JsStr)
    requires RequiredPresent(form) && FormEncodable(form)
    ensures Generate(form, origin).Generated? && Latin1(PayloadJson(form))
    ensures Generate(form, origin).link == origin + LINK_PATH + MakeUrlSafe(Base64.Encode(ToBytes(PayloadJson(form))))
  {
    GeneratedIff(form, origin);
  }

  /**
   * The shape of a link for an n-unit JSON text: the origin, then `/a/`,
   * then ceil(4n / 3) characters of the base64url alphabet, none of them
   * `+`, `/` or `=`.
   */
  predicate WellFormedLink(link: JsStr, origin: JsStr, n: nat)
  {
    |link| == |origin| + 3 + (4 * n + 2) / 3
    && link[..|origin|] == origin && link[|origin|..|origin| + 3] == LINK_PATH
    && forall i :: |origin| + 3 <= i < |link| ==>
      IsUrlAlphabet(link[i]) && link[i] != PLUS && link[i] != SLASH && link[i] != Base64.PAD
  }

  /** Any Latin-1 text, encoded and made URL-safe behind the origin and `/a/`, gives a well-formed link. */
  lemma {:induction false} LinkShape(origin: JsStr, json: JsStr)
    requires Latin1(json)
    ensures WellFormedLink(origin + LINK_PATH + MakeUrlSafe(Base64.Encode(ToBytes(json))), origin, |json|)
  {
    var b := ToBytes(json);
    var token := MakeUrlSafe(Base64.Encode(b));
    var link := origin + LINK_PATH + token;
    TokenLength(b);
    TokenAlphabet(b);
    forall i | |origin| + 3 <= i < |link| ensures link[i] == token[i - |origin| - 3] { }
    assert link[..|origin|] == origin && link[|origin|..|origin| + 3] == LINK_PATH;
  }

  /** The link generated for a form with its required fields and encodable values is well formed. */
  lemma {:induction false} GeneratedLinkShape(form: Form, origin: JsStr)
    requires RequiredPresent(form) && FormEncodable(form)
    ensures Generate(form, origin).Generated?
    ensures WellFormedLink(Generate(form, origin).link, origin, |PayloadJson(form)|)
  {
    GeneratedLink(form, origin);
    LinkShape(origin, PayloadJson(form));
  }

  /** The payload is read back, keys and values in order, from its JSON text. */
  lemma {:induction false} PayloadRoundTrip(form: Form)
    ensures ParseObject(PayloadJson(form)) == Some(Payload(form))
    ensures |Payload(form)| == (if form.actionType == Tip then 4 else 5)
    ensures Payload(form)[|Payload(form)| - 1] == Field(DESC_KEY, form.description)
  {
    ParseStringify(Payload(form));
  }
  /** The keys of an object, in order. */
  function Keys(fields: seq<Field>): (r: seq<JsStr>)
    ensures |r| == |fields|
  {
    seq(|fields|, i requires 0 <= i < |fields| => fields[i].key)
  }

  /**
   * The keys read back from the JSON text depend only on the action: two
   * forms of the same action give the same keys in the same order, `type`
   * first and `desc` last, whatever the field values are.
   */
  lemma {:induction false} KeysFixed(a: Form, b: Form)
    requires a.actionType == b.actionType
    ensures ParseObject(PayloadJson(a)).Some? && ParseObject(PayloadJson(b)).Some?
    ensures var ka, kb := Keys(ParseObject(PayloadJson(a)).value), Keys(ParseObject(PayloadJson(b)).value);
      ka == kb && ka[0] == TYPE_KEY && ka[|ka| - 1] == DESC_KEY
  {
    PayloadRoundTrip(a);
    PayloadRoundTrip(b);
    PayloadKeys(a, b);
  }

  /** The payloads of two forms of the same action have the same keys, `type` first and `desc` last. */
  lemma {:induction false} PayloadKeys(a: Form, b: Form)
    requires a.actionType == b.actionType
    ensures var ka := Keys(Payload(a));
      ka == Keys(Payload(b)) && ka[0] == TYPE_KEY && ka[|ka| - 1] == DESC_KEY
  {
    assert Keys(Payload(a)) == Keys(Payload(b));
  }

}
