/**
 * The link page, `/a/{token}`, read as the inverse of the link generator:
 * the token is decoded with `atob`, the text is parsed as JSON and its
 * `type` selects one of the two actions. Any failure is one "invalid link"
 * state, here `None`.
 */
module ActionLink {
  import opened Wrappers
  import opened JsString
  import opened Json
  import opened Base64Url
  import opened CreateLink

  /**
   * The action a link describes. The page reads each field by name and goes
   * on when one is missing (`undefined`, here `None`); only `type` is checked.
   */
  datatype Action =
    | TipAction(recipient: Option<JsStr>, amount: Option<JsStr>, desc: JsStr)
    | NftSaleAction(contract: Option<JsStr>, tokenId: Option<JsStr>, price: Option<JsStr>, desc: JsStr)

  /** Property access on a parsed object: of several members with the key, the last one counts. */
  function Lookup(fields: seq<Field>, key: JsStr): Option<JsStr>
    decreases |fields|
  {
    if |fields| == 0 then None
    else if fields[|fields| - 1].key == key then Some(fields[|fields| - 1].value)
    else Lookup(fields[..|fields| - 1], key)
  }

  /**
   * The action of a parsed object: `type` must be `tip` or `nft_sale`, or
   * the page throws. A missing `desc` reads as empty, which the page shows as
   * the default description.
   */
  function ActionFromFields(fields: seq<Field>): Option<Action>
  {
    var desc := match Lookup(fields, DESC_KEY) case Some(d) => d case None => [];
    match Lookup(fields, TYPE_KEY)
    case None => None
    case Some(kind) =>
      if kind == TIP_TYPE then
        Some(TipAction(Lookup(fields, RECIPIENT_KEY), Lookup(fields, AMOUNT_KEY), desc))
      else if kind == NFT_SALE_TYPE then
        Some(NftSaleAction(Lookup(fields, CONTRACT_KEY), Lookup(fields, TOKEN_ID_KEY), Lookup(fields, PRICE_KEY), desc))
      else None
  }

  /** The JSON text a token carries, decoded and parsed into an action. */
  function ActionOfText(text: Option<JsStr>): Option<Action>
  {
    match text
    case None => None
    case Some(json) =>
      match ParseObject(json)
      case None => None
      case Some(fields) => ActionFromFields(fields)
  }

  /** The page as written: `atob` is applied to the token as it stands. */
  function ResolveAsWritten(token: JsStr): Option<Action>
  {
    ActionOfText(Atob(token))
  }

  /** The resolver with `-` and `_` mapped back to `+` and `/` before `atob`. */
  function Resolve(token: JsStr): Option<Action>
  {
    ActionOfText(Atob(FromUrlSafe(token)))
  }

  /** The action a submitted form describes. */
  function ActionOf(form: Form): Action
  {
    match form.actionType
    case Tip => TipAction(Some(form.recipientAddress), Some(form.tipAmount), form.description)
    case NftSale =>
      NftSaleAction(Some(form.contractAddress), Some(form.tokenId), Some(form.price), form.description)
  }

  /** The token of a generated link: what follows `{origin}/a/`. */
  function TokenOf(link: JsStr, origin: JsStr): JsStr
  {
    if |origin| + 3 <= |link| then link[|origin| + 3..] else []
  }

  lemma {:induction false} KeysDistinct()
    ensures TYPE_KEY != DESC_KEY && TYPE_KEY != TIP_TYPE
    ensures TIP_TYPE != NFT_SALE_TYPE
    ensures TYPE_KEY != RECIPIENT_KEY && TYPE_KEY != AMOUNT_KEY
    ensures TYPE_KEY != CONTRACT_KEY && TYPE_KEY != TOKEN_ID_KEY && TYPE_KEY != PRICE_KEY
  {
    assert TYPE_KEY[1] != TOKEN_ID_KEY[1];
    assert TYPE_KEY[0] != DESC_KEY[0];
    assert TYPE_KEY[1] != TIP_TYPE[1];
  }

  /** Reading the payload back by key gives the fields of the form. */
  lemma {:induction false} ActionFromPayload(form: Form)
    ensures ActionFromFields(Payload(form)) == Some(ActionOf(form))
  {
    KeysDistinct();
    var p := Payload(form);
    match form.actionType
    case Tip =>
      assert DESC_KEY != RECIPIENT_KEY && DESC_KEY != AMOUNT_KEY;
      assert AMOUNT_KEY != RECIPIENT_KEY;
      assert Lookup(p, DESC_KEY) == Some(form.description);
      assert p[..3][..2] == p[..2] && p[..2][..1] == p[..1] && p[..4] == p;
      assert Lookup(p[..1], TYPE_KEY) == Some(TIP_TYPE);
      assert Lookup(p[..2], TYPE_KEY) == Some(TIP_TYPE);
      assert Lookup(p[..3], TYPE_KEY) == Some(TIP_TYPE);
      assert Lookup(p, TYPE_KEY) == Some(TIP_TYPE);
      assert Lookup(p[..2], RECIPIENT_KEY) == Some(form.recipientAddress);
      assert Lookup(p[..3], RECIPIENT_KEY) == Some(form.recipientAddress);
      assert Lookup(p, RECIPIENT_KEY) == Some(form.recipientAddress);
      assert Lookup(p, AMOUNT_KEY) == Some(form.tipAmount);
    case NftSale =>
      assert DESC_KEY != CONTRACT_KEY && DESC_KEY != TOKEN_ID_KEY && DESC_KEY != PRICE_KEY;
      assert PRICE_KEY != CONTRACT_KEY && PRICE_KEY != TOKEN_ID_KEY;
      assert TOKEN_ID_KEY != CONTRACT_KEY;
      assert TYPE_KEY[1] != TOKEN_ID_KEY[1];
      assert p[..4][..3] == p[..3] && p[..3][..2] == p[..2] && p[..2][..1] == p[..1] && p[..5] == p;
      assert Lookup(p, DESC_KEY) == Some(form.description);
      assert Lookup(p[..1], TYPE_KEY) == Some(NFT_SALE_TYPE);
      assert Lookup(p[..2], TYPE_KEY) == Some(NFT_SALE_TYPE);
      assert Lookup(p[..3], TYPE_KEY) == Some(NFT_SALE_TYPE);
      assert Lookup(p[..4], TYPE_KEY) == Some(NFT_SALE_TYPE);
      assert Lookup(p, TYPE_KEY) == Some(NFT_SALE_TYPE);
      assert Lookup(p[..2], CONTRACT_KEY) == Some(form.contractAddress);
      assert Lookup(p[..3], CONTRACT_KEY) == Some(form.contractAddress);
      assert Lookup(p[..4], CONTRACT_KEY) == Some(form.contractAddress);
      assert Lookup(p, CONTRACT_KEY) == Some(form.contractAddress);
      assert Lookup(p[..3], TOKEN_ID_KEY) == Some(form.tokenId);
      assert Lookup(p, TOKEN_ID_KEY) == Some(form.tokenId);
      assert Lookup(p, PRICE_KEY) == Some(form.price);
  }

  /** `TokenOf` takes back what follows the origin and `/a/` in a link. */
  lemma {:induction false} TokenOfLink(origin: JsStr, token: JsStr)
    ensures TokenOf(origin + LINK_PATH + token, origin) == token
  {
    assert (origin + LINK_PATH + token)[|origin| + 3..] == token;
  }

  /** The base64url encoding of a payload's JSON text resolves to the form's action. */
  lemma {:induction false} ResolvePayload(form: Form)
    requires Latin1(PayloadJson(form))
    ensures Resolve(MakeUrlSafe(Base64.Encode(ToBytes(PayloadJson(form))))) == Some(ActionOf(form))
  {
    var json := PayloadJson(form);
    var b := ToBytes(json);
    AtobToken(b);
    assert FromBytes(b) == json;
    PayloadRoundTrip(form);
    ActionFromPayload(form);
  }

  /**
   * A form with its required fields and encodable values gets a link, and
   * the link resolves, once `-` and `_` are mapped back, to the action of
   * the form it was generated from: the recipient, amount,
   * contract, token id, price and description, the empty description
   * included.
   */
  lemma {:induction false} ResolveGenerated(form: Form, origin: JsStr)
    requires RequiredPresent(form) && FormEncodable(form)
    ensures Generate(form, origin).Generated?
    ensures Resolve(TokenOf(Generate(form, origin).link, origin)) == Some(ActionOf(form))
  {
    GeneratedLink(form, origin);
    TokenOfLink(origin, MakeUrlSafe(Base64.Encode(ToBytes(PayloadJson(form)))));
    ResolvePayload(form);
  }

  /** As written, the page rejects every token holding `-` or `_`. */
  lemma {:induction false} AsWrittenRejectsUrlSafe(token: JsStr, i: nat)
    requires i < |token| && (token[i] == MINUS || token[i] == UNDERSCORE)
    ensures ResolveAsWritten(token) == None
  {
    AtobRejectsUrlSafe(token, i);
  }
}
