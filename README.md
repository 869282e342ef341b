# EtherBlinks action links: the create-link handler

EtherBlinks turns a blockchain action into a shareable link. On the
create-link page the user picks an action, either a tip or an NFT sale, and
fills out a form. `handleGenerateLink` then does five things:

- It checks that the fields the action needs are filled out.
- It writes the fields as a flat JSON object with fixed keys in a fixed order.
- It encodes the JSON text with `btoa`.
- It makes the Base64 text URL-safe: `+` becomes `-`, `/` becomes `_`, and trailing `=` are removed.
- It shows the link `{origin}/a/{token}`, with a toast for the outcome.

This Dafny project models that handler and proves what its output means.
It also models the link page's resolver (`atob`, `JSON.parse`, the `type`
switch), which serves as the handler's inverse.

Modules, one per file:

- `JsString` (`js_string.dfy`): JavaScript strings as sequences of UTF-16 code units, and the octets of a Latin-1 string.
- `Base64` (`base64.dfy`): padded Base64 of section 4 of RFC 4648, with a strict decoder as its inverse.
- `Base64Url` (`base64url.dfy`):
  - `btoa`, and the three `replace` calls that give the token.
  - The reverse mapping, and re-padding as section 3.2 of RFC 4648 describes.
  - `atob`, following the forgiving-base64 decode of the WHATWG Infra standard.
- `Json` (`json.dfy`):
  - `JSON.stringify` of a flat object of string values, as ECMA-262 writes it: short escapes, `\u00xx` for control characters, and lower-case `\uxxxx` for lone surrogates.
  - A parser for flat objects of string values written without white space. It reads back every text `JSON.stringify` writes for such an object. Like `JSON.parse`, it also accepts `\/` and upper-case `\uXXXX`, which `JSON.stringify` never writes.
- `CreateLink` (`create_link.dfy`):
  - The form, the payload, and the outcome of one submission (`Generate`).
  - The page as a class whose fields are `generatedLink` and `isLoading`. `HandleGenerateLink` is proved against `Generate`.
- `ActionLink` (`action_link.dfy`): the link page's resolver, both as written and corrected.
- `RejectedLinks` (`rejected_links.dfy`): a family of generated links that the resolver as written rejects.

The page's origin (`window.location.origin`) is a parameter. A toast is a
value that the handler returns.

Two behaviours of the code shape the model:

- `btoa` throws when the JSON text holds a code unit above 0xFF. The handler catches that and reports "Failed to generate link." (`CreateLink.GeneratedIff`).
- The link page calls `atob` on the token unchanged (see Findings).

## Model

| member | source | states |
|---|---|---|
| CreateLink.CreateLinkPage.constructor | app/create-link/page.tsx:19-20 | The page starts with no generated link and not loading. |
| CreateLink.CreateLinkPage.HandleGenerateLink | app/create-link/page.tsx:22-56 | On every way out `isLoading` is false again. `generatedLink` holds the link only when one was generated, and is empty after a validation error or a `btoa` failure. The toast names the outcome of `Generate`. |
| CreateLink.RequiredPresent | app/create-link/page.tsx:29-41 | Its body is the empty-string (falsy) tests of lines 30 and 37. A tip needs a recipient and an amount; an NFT sale needs a contract, a token id and a price. The description is never required. |
| CreateLink.Payload | app/create-link/page.tsx:35-42 | Its body is the object literal of line 35 (`type`, `recipient`, `amount`, `desc`) or of line 42 (`type`, `contract`, `tokenId`, `price`, `desc`), with the keys in the order written. |
| CreateLink.KeysSpelled | app/create-link/page.tsx:35-48 | The key constants, the two `type` values and the link path are the string literals of lines 35, 42 and 48. |
| CreateLink.EncodeToken | app/create-link/page.tsx:47 | Its body is `btoa` followed by the three `replace` calls. It gives no token where `btoa` throws. |
| CreateLink.Generate | app/create-link/page.tsx:29-52 | Its body is the outcome of one submission: the tip or NFT-sale validation error (lines 31 and 38), the link `{origin}/a/{token}` (line 48), or "Failed to generate link." where `btoa` throws (line 52). `ValidationErrors` and `GeneratedIff` characterise each outcome. |
| CreateLink.ToastFor | app/create-link/page.tsx:31-52 | Its body gives the final toast of each outcome: the messages of lines 31, 38, 50 and 52. |
| CreateLink.ValidationErrors | app/create-link/page.tsx:29-41 | The tip error comes exactly when the action is a tip and the recipient or amount is empty. The NFT-sale error comes exactly when the action is an NFT sale and the contract, token id or price is empty. The description is never required. |
| CreateLink.GeneratedIff | app/create-link/page.tsx:45-52 | A link is produced exactly when the required fields are present and every value survives `btoa`. "Failed to generate link." comes exactly when the fields are present and some value has a code unit above 0xFF that is not a lone surrogate. |
| CreateLink.PayloadEncodable | app/create-link/page.tsx:35-42 | Every key and value of the payload is encodable exactly when the form's values are; the fixed keys always are. |
| CreateLink.GeneratedLink | app/create-link/page.tsx:46-48 | A form with its required fields and encodable values gets a link. That link is the origin, `/a/`, and the padding-free base64url encoding of the JSON text's octets, and the JSON text is Latin-1. |
| CreateLink.LinkShape | app/create-link/page.tsx:47-48 | Any Latin-1 text, encoded and made URL-safe behind the origin and `/a/`, gives a well-formed link: the origin, `/a/`, then ceil(4n/3) base64url characters with no `+`, `/` or `=`. |
| CreateLink.GeneratedLinkShape | app/create-link/page.tsx:47-48 | Such a form's link is well formed: it starts with the origin and `/a/`, and its token has exactly ceil(4n/3) characters for an n-unit JSON text, all in the base64url alphabet, with no `+`, `/` or `=`. |
| CreateLink.PayloadRoundTrip | app/create-link/page.tsx:35-46 | The JSON text parses back to exactly the payload's fields in order: four for a tip, five for an NFT sale. The last field is always `desc`, even when the description is empty. |
| CreateLink.PayloadKeys | app/create-link/page.tsx:35-42 | Two forms of the same action write their object literals with the same keys in the same order: `type` first and `desc` last. |
| CreateLink.KeysFixed | app/create-link/page.tsx:35-42 | Two forms of the same action give the same keys in the same order, `type` first and `desc` last, whatever their values. |
| Base64.Encode | app/create-link/page.tsx:47 | The Base64 text of n octets has 4 * ceil(n/3) characters. |
| Base64.DecodeEncode | app/create-link/page.tsx:47 | Strict Base64 decoding of the encoding gives back exactly the encoded octets. |
| Base64.EncodeShape | app/create-link/page.tsx:47 | The encoding is ceil(4n/3) alphabet characters, then the zero, one or two `=` that complete a multiple of four. |
| Base64.EncodeGroupLast | app/create-link/page.tsx:47 | Character 4g+3 of the encoding is the low six bits of octet 3g+2. |
| Base64Url.Btoa | app/create-link/page.tsx:47 | Its body is `btoa`: each code unit is taken as an octet and the octets are Base64 encoded. It gives nothing (the exception) where a code unit is above 0xFF. Its partner is `AtobBtoa`. |
| Base64Url.ToUrlSafe | app/create-link/page.tsx:47 | Its body is the first two `replace` calls: every `+` becomes `-` and every `/` becomes `_`. |
| Base64Url.MakeUrlSafe | app/create-link/page.tsx:47 | Its body is the whole replace chain: `ToUrlSafe`, then `StripPadding`. Its partner is `TokenRoundTrip`. |
| Base64Url.Atob | app/create-link/page.tsx:47 | Its body is the browser's `atob`, which the link page applies to the token (app/a/[data]/page.tsx, line 43). It follows the forgiving-base64 decode of the WHATWG Infra standard: one or two final `=` are dropped when the length is a multiple of four, and a length of 1 modulo 4 or any character outside the standard alphabet throws. Its partner is `AtobBtoa`. |
| Base64Url.StripPadding | app/create-link/page.tsx:47 | `.replace(/=+$/, '')` returns a prefix of its input. Everything it removes is `=`, and the prefix does not end in `=`. |
| Base64Url.UrlSafeOfPadded | app/create-link/page.tsx:47 | For a well-padded text, the token is the URL-safe image of its data characters. Mapping `-` and `_` back gives those characters, and re-padding gives the text again. |
| Base64Url.TokenAlphabet | app/create-link/page.tsx:47 | Every character of the token is in the base64url alphabet, and none is `+`, `/` or `=`. |
| Base64Url.TokenLength | app/create-link/page.tsx:47 | The token of n octets has ceil(4n/3) characters. |
| Base64Url.TokenRoundTrip | app/create-link/page.tsx:47 | Mapping back, re-padding and decoding a token gives the encoded octets. |
| Base64Url.AtobBtoa | app/create-link/page.tsx:47 | `btoa` succeeds exactly on Latin-1 text, and `atob` of its result is that text. |
| Base64Url.AtobToken | app/create-link/page.tsx:47 | Once the `-` and `_` that the replace chain introduces are mapped back, `atob` of the token gives the text whose octets were encoded. This is how the link page (app/a/[data]/page.tsx, line 43) decodes the token once corrected. |
| Base64Url.AtobRejectsUrlSafe | app/create-link/page.tsx:47 | `atob` throws on any text holding the `-` or `_` that the replace chain writes, so the link page's `atob` of the token (app/a/[data]/page.tsx, line 43) fails on such a token. |
| Json.Stringify | app/create-link/page.tsx:46 | Its body is `JSON.stringify` of the flat object: `{`, the members `"key":"value"` joined by `,` without white space, then `}`. Each string is escaped as ECMA-262 does. Its partner is `ParseStringify`. |
| Json.HexRoundTrip | app/create-link/page.tsx:46 | The four hexadecimal digits of a `\uxxxx` escape read back as the code unit. |
| Json.ParseEscapeAt | app/create-link/page.tsx:46 | The escaped form of any one code unit reads back as that code unit, whatever follows it. |
| Json.ParseEscaped | app/create-link/page.tsx:46 | A quoted string reads back as its contents, leaving what follows the closing quote. |
| Json.ParseStringify | app/create-link/page.tsx:46 | Parsing the JSON text of an object gives back every key and value, in order. |
| Json.StringifyLatin1 | app/create-link/page.tsx:46-47 | The JSON text has no code unit above 0xFF exactly when every key and value is encodable: each code unit is at most 0xFF or is a lone surrogate. |
| Json.QuotePlain | app/create-link/page.tsx:46 | A string of printable ASCII without `"` or `\` is quoted unchanged. |
| ActionLink.ActionFromFields | app/create-link/page.tsx:35-42 | Its body is the `type` switch of the link page (app/a/[data]/page.tsx, lines 49-65), read on the object the create-link page writes. Only `type` is checked. Every other field is read by key, and the last member with that key wins. A missing field is absent, except that a missing `desc` reads as empty. |
| ActionLink.ResolveAsWritten | app/create-link/page.tsx:47 | Its body is the link page as written (app/a/[data]/page.tsx, lines 41-70): `atob` of the token unchanged, `JSON.parse`, then the `type` switch. Every failure is the one "invalid link" state. |
| ActionLink.Resolve | app/create-link/page.tsx:47 | Its body is the corrected link page (app/a/[data]/page.tsx, lines 41-70, with line 43 corrected): `-` and `_` are mapped back to `+` and `/` before `atob`, undoing the replace chain of line 47. Its partner is `ResolveGenerated`. |
| ActionLink.TokenOfLink | app/create-link/page.tsx:48 | The token is what follows the origin and `/a/` in the link of line 48. That is the `data` route parameter the link page reads (app/a/[data]/page.tsx, line 20). |
| ActionLink.ActionFromPayload | app/create-link/page.tsx:35-42 | The link page reads the object by key and switches on `type` (app/a/[data]/page.tsx, lines 45-65). Read that way, the payload gives back the form's action with every field and the description. |
| ActionLink.ResolvePayload | app/create-link/page.tsx:46-47 | The token of any Latin-1 payload text resolves to the form's action once `-` and `_` are mapped back: `atob`, `JSON.parse` and the `type` switch of app/a/[data]/page.tsx, lines 41-66. |
| ActionLink.ResolveGenerated | app/create-link/page.tsx:46-48 | A form with its required fields and encodable values gets a link. Through the corrected link page, that link resolves to the action of the form it came from. |
| ActionLink.AsWrittenRejectsUrlSafe | app/create-link/page.tsx:47 | The link page as written (`atob` of the token unchanged, app/a/[data]/page.tsx, line 43) rejects every token holding the `-` or `_` that the replace chain writes. |
| RejectedLinks.TipJsonLayout | app/create-link/page.tsx:35-46 | For a tip with plain values of total length n and a non-empty description, the JSON text has 51 + n code units. The last unit of the description is at position 48 + n. |
| RejectedLinks.PlainTipGenerated | app/create-link/page.tsx:29-50 | A tip with both required fields and plain values is encodable and always gets a link. |
| RejectedLinks.UnderscoreTokenRejected | app/create-link/page.tsx:47 | A JSON text with `?` as the third octet of a group gets a token holding `_`, and the link page as written rejects that token. |
| RejectedLinks.TipTokenUnderscore | app/create-link/page.tsx:35-48 | A tip whose description ends in `?` and whose three values have a total length of 2 modulo 3 gets a link. Its token holds `_`, and the link page as written rejects it. |

## Left out

- The "Generating link..." loading toast and the toast ids (app/create-link/page.tsx:26): a toast is modelled only as the final message that replaces it.
- `e.preventDefault()` and the browser's form submission: there is no DOM in the model.
- The HTML `required` attributes of the inputs (app/create-link/page.tsx:81, 85, 92, 96, 100): the browser refuses to submit the form while a visible required input is empty, so the handler's own checks, which are modelled, matter only when that validation is bypassed.
- `handleCopyToClipboard` (app/create-link/page.tsx:58-61), the QR code and the rendering: user interface without logic of the handler.
- `window.location.origin`: a parameter of the handler.
- Base64Url.Atob: ASCII white space is not removed before decoding. A generated token never holds white space, but a hand-made token with white space that the page decodes gives `None` here.
- ActionLink.ResolveAsWritten: its `JSON.parse` (`Json.ParseObject`) is modelled only on flat objects of string values written without white space. The page may resolve other JSON texts, such as ones with white space between tokens or with non-string values, where the model gives `None`. The create-link page never writes them.
- ActionLink.Resolve: the same restriction of `JSON.parse` as for `ActionLink.ResolveAsWritten`.
- ActionLink.ActionFromFields: the page's default descriptions and the values of `title`, `icon` and `label` (app/a/[data]/page.tsx:50-62) are not built; a missing or empty `desc` is the empty description.
- The transaction half of the link page and the server route app/api/create-action/route.ts (the store-backed token): they are not part of this model.

## Findings

| source | as written | input that shows it | evidently intended | confidence | as-written member | corrected member |
|---|---|---|---|---|---|---|
| app/a/[data]/page.tsx:43 | The link page passes the token to `atob` unchanged. `atob` has no `-` or `_` in its alphabet and throws, so the page shows "Invalid or corrupt action link." | A tip with recipient `0xab`, amount `1` and description `???`. Its JSON text ends in a group whose third octet is `?` (0x3F), so the token holds `_`. | Map `-` back to `+` and `_` back to `/` before `atob`, undoing the replace chain of app/create-link/page.tsx:47. | not executed | RejectedLinks.TipTokenUnderscore (ActionLink.ResolveAsWritten) | ActionLink.ResolveGenerated (ActionLink.Resolve) |
