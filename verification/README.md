# JetPay gateway adapter — a Dafny model

This project models the core of Active Merchant's JetPay gateway adapter as
its unit test `test/unit/gateways/jetpay_test.rb` pins it down. The adapter
posts an XML request to the JetPay processor and reads the XML reply. The
reply decides four things:

- **Success.** A response succeeds exactly when the reply's `ActionCode` is
  `000`. Any other code, such as `005`, is a failure.
- **Parameters.** The response's parameters are the reply's leaf elements,
  keyed by tag name. `Approval` is among them.
- **Authorization.** The authorization string is
  `TransactionID;Approval;amount;Token`. A field the reply lacks becomes an
  empty slot, and its delimiter is kept (`7605f7c5d6e8f74deb;;100;`). The
  amount slot is the operation's amount in cents. A void takes no amount: its
  slot repeats the third field of the authorization being voided.
- **Verification codes.** The AVS code comes from the `AVS` tag and the CVV
  code from the `CVV2` tag.

Capture, void and refund take an earlier authorization as their reference.
The approval they report comes from the new reply, never from the reference.

A credit against a reference is the deprecated spelling of a refund. It
behaves exactly as the refund and raises a deprecation warning. A credit to a
card is an unlinked credit and raises no warning.

Before a wire transcript is logged it is scrubbed. The text of every
`<CardNum>` and `<CVV2>` element becomes `[FILTERED]`, and every other byte
is kept.

A purchase posts a SALE request. The model builds the part of that request
the recorded transcript shows, called the SALE fragment below:

- one leaf element per line, in a fixed tag order;
- the expiry month and year as two digits;
- the verification value and the order origin (`<Origin>`) only when they
  are supplied.

The amount element and the request's root element are not in the
transcript, so the fragment leaves them out.

The adapter's implementation file (`lib/active_merchant/billing/gateways/jetpay.rb`)
is not part of this model. The test and its fixtures fix most of the
behaviour modelled here. Where they are silent, the model makes a choice of
its own, and "## Left out" lists each such choice.

Modules, one per `.dfy` file:

- `Text` (`text.dfy`): options, `;`-splitting and joining, decimal rendering.
- `AuthorizationCodec` (`authorization.dfy`): the four-field authorization
  string.
- `Xml` (`xml.dfy`): the flat one-element-per-line XML the processor speaks.
- `ReplyParser` (`reply.dfy`): reading a reply into its fields.
- `Scrubber` (`scrub.dfy`): transcript scrubbing.
- `RequestBuilder` (`request.dfy`): the SALE request.
- `Gateway` (`gateway.dfy`): the six operations and how a reply becomes a
  response.
- `Fixtures` (`fixtures.dfy`): every recorded reply and transcript of the
  test, with the exact results it asserts.

## Model

| member | source | states |
|---|---|---|
| Text.Split | test/unit/gateways/jetpay_test.rb:58-72 | splitting a reference at `;` gives pieces free of `;`, keeps empty pieces, and joining them gives the reference back |
| Text.SplitJoin | test/unit/gateways/jetpay_test.rb:58-72 | joining `;`-free fields and splitting the result gives back exactly those fields |
| Text.Decimal | test/unit/gateways/jetpay_test.rb:30 | an amount is written as its shortest decimal digits: they denote the amount and have no leading zero |
| Text.ZeroPad2 | test/unit/gateways/jetpay_test.rb:225-226 | an expiry month or year is written as at least two digits that denote it, and as exactly two when it is below 100 |
| AuthorizationCodec.Encode | test/unit/gateways/jetpay_test.rb:30 | an authorization whose fields have no `;` splits back into exactly its four fields, in order |
| AuthorizationCodec.Decode | test/unit/gateways/jetpay_test.rb:84 | the decoded fields never contain `;`, and a reference without `;` decodes as the transaction id alone, with the other three fields empty |
| AuthorizationCodec.DecodeEncode | test/unit/gateways/jetpay_test.rb:58-61 | decoding an encoded authorization gives back its four fields |
| AuthorizationCodec.EncodeDecode | test/unit/gateways/jetpay_test.rb:69-72 | re-encoding a reference of at most four fields restores it, with one `;` added per missing field (`a;b;500` becomes `a;b;500;`) |
| AuthorizationCodec.EncodeSpelled | test/unit/gateways/jetpay_test.rb:30 | the authorization string is the four fields with a `;` between each two |
| ReplyParser.Get | test/unit/gateways/jetpay_test.rb:31 | a parameter lookup finds nothing exactly when no field has that tag, and what it finds is one of the fields |
| ReplyParser.GetIndex | test/unit/gateways/jetpay_test.rb:31 | with distinct tags, looking up any field's tag finds that field's text |
| ReplyParser.Insert | test/unit/gateways/jetpay_test.rb:146-155 | storing a parameter makes the lookup find the new value, and a new tag goes at the end |
| ReplyParser.InsertKeepsOthers | test/unit/gateways/jetpay_test.rb:146-155 | storing under one tag leaves every other tag's value unchanged |
| ReplyParser.Parse | test/unit/gateways/jetpay_test.rb:144-158 | any reply, well-formed or not, parses to fields with distinct, valid tags |
| ReplyParser.ParseDocument | test/unit/gateways/jetpay_test.rb:144-217 | a reply document at any indentation, with distinct valid tags, parses to exactly its leaf elements in document order |
| ReplyParser.TaggedKeys | test/unit/gateways/jetpay_test.rb:146-155 | a reply built from distinct tags has distinct keys, and each tag finds its own value |
| ReplyParser.TaggedMissing | test/unit/gateways/jetpay_test.rb:162-166 | a tag the reply does not carry is absent from the parameters |
| Scrubber.Scrub | test/unit/gateways/jetpay_test.rb:133-134 | text without markup passes through unchanged; what scrubbing does to elements is stated by `ScrubSensitive`, `ScrubOther`, `ScrubLayout`, `ScrubTagged` and `ScrubIdempotent` |
| Scrubber.ScrubSensitive | test/unit/gateways/jetpay_test.rb:224-228 | a `<CardNum>` or `<CVV2>` element is replaced by the same element with `[FILTERED]` as its text |
| Scrubber.ScrubOther | test/unit/gateways/jetpay_test.rb:221-227 | every other element is copied unchanged |
| Scrubber.ScrubLayout | test/unit/gateways/jetpay_test.rb:133-134 | scrubbing a one-element-per-line transcript redacts exactly the sensitive elements; indentation and line breaks are kept |
| Scrubber.ScrubTagged | test/unit/gateways/jetpay_test.rb:132-134 | a transcript of tagged lines scrubs to the same lines with the `CardNum` and `CVV2` values replaced by `[FILTERED]` and every other value kept |
| Scrubber.ScrubIdempotent | test/unit/gateways/jetpay_test.rb:133-134 | scrubbing scrubbed text changes nothing |
| Scrubber.GetRedactSensitive | test/unit/gateways/jetpay_test.rb:237-241 | in a redacted element list a sensitive tag finds `[FILTERED]` where the original has it, and nothing otherwise |
| Scrubber.GetRedactOther | test/unit/gateways/jetpay_test.rb:234-240 | in a redacted element list any other tag finds its original text |
| Scrubber.RedactTagged | test/unit/gateways/jetpay_test.rb:232-243 | redacting tagged elements replaces the values of the sensitive tags and keeps the rest |
| RequestBuilder.Optional | test/unit/gateways/jetpay_test.rb:137-141 | an optional tag is sent once with its value when supplied and not at all otherwise, so an absent value never becomes an empty tag |
| RequestBuilder.SaleRequest | test/unit/gateways/jetpay_test.rb:219-230 | the SALE fragment has distinct tags, asks for `SALE`, sends the card number, sends `CVV2` exactly when a verification value is supplied, and sends `Origin` exactly when an origin is supplied |
| RequestBuilder.SaleRequestNoOrigin | test/unit/gateways/jetpay_test.rb:219-230 | without an origin, the SALE fragment is the fixed tags followed by `CVV2`, each with its value |
| RequestBuilder.SaleRequestSendsOrigin | test/unit/gateways/jetpay_test.rb:137-141 | a supplied origin puts `<Origin>origin</Origin>` among the lines the request sends |
| RequestBuilder.SaleExpiry | test/unit/gateways/jetpay_test.rb:225-226 | the expiry month and the year modulo 100 are sent as exactly two digits that denote them |
| RequestBuilder.SaleRequestValid | test/unit/gateways/jetpay_test.rb:219-230 | when no value contains `<`, every element of the request can be written and read back as it is |
| RequestBuilder.SaleRequestReadBack | test/unit/gateways/jetpay_test.rb:219-230 | a SALE request written as a document reads back as the same elements, in the same order |
| RequestBuilder.SaleRequestScrubbed | test/unit/gateways/jetpay_test.rb:133-134 | the logged form of any SALE request is the request with its sensitive elements redacted |
| RequestBuilder.SaleRequestRedacted | test/unit/gateways/jetpay_test.rb:232-243 | the redacted request shows `[FILTERED]` for the card number, and for the verification value exactly when one was sent; it keeps the origin |
| Gateway.Classify | test/unit/gateways/jetpay_test.rb:28-40 | a response succeeds exactly when `ActionCode` is `000`; it carries the reply's fields and the test flag; its AVS and CVV codes are the `AVS` and `CVV2` tags; its authorization splits into id, approval, amount and token, with empty slots for missing tags |
| Gateway.AmountSlot | test/unit/gateways/jetpay_test.rb:58-72 | the amount slot never contains `;`; for every operation but a void it is digits denoting the operation's amount |
| Gateway.PurchaseRequest | test/unit/gateways/jetpay_test.rb:137-141 | a purchase posts a SALE fragment with distinct tags that asks for `SALE`, carries the purchase card's number, its verification value exactly when the card has one, and the purchase's origin exactly when one is given |
| Gateway.Perform | test/unit/gateways/jetpay_test.rb:24-105 | the warning is raised exactly for a credit against a reference; success is decided by the action code alone; the parameters are the parsed reply |
| Gateway.DeprecatedCreditIsRefund | test/unit/gateways/jetpay_test.rb:98-105 | a credit against a reference gets the refund's response and raises the warning, which the refund does not |
| Gateway.AuthorizationFromReply | test/unit/gateways/jetpay_test.rb:58-87 | any authorization decodes to the reply's id, approval and token; its amount is the reference's third field for a void and the operation's amount otherwise |
| Gateway.ReferenceNotRead | test/unit/gateways/jetpay_test.rb:58-62 | capture and refund outcomes do not depend on the reference, so the approval is always the reply's |
| Gateway.CardOperationsAgree | test/unit/gateways/jetpay_test.rb:91-95 | purchase, authorize and an unlinked credit read the same reply the same way around the same amount |
| Fixtures.ReadTagged | test/unit/gateways/jetpay_test.rb:144-217 | a reply document of distinct valid tags parses to its elements, each tag finding its value |
| Fixtures.ApprovedRead | test/unit/gateways/jetpay_test.rb:144-158 | an approved reply reads back with its id, action code, approval, CVV2, token and AVS |
| Fixtures.ApprovedResponse | test/unit/gateways/jetpay_test.rb:144-184 | any approved reply: success exactly when the code is `000`, authorization `id;approval;amount;token`, AVS and CVV codes from its tags |
| Fixtures.ShortResponse | test/unit/gateways/jetpay_test.rb:186-217 | any short reply: success exactly when the code is `000`, authorization `id;approval;amount;` with an empty token slot, no AVS or CVV code |
| Fixtures.DeclinedResponse | test/unit/gateways/jetpay_test.rb:160-168 | any declined reply: success exactly when the code is `000`, no approval, authorization `id;;amount;` |
| Fixtures.SuccessfulPurchase | test/unit/gateways/jetpay_test.rb:24-33 | the recorded purchase succeeds with `8afa688fd002821362;TEST97;100;KKLIHOJKKNKKHJKONJHOLHOL`, approval `TEST97`, in test mode |
| Fixtures.PurchaseVerificationCodes | test/unit/gateways/jetpay_test.rb:119-131 | the recorded purchase has AVS code `Y` and CVV code `P` |
| Fixtures.FailedPurchase | test/unit/gateways/jetpay_test.rb:35-42 | the recorded declined purchase fails with `7605f7c5d6e8f74deb;;100;`, in test mode |
| Fixtures.SuccessfulAuthorize | test/unit/gateways/jetpay_test.rb:44-53 | the recorded authorize succeeds with `cbf902091334a0b1aa;TEST01;100;KKLIHOJKKNKKHJKONOHCLOIO`, approval `TEST01` |
| Fixtures.SuccessfulCapture | test/unit/gateways/jetpay_test.rb:55-64 | capturing 1111 against `010327153017T10018;502F7B;1111` succeeds with `010327153017T10018;502F6B;1111;`, approval `502F6B` |
| Fixtures.SuccessfulVoid | test/unit/gateways/jetpay_test.rb:66-75 | voiding `010327153x17T10418;502F7B;500` succeeds with `010327153x17T10418;502F7B;500;`, approval `502F7B` |
| Fixtures.VoidAmount | test/unit/gateways/jetpay_test.rb:69 | the voided reference's third field is `500` |
| Fixtures.SuccessfulRefund | test/unit/gateways/jetpay_test.rb:107-117 | refunding 9900 against the one-field reference succeeds with `010327153017T10017;002F6B;9900;`, approval `002F6B`, without a warning |
| Fixtures.UnlinkedCredit | test/unit/gateways/jetpay_test.rb:91-95 | a credit of 9900 to a card without a verification value succeeds without a warning |
| Fixtures.DeprecatedCredit | test/unit/gateways/jetpay_test.rb:98-105 | a credit of 9900 against the reference succeeds as the refund does and raises the warning |
| Fixtures.TranscriptScrubbing | test/unit/gateways/jetpay_test.rb:133-134 | scrubbing the recorded transcript gives exactly the scrubbed transcript |
| Fixtures.TranscriptIsSaleRequest | test/unit/gateways/jetpay_test.rb:219-230 | the recorded transcript fragment is the SALE fragment for its card, with expiry `09` and `16` |
| Fixtures.TranscriptSaleValues | test/unit/gateways/jetpay_test.rb:221-228 | the values sent for the transcript's card are the transcript's values |
| Fixtures.PurchaseSendsOrigin | test/unit/gateways/jetpay_test.rb:137-141 | the request of a purchase of 100 with origin `RECURRING` contains `<Origin>RECURRING</Origin>`, whatever its terminal, transaction id and indentation |

## Left out

- Transport: posting the request and receiving the reply is not modelled. The reply text is a parameter of `Gateway.Perform`, and the request a purchase would post is `Gateway.PurchaseRequest`, which `Perform` does not consult.
- Test mode: the global gateway mode becomes the `test` parameter, which every response carries unchanged.
- Deprecation warnings: the warning mechanism and its message text are reduced to the boolean `deprecationWarning`.
- Parameter key names: the adapter stores reply tags under snake_case keys (`params["approval"]`). The model keys each field by its tag name (`Approval`).
- Response message: the `ResponseText` tag is parsed like any other, but the response message built from it is not modelled; the test asserts nothing about it.
- XML: attributes, entities, escaping, nested elements below the root and errors on malformed XML are not modelled. Text containing `<` is never read as element text.
- Requests other than SALE: only the SALE request a purchase sends is built. The bodies of the authorize, capture, void and credit requests are not modelled; their replies and responses are.
- Request amount and root: the SALE fragment holds only the elements the recorded transcript shows. The amount element and the request's root element are not modelled, so `Gateway.PurchaseRequest` does not carry the purchase amount.
- Request options: billing and shipping address, e-mail, IP, order id and tax are not sent in the model. The verification value and the order origin are.
- AVS and CVV results: only the codes are modelled. The tables that turn a code into a message are not.
- Card handling: card validation and the test helpers that build cards and addresses are not modelled. A card is its number, expiry, name and optional verification value.
- Token from the reference: when a reply has no `Token`, the token slot is empty. The model does not fall back to a token carried in the reference; no recorded reply needs that.
- Reference shape: a reference is read as up to four `;`-separated fields. A one-field reference, as the refund in the test uses, is all transaction id. A stricter rule requiring at least two fields would reject the test's own refund, so it is not modelled.
- Splitting: Ruby's `split(';')` drops trailing empty pieces. The model keeps them and reads absent fields as empty, which gives the same four fields.
- Scrubber.Scrub: masks any element text without `<` under `<CardNum>` and `<CVV2>`. The adapter's own pattern may only match digits; the recorded transcript has digits only, so the two agree on it.
- RequestBuilder.SaleRequest: the expiry year is sent as the year modulo 100, two digits, as the transcript shows for 2016.
- Fixtures: each recorded reply is written as its tag list paired with its values, laid out as the test lays it out. The expected authorizations of the purchase and the authorize are written as their four fields joined with `;`.
- ReplyParser.Insert: when a reply repeats a tag, the later value replaces the earlier one in the earlier position. So `<R><A>1</A><B>x</B><A>2</A></R>` reads as `A=2, B=x`. No reply in the test repeats a tag.
- Gateway.AmountSlot: a void against a reference with fewer than three fields gets an empty amount slot, so voiding `a;b` gives `…;502F7B;;`. The test voids only a three-field reference.
- RequestBuilder.SaleRequest: `Origin` is sent after `CVV2`. The test checks only that the origin is sent.
- Scrubber.Scrub: also masks `<CVV2>` in a logged reply, where it holds the CVV result code: `<CVV2>P</CVV2>` becomes `<CVV2>[FILTERED]</CVV2>`. The test scrubs only a request.
