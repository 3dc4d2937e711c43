/**
 The recorded replies and the transcript of the JetPay unit test, and what
 the gateway makes of each. Every reply is a `JetPayResponse` document laid
 out as the test writes it: the root on its own line, one child element per
 line indented two more spaces. The replies come in three shapes (approved
 with verification results, short, declined); each shape is a fixed list of
 tags, and a reply is that list paired with its values. What the gateway
 makes of a reply is proved once per shape, for every value the shape can
 carry, and each recorded reply is then one instance.
 */
module Fixtures {
  import opened Text
  import opened Xml
  import opened ReplyParser
  import opened Scrubber
  import Codec = AuthorizationCodec
  import opened RequestBuilder
  import opened Gateway

  const ReplyRoot: string := "JetPayResponse"

  /** An approval that reports the card verification and address checks. */
  const ApprovedTags: seq<string> :=
    ["TransactionID", "ActionCode", "Approval", "CVV2", "ResponseText", "Token", "AddressMatch", "ZipMatch", "AVS"]

  /** The reply to a capture, void or refund: no token, no verification results. */
  const ShortTags: seq<string> := ["TransactionID", "ActionCode", "Approval", "ResponseText"]

  /** A declined transaction: neither approval nor token. */
  const DeclinedTags: seq<string> := ["TransactionID", "ActionCode", "ResponseText"]

  // ---------------------------------------------------------------------------
  // The three reply shapes

  lemma {:induction false} ApprovedTagsValid()
    ensures Distinct(ApprovedTags) && AllNames(ApprovedTags)
    ensures ReplyRoot !in ApprovedTags
  {
    var t := ApprovedTags;
    forall i, j | 0 <= i < j < |t|
      ensures t[i] != t[j]
    {
      assert |t[i]| != |t[j]| || t[i][0] != t[j][0];
    }
    assert ValidName("TransactionID") && ValidName("ActionCode") && ValidName("Approval");
    assert ValidName("CVV2") && ValidName("ResponseText") && ValidName("Token");
    assert ValidName("AddressMatch") && ValidName("ZipMatch") && ValidName("AVS");
  }

  lemma {:induction false} ShortTagsValid()
    ensures Distinct(ShortTags) && AllNames(ShortTags)
    ensures "Token" !in ShortTags && "AVS" !in ShortTags && "CVV2" !in ShortTags
  {
    var t := ShortTags;
    assert ValidName("TransactionID") && ValidName("ActionCode") && ValidName("Approval");
    assert ValidName("ResponseText");
  }

  lemma {:induction false} DeclinedTagsValid()
    ensures Distinct(DeclinedTags) && AllNames(DeclinedTags)
    ensures "Approval" !in DeclinedTags && "Token" !in DeclinedTags
    ensures "AVS" !in DeclinedTags && "CVV2" !in DeclinedTags
  {
    assert ValidName("TransactionID") && ValidName("ActionCode") && ValidName("ResponseText");
  }

  /** A reply of distinct, valid tags reads back as its elements, each tag finding its own value. */
  lemma {:induction false} ReadTagged(indent: string, tags: seq<string>, values: seq<string>)
    requires Blank(indent) && |tags| == |values|
    requires Distinct(tags) && AllNames(tags) && AllTexts(values)
    ensures Parse(Document(indent, ReplyRoot, Tagged(tags, values))) == Tagged(tags, values)
    ensures forall k :: 0 <= k < |tags| ==> Get(Tagged(tags, values), tags[k]) == Some(values[k])
  {
    assert ValidName(ReplyRoot);
    TaggedValid(tags, values);
    TaggedKeys(tags, values);
    ParseDocument(indent, ReplyRoot, Tagged(tags, values));
  }

  /**
   Any approved reply: success exactly when its action code is 000, the
   authorization is its transaction id, approval and token around the
   operation's amount, and the verification codes are its `AVS` and `CVV2`.
   */
  lemma {:induction false} ApprovedResponse(indent: string, v: seq<string>, op: Operation, test: bool)
    requires Blank(indent) && |v| == |ApprovedTags| && AllTexts(v)
    ensures var r := Respond(op, Document(indent, ReplyRoot, Tagged(ApprovedTags, v)), test);
      (r.success <==> v[1] == SuccessCode) &&
      r.params == Tagged(ApprovedTags, v) &&
      Get(r.params, "Approval") == Some(v[2]) &&
      r.authorization == v[0] + ";" + v[2] + ";" + AmountSlot(op) + ";" + v[5] &&
      r.avsCode == Some(v[8]) && r.cvvCode == Some(v[3]) && r.test == test
  {
    ApprovedRead(indent, v);
    Codec.EncodeSpelled(Codec.Authorization(v[0], v[2], AmountSlot(op), v[5]));
  }

  /** An approved reply reads back with each of the tags the response uses. */
  lemma {:induction false} ApprovedRead(indent: string, v: seq<string>)
    requires Blank(indent) && |v| == |ApprovedTags| && AllTexts(v)
    ensures var f := Tagged(ApprovedTags, v);
      Parse(Document(indent, ReplyRoot, f)) == f &&
      Get(f, "TransactionID") == Some(v[0]) && Get(f, "ActionCode") == Some(v[1]) &&
      Get(f, "Approval") == Some(v[2]) && Get(f, "CVV2") == Some(v[3]) &&
      Get(f, "Token") == Some(v[5]) && Get(f, "AVS") == Some(v[8])
  {
    ApprovedTagsValid();
    ReadTagged(indent, ApprovedTags, v);
    var f := Tagged(ApprovedTags, v);
    assert Get(f, ApprovedTags[0]) == Some(v[0]) && Get(f, ApprovedTags[1]) == Some(v[1]);
    assert Get(f, ApprovedTags[2]) == Some(v[2]) && Get(f, ApprovedTags[3]) == Some(v[3]);
    assert Get(f, ApprovedTags[5]) == Some(v[5]) && Get(f, ApprovedTags[8]) == Some(v[8]);
  }

  /** Any short reply: no token, so the authorization ends in an empty fourth field. */
  lemma {:induction false} ShortResponse(indent: string, v: seq<string>, op: Operation, test: bool)
    requires Blank(indent) && |v| == |ShortTags| && AllTexts(v)
    ensures var r := Respond(op, Document(indent, ReplyRoot, Tagged(ShortTags, v)), test);
      (r.success <==> v[1] == SuccessCode) &&
      r.params == Tagged(ShortTags, v) &&
      Get(r.params, "Approval") == Some(v[2]) &&
      r.authorization == v[0] + ";" + v[2] + ";" + AmountSlot(op) + ";" &&
      r.avsCode.None? && r.cvvCode.None? && r.test == test
  {
    ShortTagsValid();
    ReadTagged(indent, ShortTags, v);
    var f := Tagged(ShortTags, v);
    assert Get(f, ShortTags[0]) == Some(v[0]) && Get(f, ShortTags[1]) == Some(v[1]);
    assert Get(f, ShortTags[2]) == Some(v[2]);
    TaggedMissing(ShortTags, v, "Token");
    TaggedMissing(ShortTags, v, "AVS");
    TaggedMissing(ShortTags, v, "CVV2");
    Codec.EncodeSpelled(Codec.Authorization(v[0], v[2], AmountSlot(op), []));
  }

  /** Any declined reply: approval and token slots stay empty, their delimiters kept. */
  lemma {:induction false} DeclinedResponse(indent: string, v: seq<string>, op: Operation, test: bool)
    requires Blank(indent) && |v| == |DeclinedTags| && AllTexts(v)
    ensures var r := Respond(op, Document(indent, ReplyRoot, Tagged(DeclinedTags, v)), test);
      (r.success <==> v[1] == SuccessCode) &&
      r.params == Tagged(DeclinedTags, v) &&
      Get(r.params, "Approval").None? &&
      r.authorization == v[0] + ";" + ";" + AmountSlot(op) + ";" &&
      r.test == test
  {
    DeclinedTagsValid();
    ReadTagged(indent, DeclinedTags, v);
    var f := Tagged(DeclinedTags, v);
    assert Get(f, DeclinedTags[0]) == Some(v[0]) && Get(f, DeclinedTags[1]) == Some(v[1]);
    TaggedMissing(DeclinedTags, v, "Approval");
    TaggedMissing(DeclinedTags, v, "Token");
    var slot := AmountSlot(op);
    Codec.EncodeSpelled(Codec.Authorization(v[0], [], slot, []));
    assert v[0] + ";" + [] == v[0] + ";";
    assert v[0] + ";" + ";" + slot + ";" + [] == v[0] + ";" + ";" + slot + ";";
  }

  /** The card the purchases and the authorize use: what they return does not depend on it. */
  const TestCard: Card := Card("4242424242424242", 9, 2016, "Longbob Longsen", Some("123"))

  // ---------------------------------------------------------------------------
  // Purchase

  const PurchaseValues: seq<string> :=
    ["8afa688fd002821362", "000", "TEST97", "P", "APPROVED", "KKLIHOJKKNKKHJKONJHOLHOL", "Y", "Y", "Y"]

  const PurchaseReply: string := Document("    ", ReplyRoot, Tagged(ApprovedTags, PurchaseValues))

  lemma {:induction false} PurchaseValuesValid()
    ensures AllTexts(PurchaseValues)
  {
    assert ValidText("8afa688fd002821362") && ValidText("000") && ValidText("TEST97");
    assert ValidText("P") && ValidText("APPROVED") && ValidText("KKLIHOJKKNKKHJKONJHOLHOL");
    assert ValidText("Y");
  }

  /** A purchase approved with code 000 carries the reply's id, approval and token around its amount. */
  lemma {:induction false} SuccessfulPurchase()
    ensures var o := Perform(Purchase(100, TestCard, None), PurchaseReply, true);
      o.response.success &&
      o.response.authorization == "8afa688fd002821362" + ";" + "TEST97" + ";" + "100" + ";" + "KKLIHOJKKNKKHJKONJHOLHOL" &&
      Get(o.response.params, "Approval") == Some("TEST97") &&
      o.response.test && !o.deprecationWarning
  {
    PurchaseValuesValid();
    ApprovedResponse("    ", PurchaseValues, Purchase(100, TestCard, None), true);
    Hundred();
  }

  /** The AVS code is the reply's `AVS` tag and the CVV code its `CVV2` tag. */
  lemma {:induction false} PurchaseVerificationCodes()
    ensures var o := Perform(Purchase(100, TestCard, None), PurchaseReply, true);
      o.response.avsCode == Some("Y") && o.response.cvvCode == Some("P")
  {
    PurchaseValuesValid();
    ApprovedResponse("    ", PurchaseValues, Purchase(100, TestCard, None), true);
  }

  // ---------------------------------------------------------------------------
  // Failed purchase

  const FailedPurchaseValues: seq<string> := ["7605f7c5d6e8f74deb", "005", "DECLINED"]

  const FailedPurchaseReply: string := Document("      ", ReplyRoot, Tagged(DeclinedTags, FailedPurchaseValues))

  /** A declined purchase fails, and its authorization keeps empty approval and token slots. */
  lemma {:induction false} FailedPurchase()
    ensures var o := Perform(Purchase(100, TestCard, None), FailedPurchaseReply, true);
      !o.response.success &&
      o.response.authorization == "7605f7c5d6e8f74deb;;100;" &&
      o.response.test
  {
    assert ValidText("7605f7c5d6e8f74deb") && ValidText("005") && ValidText("DECLINED");
    DeclinedResponse("      ", FailedPurchaseValues, Purchase(100, TestCard, None), true);
    Hundred();
    assert "7605f7c5d6e8f74deb" + ";" + ";" + "100" + ";" == "7605f7c5d6e8f74deb;;100;" by {
      FailedAuthorizationSpelled();
    }
  }

  lemma FailedAuthorizationSpelled()
    ensures "7605f7c5d6e8f74deb" + ";" + ";" + "100" + ";" == "7605f7c5d6e8f74deb;;100;"
  {
  }

  // ---------------------------------------------------------------------------
  // Authorize

  const AuthorizeValues: seq<string> :=
    ["cbf902091334a0b1aa", "000", "TEST01", "P", "APPROVED", "KKLIHOJKKNKKHJKONOHCLOIO", "Y", "Y", "Y"]

  const AuthorizeReply: string := Document("      ", ReplyRoot, Tagged(ApprovedTags, AuthorizeValues))

  lemma {:induction false} AuthorizeValuesValid()
    ensures AllTexts(AuthorizeValues)
  {
    assert ValidText("cbf902091334a0b1aa") && ValidText("000") && ValidText("TEST01");
    assert ValidText("P") && ValidText("APPROVED") && ValidText("KKLIHOJKKNKKHJKONOHCLOIO");
    assert ValidText("Y");
  }

  lemma {:induction false} SuccessfulAuthorize()
    ensures var o := Perform(Authorize(100, TestCard), AuthorizeReply, true);
      o.response.success &&
      o.response.authorization == "cbf902091334a0b1aa" + ";" + "TEST01" + ";" + "100" + ";" + "KKLIHOJKKNKKHJKONOHCLOIO" &&
      Get(o.response.params, "Approval") == Some("TEST01") &&
      o.response.test
  {
    AuthorizeValuesValid();
    ApprovedResponse("      ", AuthorizeValues, Authorize(100, TestCard), true);
    Hundred();
  }

  /** The amount 100 in decimal. */
  lemma Hundred()
    ensures Decimal(100) == "100"
  {
  }

  // ---------------------------------------------------------------------------
  // Capture, void and refund: the short replies

  const CaptureValues: seq<string> := ["010327153017T10018", "000", "502F6B", "APPROVED"]

  const CaptureReply: string := Document("      ", ReplyRoot, Tagged(ShortTags, CaptureValues))

  /** A capture takes the reply's approval 502F6B, not the reference's 502F7B. */
  lemma {:induction false} SuccessfulCapture()
    ensures var o := Perform(Capture(1111, "010327153017T10018;502F7B;1111"), CaptureReply, true);
      o.response.success &&
      o.response.authorization == "010327153017T10018;502F6B;1111;" &&
      Get(o.response.params, "Approval") == Some("502F6B") &&
      o.response.test
  {
    assert ValidText("010327153017T10018") && ValidText("000") && ValidText("502F6B") && ValidText("APPROVED");
    ShortResponse("      ", CaptureValues, Capture(1111, "010327153017T10018;502F7B;1111"), true);
    CaptureAmount();
    CaptureAuthorizationSpelled();
  }

  lemma CaptureAmount()
    ensures Decimal(1111) == "1111"
  {
    assert Decimal(111) == "111";
  }

  lemma CaptureAuthorizationSpelled()
    ensures "010327153017T10018" + ";" + "502F6B" + ";" + "1111" + ";" == "010327153017T10018;502F6B;1111;"
  {
  }

  const VoidValues: seq<string> := ["010327153x17T10418", "000", "502F7B", "VOID PROCESSED"]

  const VoidReply: string := Document("      ", ReplyRoot, Tagged(ShortTags, VoidValues))

  /** A void carries the reference's amount, 500, into its authorization. */
  lemma {:induction false} SuccessfulVoid()
    ensures var o := Perform(Void("010327153x17T10418;502F7B;500"), VoidReply, true);
      o.response.success &&
      o.response.authorization == "010327153x17T10418;502F7B;500;" &&
      Get(o.response.params, "Approval") == Some("502F7B") &&
      o.response.test
  {
    assert ValidText("010327153x17T10418") && ValidText("000") && ValidText("502F7B") && ValidText("VOID PROCESSED");
    ShortResponse("      ", VoidValues, Void("010327153x17T10418;502F7B;500"), true);
    VoidAmount();
    VoidAuthorizationSpelled();
  }

  lemma VoidAuthorizationSpelled()
    ensures "010327153x17T10418" + ";" + "502F7B" + ";" + "500" + ";" == "010327153x17T10418;502F7B;500;"
  {
  }

  /** The third field of the void's reference. */
  lemma {:induction false} VoidAmount()
    ensures Codec.Decode("010327153x17T10418;502F7B;500").amount == "500"
  {
    var parts := ["010327153x17T10418", "502F7B", "500"];
    assert "010327153x17T10418;502F7B;500" == Join(parts, ';');
    SplitJoin(parts, ';');
  }

  const CreditValues: seq<string> := ["010327153017T10017", "000", "002F6B", "APPROVED"]

  const CreditReply: string := Document("      ", ReplyRoot, Tagged(ShortTags, CreditValues))

  lemma {:induction false} CreditValuesValid()
    ensures AllTexts(CreditValues)
  {
    assert ValidText("010327153017T10017") && ValidText("000") && ValidText("002F6B") && ValidText("APPROVED");
  }

  /** A refund against a one-field reference: the amount is the refund's own. */
  lemma {:induction false} SuccessfulRefund()
    ensures var o := Perform(Refund(9900, "010327153017T10017"), CreditReply, true);
      o.response.success &&
      o.response.authorization == "010327153017T10017;002F6B;9900;" &&
      Get(o.response.params, "Approval") == Some("002F6B") &&
      o.response.test && !o.deprecationWarning
  {
    CreditValuesValid();
    ShortResponse("      ", CreditValues, Refund(9900, "010327153017T10017"), true);
    RefundAmount();
    RefundAuthorizationSpelled();
  }

  lemma RefundAmount()
    ensures Decimal(9900) == "9900"
  {
    assert Decimal(990) == "990";
  }

  lemma RefundAuthorizationSpelled()
    ensures "010327153017T10017" + ";" + "002F6B" + ";" + "9900" + ";" == "010327153017T10017;002F6B;9900;"
  {
  }

  /** A credit to a card succeeds without a warning. */
  lemma {:induction false} UnlinkedCredit()
    ensures var o := Perform(Credit(9900, CardSource(Card("4242424242424242", 9, 2016, "Longbob Longsen", None))), CreditReply, true);
      o.response.success && !o.deprecationWarning
  {
    CreditValuesValid();
    ShortResponse("      ", CreditValues, Credit(9900, CardSource(Card("4242424242424242", 9, 2016, "Longbob Longsen", None))), true);
  }

  /** A credit against a reference succeeds as the refund does, and raises the warning. */
  lemma {:induction false} DeprecatedCredit()
    ensures var o := Perform(Credit(9900, ReferenceSource("010327153017T10017")), CreditReply, true);
      o.response.success && o.deprecationWarning &&
      o.response.authorization == "010327153017T10017;002F6B;9900;"
  {
    SuccessfulRefund();
    DeprecatedCreditIsRefund(9900, "010327153017T10017", CreditReply, true);
  }

  // ---------------------------------------------------------------------------
  // Transcript

  /** A SALE request with a verification value and no origin. */
  const TranscriptTags: seq<string> := SaleTags + ["CVV2"]

  const TranscriptValues: seq<string> :=
    ["TESTTERMINAL", "SALE", "e23c963a1247fd7aad", "4000300020001000", "09", "16", "Longbob Longsen", "123"]

  const ScrubbedTranscriptValues: seq<string> :=
    ["TESTTERMINAL", "SALE", "e23c963a1247fd7aad", "[FILTERED]", "09", "16", "Longbob Longsen", "[FILTERED]"]

  const Transcript: string := Layout("    ", Tagged(TranscriptTags, TranscriptValues))

  const ScrubbedTranscript: string := Layout("    ", Tagged(TranscriptTags, ScrubbedTranscriptValues))

  lemma {:induction false} TranscriptTagsValid()
    ensures AllNames(TranscriptTags)
    ensures Sensitive(TranscriptTags[3]) && Sensitive(TranscriptTags[7])
    ensures forall i :: 0 <= i < 7 && i != 3 ==> !Sensitive(TranscriptTags[i])
  {
    SaleTagsValid();
    SaleTagsDistinct();
    assert ValidName("CVV2");
  }

  lemma {:induction false} TranscriptValuesValid()
    ensures AllTexts(TranscriptValues)
  {
    assert ValidText("TESTTERMINAL") && ValidText("SALE") && ValidText("e23c963a1247fd7aad");
    assert ValidText("4000300020001000") && ValidText("09") && ValidText("16");
    assert ValidText("Longbob Longsen") && ValidText("123");
  }

  /** Scrubbing the transcript masks the card number and verification value and nothing else. */
  lemma {:induction false} TranscriptScrubbing()
    ensures Scrub(Transcript) == ScrubbedTranscript
  {
    TranscriptTagsValid();
    TranscriptValuesValid();
    ScrubTagged("    ", TranscriptTags, TranscriptValues, ScrubbedTranscriptValues);
  }

  /** The card the transcript was recorded with. */
  const TranscriptCard: Card := Card("4000300020001000", 9, 2016, "Longbob Longsen", Some("123"))

  /** The transcript is the SALE request for that card, without an origin. */
  lemma {:induction false} TranscriptIsSaleRequest()
    ensures SaleRequest("TESTTERMINAL", "e23c963a1247fd7aad", TranscriptCard, None) == Tagged(TranscriptTags, TranscriptValues)
  {
    SaleRequestNoOrigin("TESTTERMINAL", "e23c963a1247fd7aad", TranscriptCard);
    TranscriptSaleValues();
  }

  /** The values sent for the transcript's card, with the expiry as `09` and `16`. */
  lemma {:induction false} TranscriptSaleValues()
    ensures SaleValues("TESTTERMINAL", "e23c963a1247fd7aad", TranscriptCard) + ["123"] == TranscriptValues
  {
    var v := SaleValues("TESTTERMINAL", "e23c963a1247fd7aad", TranscriptCard);
    assert v[4] == "09";
    assert v[5] == "16" by {
      assert Decimal(16) == "16";
    }
  }

  /**
   A purchase of 100 with the origin `RECURRING` posts a request whose
   text contains `<Origin>RECURRING</Origin>`, whatever its terminal,
   transaction id and indentation.
   */
  lemma {:induction false} PurchaseSendsOrigin(indent: string, terminal: string, transactionId: string)
    ensures Contains(Layout(indent, PurchaseRequest(terminal, transactionId, Purchase(100, TestCard, Some("RECURRING")))),
                     "<Origin>RECURRING</Origin>")
  {
    SaleRequestSendsOrigin(indent, terminal, transactionId, TestCard, "RECURRING");
    OriginRendered();
  }

  lemma OriginRendered()
    ensures Render(Element("Origin", "RECURRING")) == "<Origin>RECURRING</Origin>"
  {
  }
}
