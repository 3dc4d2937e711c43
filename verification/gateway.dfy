/**
 The gateway operations and how a reply becomes a response. Every operation
 posts one request and classifies the reply the same way: it succeeded
 exactly when the action code is `000`, and its authorization is the
 reply's transaction id, approval and token around the operation's amount.
 The transport is not modelled: the reply text is a parameter.
 */
module Gateway {
  import opened Text
  import opened Xml
  import opened ReplyParser
  import Codec = AuthorizationCodec
  import opened RequestBuilder

  /** The action code of an approved transaction. */
  const SuccessCode: string := "000"

  datatype Response = Response(
    success: bool,
    params: Fields,
    authorization: string,
    avsCode: Option<string>,
    cvvCode: Option<string>,
    test: bool)

  /** The reply's value under `tag`, or the empty string when the reply lacks it. */
  function ValueOr(fields: Fields, tag: string): (r: string)
    ensures Get(fields, tag).Some? ==> r == Get(fields, tag).value
    ensures Get(fields, tag).None? ==> r == []
  {
    Get(fields, tag).GetOr([])
  }

  /** The authorization a reply stands for, around the amount the operation supplies. */
  function ReplyAuthorization(fields: Fields, amount: string): Codec.Authorization {
    Codec.Authorization(ValueOr(fields, "TransactionID"), ValueOr(fields, "Approval"), amount, ValueOr(fields, "Token"))
  }

  /** The values that go into an authorization contain no `;`. */
  predicate DelimiterFree(fields: Fields) {
    Free(ValueOr(fields, "TransactionID"), Codec.Delimiter) &&
    Free(ValueOr(fields, "Approval"), Codec.Delimiter) &&
    Free(ValueOr(fields, "Token"), Codec.Delimiter)
  }

  /**
   Turns parsed reply fields into a response. Failed replies get an
   authorization too; fields the reply lacks become empty slots.
   */
  function Classify(fields: Fields, amount: string, test: bool): (r: Response)
    ensures r.success <==> Get(fields, "ActionCode") == Some(SuccessCode)
    ensures r.params == fields && r.test == test
    ensures r.avsCode == Get(fields, "AVS") && r.cvvCode == Get(fields, "CVV2")
    ensures DelimiterFree(fields) && Free(amount, Codec.Delimiter) ==>
      Split(r.authorization, Codec.Delimiter) ==
        [ValueOr(fields, "TransactionID"), ValueOr(fields, "Approval"), amount, ValueOr(fields, "Token")]
  {
    Response(
      Get(fields, "ActionCode") == Some(SuccessCode),
      fields,
      Codec.Encode(ReplyAuthorization(fields, amount)),
      Get(fields, "AVS"),
      Get(fields, "CVV2"),
      test)
  }

  /** A credit goes to a card (unlinked) or against an earlier authorization (linked). */
  datatype CreditSource = CardSource(card: Card) | ReferenceSource(reference: string)

  /** The six operations, each with the inputs it takes; amounts are in cents. */
  datatype Operation =
    | Purchase(amount: nat, card: Card, origin: Option<string>)
    | Authorize(amount: nat, card: Card)
    | Capture(amount: nat, reference: string)
    | Void(reference: string)
    | Refund(amount: nat, reference: string)
    | Credit(amount: nat, source: CreditSource)

  /**
   The amount slot of the new authorization: the operation's amount in
   decimal, except for a void, which takes no amount and carries on the
   reference's third field.
   */
  function AmountSlot(op: Operation): (r: string)
    ensures Free(r, Codec.Delimiter)
    ensures !op.Void? ==> AllDigits(r) && ValueOf(r) == op.amount
  {
    match op
    case Void(reference) => Codec.Decode(reference).amount
    case _ =>
      var d := Decimal(op.amount);
      assert forall i :: 0 <= i < |d| ==> IsDigit(d[i]);
      d
  }

  /** The response an operation gets from `reply`. */
  function Respond(op: Operation, reply: string, test: bool): Response {
    Classify(Parse(reply), AmountSlot(op), test)
  }

  /**
   The request a purchase posts: a SALE for the purchase's card that carries
   the card's verification value and the purchase's origin when it has them.
   */
  function PurchaseRequest(terminal: string, transactionId: string, op: Operation): (r: seq<Element>)
    requires op.Purchase?
    ensures UniqueKeys(r)
    ensures Get(r, "TransactionType") == Some(SaleType)
    ensures Get(r, "CardNum") == Some(op.card.number)
    ensures Get(r, "CVV2") == op.card.verification
    ensures Get(r, "Origin") == op.origin
  {
    SaleRequest(terminal, transactionId, op.card, op.origin)
  }

  /** What an operation returns: its response, and whether a deprecation warning was raised. */
  datatype Outcome = Outcome(response: Response, deprecationWarning: bool)

  /**
   Performs `op` against the reply the processor sent back. A credit
   against a reference is the deprecated spelling of a refund: it is
   carried out as the refund and raises the warning.
   */
  function Perform(op: Operation, reply: string, test: bool): (o: Outcome)
    ensures o.deprecationWarning <==> op.Credit? && op.source.ReferenceSource?
    ensures o.response.success <==> Get(Parse(reply), "ActionCode") == Some(SuccessCode)
    ensures o.response.params == Parse(reply) && o.response.test == test
  {
    match op
    case Credit(amount, ReferenceSource(reference)) => Outcome(Respond(Refund(amount, reference), reply, test), true)
    case _ => Outcome(Respond(op, reply, test), false)
  }

  // ---------------------------------------------------------------------------
  // Properties of the operations

  /** A credit against a reference gets exactly the refund's response, plus the warning. */
  lemma {:induction false} DeprecatedCreditIsRefund(amount: nat, reference: string, reply: string, test: bool)
    ensures Perform(Credit(amount, ReferenceSource(reference)), reply, test).response ==
            Perform(Refund(amount, reference), reply, test).response
    ensures Perform(Credit(amount, ReferenceSource(reference)), reply, test).deprecationWarning
    ensures !Perform(Refund(amount, reference), reply, test).deprecationWarning
  {
  }

  /**
   Every authorization reads back as four fields: the reply's transaction
   id, approval and token (empty when absent) around the operation's amount
   slot.
   */
  lemma {:induction false} AuthorizationFromReply(op: Operation, reply: string, test: bool)
    requires DelimiterFree(Parse(reply))
    ensures var fields := Parse(reply);
      var a := Codec.Decode(Perform(op, reply, test).response.authorization);
      a.transactionId == ValueOr(fields, "TransactionID") &&
      a.approval == ValueOr(fields, "Approval") &&
      a.token == ValueOr(fields, "Token") &&
      (op.Void? ==> a.amount == Codec.Decode(op.reference).amount) &&
      (!op.Void? ==> AllDigits(a.amount) && ValueOf(a.amount) == op.amount)
  {
    var fields := Parse(reply);
    var slot := AmountSlot(match op case Credit(amount, ReferenceSource(reference)) => Refund(amount, reference) case _ => op);
    var a := ReplyAuthorization(fields, slot);
    assert Codec.WellFormed(a) by {
      assert Codec.Fields(a) == [a.transactionId, a.approval, slot, a.token];
    }
    Codec.DecodeEncode(a);
  }

  /**
   Capture and refund take their approval from the reply, never from the
   reference: the response does not depend on the reference at all.
   */
  lemma {:induction false} ReferenceNotRead(amount: nat, reference: string, other: string, reply: string, test: bool)
    ensures Perform(Capture(amount, reference), reply, test) == Perform(Capture(amount, other), reply, test)
    ensures Perform(Refund(amount, reference), reply, test) == Perform(Refund(amount, other), reply, test)
  {
  }

  /** Purchase, authorize and unlinked credit all put the same amount slot around the same reply. */
  lemma {:induction false} CardOperationsAgree(amount: nat, card: Card, other: Card, origin: Option<string>, reply: string, test: bool)
    ensures Perform(Purchase(amount, card, origin), reply, test) == Perform(Authorize(amount, other), reply, test)
    ensures Perform(Credit(amount, CardSource(other)), reply, test) == Perform(Authorize(amount, card), reply, test)
  {
  }
}
