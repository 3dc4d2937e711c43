/**
 The SALE request a purchase sends: flat leaf elements, one per tag, in a
 fixed order. The card number, expiry and cardholder name are always sent;
 the verification value and the order origin only when the caller supplies
 them, so an absent value never turns into an empty tag.
 */
module RequestBuilder {
  import opened Text
  import opened Xml
  import opened ReplyParser
  import opened Scrubber

  /** A payment card as the request needs it; the verification value may be absent. */
  datatype Card = Card(number: string, month: nat, year: nat, name: string, verification: Option<string>)

  /** The transaction type a purchase asks for. */
  const SaleType: string := "SALE"

  /** A tag that is sent only when its value is supplied. */
  function Optional(tag: string, value: Option<string>): (r: seq<Element>)
    ensures Get(r, tag) == value
    ensures forall j :: j != tag ==> Get(r, j).None?
    ensures |r| <= 1
  {
    match value
    case None => []
    case Some(v) => [Element(tag, v)]
  }

  /** The tags every SALE request carries, in the order they are sent. */
  const SaleTags: seq<string> :=
    ["TerminalID", "TransactionType", "TransactionID", "CardNum", "CardExpMonth", "CardExpYear", "CardName"]

  /** The value sent under each of `SaleTags`: expiry month and year as two digits. */
  function SaleValues(terminal: string, transactionId: string, card: Card): (r: seq<string>)
    ensures |r| == |SaleTags|
  {
    [terminal, SaleType, transactionId, card.number, ZeroPad2(card.month), ZeroPad2(card.year % 100), card.name]
  }

  function SaleHead(terminal: string, transactionId: string, card: Card): seq<Element> {
    Tagged(SaleTags, SaleValues(terminal, transactionId, card))
  }

  lemma {:induction false} SaleTagsDistinct()
    ensures forall i, j :: 0 <= i < j < |SaleTags| ==> SaleTags[i] != SaleTags[j]
    ensures "CVV2" !in SaleTags && "Origin" !in SaleTags
  {
    forall i, j | 0 <= i < j < |SaleTags|
      ensures SaleTags[i] != SaleTags[j]
    {
      assert |SaleTags[i]| != |SaleTags[j]|;
    }
  }

  /** The elements of a SALE request, optionally tagged with the order's origin. */
  function SaleRequest(terminal: string, transactionId: string, card: Card, origin: Option<string>): (r: seq<Element>)
    ensures UniqueKeys(r)
    ensures Get(r, "TransactionType") == Some(SaleType)
    ensures Get(r, "CardNum") == Some(card.number)
    ensures Get(r, "CVV2") == card.verification
    ensures Get(r, "Origin") == origin
  {
    var head := SaleHead(terminal, transactionId, card);
    var withCvv := head + Optional("CVV2", card.verification);
    HeadKeys(terminal, transactionId, card);
    AppendOptional(head, "CVV2", card.verification);
    AppendOptional(withCvv, "Origin", origin);
    withCvv + Optional("Origin", origin)
  }

  /**
   Appending an optional tag the list does not have yet keeps the keys
   distinct, finds the supplied value (or nothing) under the tag, and
   changes no other lookup.
   */
  lemma {:induction false} AppendOptional(f: Fields, tag: string, value: Option<string>)
    requires UniqueKeys(f) && Get(f, tag).None?
    ensures UniqueKeys(f + Optional(tag, value))
    ensures Get(f + Optional(tag, value), tag) == value
    ensures forall j :: j != tag ==> Get(f + Optional(tag, value), j) == Get(f, j)
  {
    var g := Optional(tag, value);
    GetAppend(f, g, tag);
    forall j | j != tag
      ensures Get(f + g, j) == Get(f, j)
    {
      GetAppend(f, g, j);
    }
    UniqueAppend(f, g);
  }

  /** The fixed part of the request: distinct tags, and neither `CVV2` nor `Origin` among them. */
  lemma {:induction false} HeadKeys(terminal: string, transactionId: string, card: Card)
    ensures UniqueKeys(SaleHead(terminal, transactionId, card))
    ensures Get(SaleHead(terminal, transactionId, card), "TransactionType") == Some(SaleType)
    ensures Get(SaleHead(terminal, transactionId, card), "CardNum") == Some(card.number)
    ensures Get(SaleHead(terminal, transactionId, card), "CVV2").None?
    ensures Get(SaleHead(terminal, transactionId, card), "Origin").None?
  {
    var h := SaleHead(terminal, transactionId, card);
    SaleTagsDistinct();
    assert forall i :: 0 <= i < |h| ==> h[i].name == SaleTags[i];
    GetIndex(h, 1);
    GetIndex(h, 3);
  }

  /** Two lists with distinct keys, none shared, have distinct keys together. */
  lemma {:induction false} UniqueAppend(f: Fields, g: Fields)
    requires UniqueKeys(f) && UniqueKeys(g)
    requires forall i :: 0 <= i < |g| ==> Get(f, g[i].name).None?
    ensures UniqueKeys(f + g)
  {
    var h := f + g;
    forall i, j | 0 <= i < j < |h|
      ensures h[i].name != h[j].name
    {
      if i < |f| && j >= |f| {
        assert Get(f, g[j - |f|].name).None?;
      }
    }
  }

  /**
   Without an origin, a request for a card with a verification value is
   exactly the fixed tags followed by `CVV2`, each paired with its value.
   */
  lemma {:induction false} SaleRequestNoOrigin(terminal: string, transactionId: string, card: Card)
    requires card.verification.Some?
    ensures SaleRequest(terminal, transactionId, card, None) ==
            Tagged(SaleTags + ["CVV2"], SaleValues(terminal, transactionId, card) + [card.verification.value])
  {
    var head := SaleHead(terminal, transactionId, card);
    var e := Element("CVV2", card.verification.value);
    assert SaleRequest(terminal, transactionId, card, None) == head + [e];
    var t := Tagged(SaleTags + ["CVV2"], SaleValues(terminal, transactionId, card) + [card.verification.value]);
    assert |t| == |head + [e]|;
    forall i | 0 <= i < |t|
      ensures t[i] == (head + [e])[i]
    {
      if i < |head| {
        assert (head + [e])[i] == head[i];
      }
    }
  }

  lemma {:induction false} SaleRequestWithOrigin(terminal: string, transactionId: string, card: Card, origin: string)
    ensures SaleRequest(terminal, transactionId, card, Some(origin)) ==
            SaleHead(terminal, transactionId, card) + Optional("CVV2", card.verification) + [Element("Origin", origin)]
  {
  }

  /** When an origin is supplied, its element is among the lines the request sends. */
  lemma {:induction false} SaleRequestSendsOrigin(indent: string, terminal: string, transactionId: string, card: Card, origin: string)
    ensures Contains(Layout(indent, SaleRequest(terminal, transactionId, card, Some(origin))), Render(Element("Origin", origin)))
  {
    var e := Element("Origin", origin);
    var front := SaleHead(terminal, transactionId, card) + Optional("CVV2", card.verification);
    SaleRequestWithOrigin(terminal, transactionId, card, origin);
    LayoutAppend(indent, front, [e]);
    assert Layout(indent, [e]) == indent + Render(e) + "\n";
    Regroup(Layout(indent, front), indent + Render(e), "\n");
    Regroup(Layout(indent, front), indent, Render(e));
    var a := Layout(indent, front) + indent;
    assert Layout(indent, front + [e]) == a + Render(e) + "\n";
  }

  /** The month and year are sent as two digits denoting the card's expiry. */
  lemma {:induction false} SaleExpiry(terminal: string, transactionId: string, card: Card, origin: Option<string>)
    requires card.month < 100
    ensures var r := SaleRequest(terminal, transactionId, card, origin);
      var m := r[4].text;
      var y := r[5].text;
      r[4].name == "CardExpMonth" && r[5].name == "CardExpYear" &&
      |m| == 2 && AllDigits(m) && ValueOf(m) == card.month &&
      |y| == 2 && AllDigits(y) && ValueOf(y) == card.year % 100
  {
    var r := SaleRequest(terminal, transactionId, card, origin);
    var head := SaleHead(terminal, transactionId, card);
    assert r == head + (Optional("CVV2", card.verification) + Optional("Origin", origin));
    assert r[4] == head[4] && r[5] == head[5];
  }

  /** No value contains `<`, so every element can be written and read back as it is. */
  predicate SaleValuesValid(terminal: string, transactionId: string, card: Card, origin: Option<string>) {
    ValidText(terminal) && ValidText(transactionId) && ValidText(card.number) && ValidText(card.name) &&
    (card.verification.Some? ==> ValidText(card.verification.value)) &&
    (origin.Some? ==> ValidText(origin.value))
  }

  lemma {:induction false} SaleRequestValid(terminal: string, transactionId: string, card: Card, origin: Option<string>)
    requires SaleValuesValid(terminal, transactionId, card, origin)
    ensures AllValid(SaleRequest(terminal, transactionId, card, origin))
  {
    var head := SaleHead(terminal, transactionId, card);
    var cvv := Optional("CVV2", card.verification);
    var tagged := Optional("Origin", origin);
    HeadValid(terminal, transactionId, card);
    AllValidAppend(head, cvv);
    AllValidAppend(head + cvv, tagged);
  }

  lemma {:induction false} HeadValid(terminal: string, transactionId: string, card: Card)
    requires ValidText(terminal) && ValidText(transactionId) && ValidText(card.number) && ValidText(card.name)
    ensures AllValid(SaleHead(terminal, transactionId, card))
  {
    var h := SaleHead(terminal, transactionId, card);
    var v := SaleValues(terminal, transactionId, card);
    assert Free(ZeroPad2(card.month), '<') && Free(ZeroPad2(card.year % 100), '<');
    assert forall i :: 0 <= i < |v| ==> ValidText(v[i]);
    SaleTagsValid();
  }

  lemma {:induction false} SaleTagsValid()
    ensures forall i :: 0 <= i < |SaleTags| ==> ValidName(SaleTags[i])
  {
    assert ValidName("TerminalID") && ValidName("TransactionType") && ValidName("TransactionID");
    assert ValidName("CardNum") && ValidName("CardExpMonth") && ValidName("CardExpYear");
    assert ValidName("CardName");
  }

  lemma {:induction false} AllValidAppend(f: seq<Element>, g: seq<Element>)
    requires AllValid(f) && AllValid(g)
    ensures AllValid(f + g)
  {
    var h := f + g;
    forall i | 0 <= i < |h|
      ensures Valid(h[i])
    {
      if i < |f| {
        assert h[i] == f[i];
      } else {
        assert h[i] == g[i - |f|];
      }
    }
  }

  /**
   A SALE request written as a document under any root reads back as the
   same elements, in the same order.
   */
  lemma {:induction false} SaleRequestReadBack(indent: string, root: string, terminal: string, transactionId: string, card: Card, origin: Option<string>)
    requires Blank(indent) && ValidName(root)
    requires SaleValuesValid(terminal, transactionId, card, origin)
    ensures Parse(Document(indent, root, SaleRequest(terminal, transactionId, card, origin))) == SaleRequest(terminal, transactionId, card, origin)
  {
    SaleRequestValid(terminal, transactionId, card, origin);
    ParseDocument(indent, root, SaleRequest(terminal, transactionId, card, origin));
  }

  /**
   The logged form of a SALE request is the request with its sensitive
   elements redacted.
   */
  lemma {:induction false} SaleRequestScrubbed(indent: string, terminal: string, transactionId: string, card: Card, origin: Option<string>)
    requires Blank(indent)
    requires SaleValuesValid(terminal, transactionId, card, origin)
    ensures var r := SaleRequest(terminal, transactionId, card, origin);
      Scrub(Layout(indent, r)) == Layout(indent, RedactAll(r))
  {
    SaleRequestValid(terminal, transactionId, card, origin);
    ScrubLayout(indent, SaleRequest(terminal, transactionId, card, origin));
  }

  /**
   The redacted SALE request carries neither the card number nor the
   verification value, and keeps the origin.
   */
  lemma {:induction false} SaleRequestRedacted(terminal: string, transactionId: string, card: Card, origin: Option<string>)
    ensures var r := RedactAll(SaleRequest(terminal, transactionId, card, origin));
      Get(r, "CardNum") == Some(Redacted) &&
      Get(r, "CVV2") == (if card.verification.Some? then Some(Redacted) else None) &&
      Get(r, "Origin") == origin
  {
    var r := SaleRequest(terminal, transactionId, card, origin);
    assert Sensitive("CardNum") && Sensitive("CVV2") && !Sensitive("Origin");
    GetRedactSensitive(r, "CardNum");
    GetRedactSensitive(r, "CVV2");
    GetRedactOther(r, "Origin");
  }
}
