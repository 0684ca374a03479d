/** The order form: two text fields, a buy/sell flag and the last reply, and
    the submit handler that parses the fields, refuses a non-positive price
    or quantity before any request is made, and stores the reply of a
    successful request. */
module OrderForm {
  import opened Wrappers
  import opened Decimal
  import Server

  /** The body `createOrder` posts. */
  datatype CreateOrderRequest = CreateOrderRequest(buyOrder: bool, price: JsNumber, quantity: JsNumber)

  /** A field's numeric value: 0 for an empty field, `Number` of its text
      otherwise. */
  function FieldValue(text: string): (n: JsNumber)
    ensures text == "" ==> n == Finite(0.0)
  {
    if text == "" then Finite(0.0) else JsNumberOf(text)
  }

  /** JavaScript's `n <= 0`, which is false for NaN. */
  predicate AtMostZero(n: JsNumber): (r: bool)
    ensures n.NaN? ==> !r
    ensures n.Finite? ==> (r <==> n.value <= 0.0)
  {
    n.Finite? && n.value <= 0.0
  }

  /** The request `handleSubmit` sends for the current fields and flag, or
      None when the guard returns early. */
  function SubmitRequest(price: string, quantity: string, buyOrder: bool): (r: Option<CreateOrderRequest>)
    ensures r.None? <==> AtMostZero(FieldValue(price)) || AtMostZero(FieldValue(quantity))
    ensures r.Some? ==> r.value.buyOrder == buyOrder
    ensures r.Some? ==> r.value.price == FieldValue(price) && r.value.quantity == FieldValue(quantity)
    ensures r.Some? ==> !AtMostZero(r.value.price) && !AtMostZero(r.value.quantity)
  {
    var numericPrice := FieldValue(price);
    var numericQuantity := FieldValue(quantity);
    if AtMostZero(numericPrice) || AtMostZero(numericQuantity) then None
    else Some(CreateOrderRequest(buyOrder, numericPrice, numericQuantity))
  }

  /** `!price || !quantity`: the submit button is disabled while a field is
      empty. */
  function SubmitDisabled(price: string, quantity: string): (r: bool)
    ensures r ==> price == "" || quantity == ""
    ensures r ==> FieldValue(price) == Finite(0.0) || FieldValue(quantity) == Finite(0.0)
    ensures !r ==> |price| > 0 && |quantity| > 0
  {
    price == "" || quantity == ""
  }

  /** An empty field counts as 0, so whenever the button is disabled the
      handler would not send anything either. */
  lemma DisabledNeverSends(price: string, quantity: string, buyOrder: bool)
    requires SubmitDisabled(price, quantity)
    ensures SubmitRequest(price, quantity, buyOrder) == None
  {
  }

  /** Positive whole numbers typed into both fields are sent as they are,
      with the current side. */
  lemma PositiveFieldsAreSent(price: nat, quantity: nat, buyOrder: bool)
    requires price > 0 && quantity > 0
    ensures SubmitRequest(NatToDecimal(price), NatToDecimal(quantity), buyOrder)
         == Some(CreateOrderRequest(buyOrder, Finite(price as real), Finite(quantity as real)))
  {
    NumberOfDecimal(price);
    NumberOfDecimal(quantity);
  }

  /** A negative whole number in either field is refused. */
  lemma NegativeFieldIsRefused(n: nat, other: string, buyOrder: bool)
    ensures SubmitRequest("-" + NatToDecimal(n), other, buyOrder) == None
    ensures SubmitRequest(other, "-" + NatToDecimal(n), buyOrder) == None
  {
    NumberOfNegatedDecimal(n);
  }

  /** Text that is not a number passes the guard (NaN is not <= 0) and is
      sent as NaN. */
  lemma NaNPassesGuard(quantity: nat, buyOrder: bool)
    requires quantity > 0
    ensures SubmitRequest("abc", NatToDecimal(quantity), buyOrder)
         == Some(CreateOrderRequest(buyOrder, NaN, Finite(quantity as real)))
  {
    NumberOfDecimal(quantity);
    assert ExpIndex("abc") == 3 && "abc"[..3] == "abc";
    assert DotIndex("abc") == 3;
    assert !IsDigit("abc"[0]);
  }

  /** A field holding an unsigned literal (it starts with a digit or a '.')
      is refused exactly when the literal parses and every digit of its
      significand is '0', or the other field is refused. */
  lemma UnsignedLiteralGuard(text: string, other: string, buyOrder: bool)
    requires |text| > 0 && (IsDigit(text[0]) || text[0] == '.')
    ensures SubmitRequest(text, other, buyOrder).None? <==>
      (JsNumberOf(text).Finite? && ZeroDigits(text[..ExpIndex(text)])) || AtMostZero(FieldValue(other))
    ensures SubmitRequest(other, text, buyOrder).None? <==>
      AtMostZero(FieldValue(other)) || (JsNumberOf(text).Finite? && ZeroDigits(text[..ExpIndex(text)]))
  {
  }

  /** Zero spelled with a fraction or with leading zeros is refused,
      whatever the quantity. */
  lemma ZeroSpellingsRefused(quantity: string, buyOrder: bool)
    ensures SubmitRequest("0.0", quantity, buyOrder) == None
    ensures SubmitRequest("00", quantity, buyOrder) == None
  {
    SpellingDecides("0", "0", quantity, buyOrder);
    assert "0" + "." + "0" == "0.0";
    SpellingDecides("00", "", quantity, buyOrder);
  }

  /** A fraction below one is sent whenever the quantity passes the
      guard. */
  lemma FractionBelowOneSent(quantity: string, buyOrder: bool)
    requires !AtMostZero(FieldValue(quantity))
    ensures SubmitRequest("0.5", quantity, buyOrder).Some?
  {
    SpellingDecides("0", "5", quantity, buyOrder);
    assert "0" + "." + "5" == "0.5";
    assert !ZeroDigits("0.5") by { assert "0.5"[2] == '5'; }
  }

  /** A whole number with leading zeros is sent whenever the quantity
      passes the guard. */
  lemma LeadingZerosSent(quantity: string, buyOrder: bool)
    requires !AtMostZero(FieldValue(quantity))
    ensures SubmitRequest("007", quantity, buyOrder).Some?
  {
    SpellingDecides("007", "", quantity, buyOrder);
    assert !ZeroDigits("007") by { assert "007"[2] == '7'; }
  }

  /** For digits with an optional fraction in the price field, the guard
      refuses exactly when all the digits are '0' or the quantity is
      refused. */
  lemma SpellingDecides(whole: string, frac: string, quantity: string, buyOrder: bool)
    requires AllDigits(whole) && AllDigits(frac) && |whole| > 0
    ensures SubmitRequest(whole, quantity, buyOrder).None? <==>
      ZeroDigits(whole) || AtMostZero(FieldValue(quantity))
    ensures SubmitRequest(whole + "." + frac, quantity, buyOrder).None? <==>
      ZeroDigits(whole + "." + frac) || AtMostZero(FieldValue(quantity))
  {
    PlainLiteralParses(whole, frac);
    NoExponentMarker(whole);
    ExpIndexOfDigitsAndDot(whole, frac);
    var s := whole + "." + frac;
    assert whole[..|whole|] == whole && s[..|s|] == s;
    assert s[0] == whole[0] && IsDigit(whole[0]);
    UnsignedLiteralGuard(whole, quantity, buyOrder);
    UnsignedLiteralGuard(s, quantity, buyOrder);
  }

  /** Exponent notation decides the guard by its value: "0e5" is 0, so it
      is refused whatever the quantity. */
  lemma ZeroExponentRefused(quantity: string, buyOrder: bool)
    ensures SubmitRequest("0e5", quantity, buyOrder) == None
  {
    NumberOfExponentForm(0, 5);
    assert NatToDecimal(0) + "e" + NatToDecimal(5) == "0e5";
  }

  /** "-1e2" is -100, so it is refused whatever the quantity. */
  lemma NegativeExponentRefused(quantity: string, buyOrder: bool)
    ensures SubmitRequest("-1e2", quantity, buyOrder) == None
  {
    NumberOfExponentForm(1, 2);
    assert NatToDecimal(1) + "e" + NatToDecimal(2) == "1e2";
    assert "-1e2"[1..] == "1e2";
    assert ParseUnsigned("1e2") == Finite(100.0);
  }

  /** The form component's state. */
  class CreateOrderForm {
    var price: string
    var quantity: string
    var buyOrder: bool
    var response: Option<Server.CreateOrderResponse>

    constructor ()
      ensures price == "" && quantity == "" && buyOrder && response == None
    {
      price := "";
      quantity := "";
      buyOrder := true;
      response := None;
    }

    /** The price field's `onChange`. */
    method SetPrice(text: string)
      modifies this`price
      ensures price == text
    {
      price := text;
    }

    /** The quantity field's `onChange`. */
    method SetQuantity(text: string)
      modifies this`quantity
      ensures quantity == text
    {
      quantity := text;
    }

    /** The Buy button. */
    method ClickBuy()
      modifies this`buyOrder
      ensures buyOrder
    {
      buyOrder := true;
    }

    /** The Sell button. */
    method ClickSell()
      modifies this`buyOrder
      ensures !buyOrder
    {
      buyOrder := false;
    }

    /** The submit button's `disabled`: a disabled form would not send
        anything either. */
    function IsSubmitDisabled(): (r: bool)
      reads this
      ensures r <==> price == "" || quantity == ""
      ensures r ==> SubmitRequest(price, quantity, buyOrder).None?
    {
      if SubmitDisabled(price, quantity) then
        DisabledNeverSends(price, quantity, buyOrder);
        true
      else false
    }

    /** `handleSubmit`. Returns the request sent, or None when the guard
        returned before any call. `reply` is what `createOrder` resolves to
        (Ok) or throws (Err) when it is called; a refused submission or a
        failed call leaves the stored response as it was. */
    method HandleSubmit(reply: Result<Server.CreateOrderResponse>) returns (sent: Option<CreateOrderRequest>)
      modifies this`response
      ensures sent == SubmitRequest(price, quantity, buyOrder)
      ensures response == if sent.Some? && reply.Ok? then Some(reply.value) else old(response)
    {
      var numericPrice := if price == "" then Finite(0.0) else JsNumberOf(price);
      var numericQuantity := if quantity == "" then Finite(0.0) else JsNumberOf(quantity);
      if AtMostZero(numericPrice) || AtMostZero(numericQuantity) {
        return None;
      }
      sent := Some(CreateOrderRequest(buyOrder, numericPrice, numericQuantity));
      if reply.Ok? {
        response := Some(reply.value);
      }
    }

    /** A click on Buy (`buy`) or Sell. The buttons have no `type`, so the
        click sets the side and then submits the form. Positive whole
        numbers in both fields send an order for the clicked side. */
    method ClickSideAndSubmit(buy: bool, reply: Result<Server.CreateOrderResponse>)
      returns (sent: Option<CreateOrderRequest>)
      modifies this`buyOrder, this`response
      ensures buyOrder == buy
      ensures sent == SubmitRequest(price, quantity, buy)
      ensures response == if sent.Some? && reply.Ok? then Some(reply.value) else old(response)
      ensures forall p: nat, q: nat ::
        p > 0 && q > 0 && price == NatToDecimal(p) && quantity == NatToDecimal(q) ==>
        sent == Some(CreateOrderRequest(buy, Finite(p as real), Finite(q as real)))
    {
      if buy {
        ClickBuy();
      } else {
        ClickSell();
      }
      sent := HandleSubmit(reply);
      forall p: nat, q: nat | p > 0 && q > 0 && price == NatToDecimal(p) && quantity == NatToDecimal(q)
        ensures sent == Some(CreateOrderRequest(buy, Finite(p as real), Finite(q as real)))
      {
        PositiveFieldsAreSent(p, q, buy);
      }
    }
  }
}
