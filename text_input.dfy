/**
 * The per-user text-input state: a user who pressed "💳 Deposit Saldo" is waiting to type
 * an amount, a user who pressed ✏️ on a product screen is waiting to type a quantity.
 * The text handler serves the deposit state first; input it refuses leaves the state
 * in place, input it accepts consumes it, and a user in neither state is passed on.
 */
module TextInput {
  import opened Wrappers
  import opened JsText
  import opened Stores
  import opened Catalog
  import opened CallbackData
  import opened CategoryMenu
  import opened Qris

  /** The deposit minimum, Rp 1.000. */
  const MinDeposit: int := 1000

  // ---------------------------------------------------------------- which texts arrive

  /** The reply-keyboard labels; their `hears` handlers are registered before the text handler. */
  const DepositLabel: string := "💳 Deposit Saldo"
  const BackToMenuLabel: string := "🔙 Kembali ke Menu"
  const MenuLabels: seq<string> := [DepositLabel, "📖 Cara Order", "👤 Admin", "📦 All Stock", BackToMenuLabel]

  /** Where a text message goes: a label's own handler (whole-text match) or the text handler. */
  datatype TextRoute = Hears(menuLabel: string) | TextHandler

  function RouteText(text: string): (r: TextRoute)
    ensures r.Hears? <==> text in MenuLabels
    ensures r.Hears? ==> r.menuLabel == text
  {
    if text in MenuLabels then Hears(text) else TextHandler
  }

  // ---------------------------------------------------------------- the decision

  /** What the text handler does with a message. */
  datatype Step =
    | DepositRefused                      // "minimal Rp 1.000 dan harus berupa angka"
    | DepositAmount(amount: int)
    | QtyRefused                          // "harus berupa angka positif"
    | QtyEntered(productId: string, qty: int)
    | PassOn                              // `next()`

  /**
   * The handler's decision for a user who is (or is not) waiting to type an amount and
   * who may be editing the quantity of a product: the deposit state is served first and
   * takes parseInt of the text if it is at least 1000; the quantity state takes parseInt
   * of the text if it is at least 1; any other user's text is passed on.
   */
  function Decide(waitingAmount: bool, editing: Option<string>, text: string): (r: Step)
    ensures waitingAmount ==> (r.DepositRefused? || r.DepositAmount?)
    ensures r.DepositAmount? <==> (waitingAmount && ParseInt(text).Some? && ParseInt(text).value >= MinDeposit)
    ensures r.DepositAmount? ==> r.amount == ParseInt(text).value >= MinDeposit
    ensures (r.QtyEntered? <==>
      !waitingAmount && editing.Some? && ParseInt(text).Some? && ParseInt(text).value >= 1)
    ensures (r.QtyRefused? <==>
      !waitingAmount && editing.Some? && (ParseInt(text).None? || ParseInt(text).value < 1))
    ensures r.QtyEntered? ==> r.productId == editing.value && r.qty == ParseInt(text).value >= 1
    ensures r.PassOn? <==> !waitingAmount && editing.None?
  {
    var n := ParseInt(text);
    if waitingAmount then
      if n.None? || n.value < MinDeposit then DepositRefused else DepositAmount(n.value)
    else if editing.Some? then
      if n.None? || n.value < 1 then QtyRefused else QtyEntered(editing.value, n.value)
    else PassOn
  }

  /** parseInt reads a leading number, so an amount followed by words is taken. */
  lemma {:induction false} AmountWithWordsAccepted()
    ensures Decide(true, None, "1000 rupiah") == DepositAmount(1000)
  {
    assert "1000 rupiah" == "1000" + " rupiah";
    ValueOfThousand();
    DecideOnLeadingNumber(true, None, "1000 rupiah", "1000", " rupiah");
  }

  lemma ValueOfThousand()
    ensures Value("1000", 10) == 1000
  {
    assert "1000"[..3] == "100" && "100"[..2] == "10" && "10"[..1] == "1" && "1"[..0] == [];
  }

  /** A thousands separator cuts the number short: "10.000" is read as 10 and refused. */
  lemma {:induction false} SeparatedAmountRefused()
    ensures Decide(true, None, "10.000") == DepositRefused
  {
    assert "10.000" == "10" + ".000";
    assert "10"[..1] == "1" && "1"[..0] == [];
    DecideOnLeadingNumber(true, None, "10.000", "10", ".000");
  }

  /** The decision on a text that starts with a decimal number is the decision on that number. */
  lemma DecideOnLeadingNumber(waitingAmount: bool, editing: Option<string>, text: string, d: string, rest: string)
    requires text == d + rest && d != [] && AllDigits(d)
    requires rest == [] || (!IsDigit(rest[0]) && rest[0] != 'x' && rest[0] != 'X')
    ensures ParseInt(text) == Some(Value(d, 10))
    ensures (waitingAmount ==>
      Decide(waitingAmount, editing, text)
        == (if Value(d, 10) >= MinDeposit then DepositAmount(Value(d, 10)) else DepositRefused))
  {
    ParseIntOfDigitPrefix(d, rest);
  }

  /** An amount in words is NaN, and refused. */
  lemma {:induction false} WordsRefused()
    ensures Decide(true, None, "sepuluh ribu") == DepositRefused
  {
    TrimStartOfUnpadded("sepuluh ribu");
  }

  /** Zero is not a quantity. */
  lemma {:induction false} ZeroQuantityRefused(productId: string)
    ensures Decide(false, Some(productId), "0") == QtyRefused
  {
    ParseIntOfDigitPrefix("0", []);
    assert "0" + [] == "0";
    assert "0"[..0] == [];
  }

  /** A quantity typed while a deposit is pending is read as an amount. */
  lemma {:induction false} QuantityTakenAsAmount(productId: string)
    ensures Decide(true, Some(productId), "3") == DepositRefused
  {
    ParseIntOfDigitPrefix("3", []);
    assert "3" + [] == "3";
    assert "3"[..0] == [];
  }

  /** While a deposit is pending, a quantity edit plays no part in the decision. */
  lemma DepositServedFirst(editing: Option<string>, text: string)
    ensures Decide(true, editing, text) == Decide(true, None, text)
  {
  }

  // ---------------------------------------------------------------- the state

  /** The text handler's reply. */
  datatype TextReply =
    | AmountError
    | DepositRequest(reply: DepositReply)
    | QtyError
    | ProductScreen(productId: string, qty: int, keyboard: seq<seq<Button>>)
    | Next

  /** `depositState` (users waiting to type an amount) and `editQtyState` (user to product id). */
  class Sessions {
    var depositWaiting: set<UserId>
    var editQty: map<UserId, string>

    constructor ()
      ensures depositWaiting == {} && editQty == map[]
    {
      depositWaiting := {};
      editQty := map[];
    }

    function Editing(user: UserId): (r: Option<string>)
      reads this
      ensures r.Some? <==> user in editQty
      ensures r.Some? ==> r.value == editQty[user]
    {
      if user in editQty then Some(editQty[user]) else None
    }

    /** ✏️ (`qty_edit_{id}_{qty}`): the user is now editing that product's quantity. */
    method BeginQtyEdit(user: UserId, productId: string)
      modifies this
      ensures editQty == old(editQty)[user := productId]
      ensures depositWaiting == old(depositWaiting)
    {
      editQty := editQty[user := productId];
    }

    /** "💳 Deposit Saldo": the user is now waiting to type an amount. */
    method BeginDeposit(user: UserId)
      modifies this
      ensures depositWaiting == old(depositWaiting) + {user}
      ensures editQty == old(editQty)
    {
      depositWaiting := depositWaiting + {user};
    }

    /**
     * "🔙 Kembali ke Menu": the deposit state is dropped (a quantity edit is kept) and the
     * home menu drawn, which is only sent when there are categories.
     */
    method BackToMenu(user: UserId, cats: seq<Category>) returns (kb: Option<seq<seq<Button>>>)
      modifies this
      ensures depositWaiting == old(depositWaiting) - {user}
      ensures editQty == old(editQty)
      ensures kb == HomeKeyboard(cats)
    {
      depositWaiting := depositWaiting - {user};
      kb := HomeButtons(cats);
    }

    /**
     * The text handler. A refused amount or quantity leaves both states as they were; an
     * accepted amount drops the deposit state before the payment request is made; an
     * accepted quantity drops the edit state and shows the product with that quantity.
     * The QR outcome and unique code of a deposit are inputs.
     */
    method HandleText(user: UserId, text: string, registry: PendingPayments, depositId: string, code: UniqueCode,
                      qrCode: Option<string>, decode: string -> string, photoSent: bool)
      returns (reply: TextReply)
      modifies this, registry
      ensures (var step := Decide(user in old(depositWaiting), if user in old(editQty) then Some(old(editQty)[user]) else None, text);
        match step
        case DepositAmount(amount) =>
          var rec := DepositRecord(user, amount, code, GenerateQris(qrCode, decode), photoSent);
          && depositWaiting == old(depositWaiting) - {user} && editQty == old(editQty)
          && registry.pending == (if rec.Some? then old(registry.pending)[depositId := rec.value] else old(registry.pending))
          && reply == DepositRequest(if rec.Some? then DepositQr(amount, code, amount + code) else DepositQrFailed)
        case QtyEntered(productId, qty) =>
          && editQty == old(editQty) - {user} && depositWaiting == old(depositWaiting)
          && registry.pending == old(registry.pending)
          && reply == ProductScreen(productId, qty, ProductKeyboard(productId, qty))
        case _ =>
          && depositWaiting == old(depositWaiting) && editQty == old(editQty)
          && registry.pending == old(registry.pending)
          && reply == (if step.DepositRefused? then AmountError else if step.QtyRefused? then QtyError else Next))
    {
      ghost var step := Decide(user in depositWaiting, Editing(user), text);
      if user in depositWaiting {
        DepositServedFirst(Editing(user), text);
        assert step == Decide(true, None, text);
        reply := TakeAmount(user, text, registry, depositId, code, qrCode, decode, photoSent);
        return;
      }
      if user in editQty {
        assert step == Decide(false, Some(editQty[user]), text);
        reply := TakeQuantity(user, text);
        return;
      }
      assert step == PassOn;
      return Next;
    }

    /** The deposit branch of the text handler. */
    method TakeAmount(user: UserId, text: string, registry: PendingPayments, depositId: string, code: UniqueCode,
                      qrCode: Option<string>, decode: string -> string, photoSent: bool)
      returns (reply: TextReply)
      requires user in depositWaiting
      modifies this, registry
      ensures (match Decide(true, None, text)
        case DepositAmount(amount) =>
          var rec := DepositRecord(user, amount, code, GenerateQris(qrCode, decode), photoSent);
          && depositWaiting == old(depositWaiting) - {user} && editQty == old(editQty)
          && registry.pending == (if rec.Some? then old(registry.pending)[depositId := rec.value] else old(registry.pending))
          && reply == DepositRequest(if rec.Some? then DepositQr(amount, code, amount + code) else DepositQrFailed)
        case _ =>
          && depositWaiting == old(depositWaiting) && editQty == old(editQty)
          && registry.pending == old(registry.pending) && reply == AmountError)
    {
      var amount := ParseInt(text);
      ghost var step := Decide(true, None, text);
      if amount.None? || amount.value < MinDeposit {
        assert step == DepositRefused;
        return AmountError;
      }
      assert step == DepositAmount(amount.value);
      reply := AcceptAmount(user, amount.value, registry, depositId, code, qrCode, decode, photoSent);
    }

    /** An accepted amount: the deposit state is dropped, then the payment request is made. */
    method AcceptAmount(user: UserId, amount: int, registry: PendingPayments, depositId: string, code: UniqueCode,
                        qrCode: Option<string>, decode: string -> string, photoSent: bool)
      returns (reply: TextReply)
      modifies this, registry
      ensures (var rec := DepositRecord(user, amount, code, GenerateQris(qrCode, decode), photoSent);
        && depositWaiting == old(depositWaiting) - {user} && editQty == old(editQty)
        && registry.pending == (if rec.Some? then old(registry.pending)[depositId := rec.value] else old(registry.pending))
        && reply == DepositRequest(if rec.Some? then DepositQr(amount, code, amount + code) else DepositQrFailed))
    {
      depositWaiting := depositWaiting - {user};
      var r := RequestDeposit(registry, depositId, user, amount, code, qrCode, decode, photoSent);
      return DepositRequest(r);
    }

    /** The quantity branch of the text handler. */
    method TakeQuantity(user: UserId, text: string) returns (reply: TextReply)
      requires user !in depositWaiting && user in editQty
      modifies this
      ensures (match Decide(false, Some(old(editQty)[user]), text)
        case QtyEntered(productId, qty) =>
          && editQty == old(editQty) - {user} && depositWaiting == old(depositWaiting)
          && reply == ProductScreen(productId, qty, ProductKeyboard(productId, qty))
        case _ =>
          && depositWaiting == old(depositWaiting) && editQty == old(editQty) && reply == QtyError)
    {
      var productId := editQty[user];
      var qty := ParseInt(text);
      if qty.None? || qty.value < 1 {
        return QtyError;
      }
      editQty := editQty - {user};
      return ProductScreen(productId, qty.value, ProductKeyboard(productId, qty.value));
    }
  }
}
