/**
 * QRIS payment requests: the dynamic QR code for a payable total, the self-check of the
 * amount the code carries, and the pending-payment records that a deposit or a QRIS
 * purchase registers once its code has been sent.
 */
module Qris {
  import opened Wrappers
  import opened JsText
  import opened Products
  import opened Catalog
  import opened Stores

  // ---------------------------------------------------------------- the amount self-check

  /**
   * Where the pattern `/54(\d{2})/` matches: the characters `5`, `4` and two digits. The
   * amount field of the EMVCo merchant-presented QR format has the id "54" followed by a
   * two-digit length, but the check searches the text without reading its fields.
   */
  predicate Tag54At(s: string, k: nat) {
    k + 3 < |s| && s[k] == '5' && s[k + 1] == '4' && IsDigit(s[k + 2]) && IsDigit(s[k + 3])
  }

  /** The leftmost match at or after `from`. */
  function FindTag54From(s: string, from: nat): (r: Option<nat>)
    decreases |s| - from
    ensures r.Some? ==> (from <= r.value && Tag54At(s, r.value)
      && forall k :: from <= k < r.value ==> !Tag54At(s, k))
    ensures r.None? ==> forall k :: from <= k ==> !Tag54At(s, k)
  {
    if from + 3 >= |s| then None
    else if Tag54At(s, from) then Some(from)
    else FindTag54From(s, from + 1)
  }

  /** `qrString.match(/54(\d{2})/)`: the leftmost match, if any. */
  function FindTag54(s: string): Option<nat> {
    FindTag54From(s, 0)
  }

  /**
   * `qrString.indexOf(tag54Match[0])` finds the match itself: an earlier occurrence of the
   * same four characters would have been an earlier match.
   */
  lemma IndexOfFirstMatch(s: string, m: nat)
    requires FindTag54(s) == Some(m)
    ensures IndexOf(s, s[m..m + 4]) == Some(m)
  {
    var pat := s[m..m + 4];
    assert OccursAt(s, pat, m);
    assert pat[0] == '5' && pat[1] == '4' && IsDigit(pat[2]) && IsDigit(pat[3]);
    forall j | 0 <= j < m
      ensures !OccursAt(s, pat, j)
    {
      var w := s[j..j + 4];
      assert w[0] == s[j] && w[1] == s[j + 1] && w[2] == s[j + 2] && w[3] == s[j + 3];
      assert !Tag54At(s, j);
    }
  }

  /** The outcome of the self-check, which only logs. */
  datatype AmountCheck =
    | NoTag                                                   // "Tag 54 not found"
    | Stated(at: nat, length: nat, value: string)             // "Amount in QR: {value}"

  /**
   * The check on the decoded QR text: the two digits after the first `54` give a length,
   * and the text of that length four characters after the match is the stated amount
   * (cut short at the end of the text).
   */
  function CheckAmount(qr: string): (c: AmountCheck)
    ensures c.NoTag? <==> forall k :: !Tag54At(qr, k)
    ensures (c.Stated? ==>
      && Tag54At(qr, c.at) && (forall k :: 0 <= k < c.at ==> !Tag54At(qr, k))
      && c.length == Value(qr[c.at + 2..c.at + 4], 10) < 100
      && c.value == qr[c.at + 4..Min(c.at + 4 + c.length, |qr|)])
  {
    match FindTag54(qr)
    case None => NoTag
    case Some(m) => Stated(m, Value(qr[m + 2..m + 4], 10), StatedValue(qr, m))
  }

  /** The mismatch warning is logged when parseInt of the stated amount is not the amount. */
  predicate MismatchLogged(c: AmountCheck, amount: int) {
    c.Stated? && ParseInt(c.value) != Some(amount)
  }

  /**
   * The warning is logged exactly when the stated text, read as a decimal number, is
   * another amount; a stated text that is the amount's own digits logs nothing.
   */
  lemma {:induction false} MismatchWhenStatedDiffers(c: AmountCheck, stated: nat, amount: int)
    requires c.Stated? && c.value == NatToString(stated)
    ensures MismatchLogged(c, amount) <==> stated != amount
  {
    ParseIntOfNatToString(stated);
  }

  /**
   * A code whose first `54` match is a genuine amount field, `54`, the two-digit length of
   * the amount's digits, then those digits, passes the check: the stated text is the
   * amount's digits and no mismatch is logged. An accidental `54` followed by two digits
   * earlier in the text (inside another field) would be read instead; the check does not
   * parse the fields.
   */
  lemma {:induction false} GenuineAmountFieldPasses(pre: string, len: string, post: string, amount: nat)
    requires |len| == 2 && AllDigits(len) && Value(len, 10) == |NatToString(amount)|
    requires (var qr := pre + "54" + len + NatToString(amount) + post;
      forall k :: 0 <= k < |pre| ==> !Tag54At(qr, k))
    ensures (var qr := pre + "54" + len + NatToString(amount) + post;
      CheckAmount(qr) == Stated(|pre|, |NatToString(amount)|, NatToString(amount))
      && !MismatchLogged(CheckAmount(qr), amount))
  {
    var digits := NatToString(amount);
    var qr := pre + "54" + len + digits + post;
    var m := |pre|;
    assert qr[m] == '5' && qr[m + 1] == '4' && qr[m + 2] == len[0] && qr[m + 3] == len[1];
    assert Tag54At(qr, m);
    assert FindTag54(qr) == Some(m);
    assert qr[m + 2..m + 4] == len;
    assert qr[m + 4..m + 4 + |digits|] == digits;
    ParseIntOfNatToString(amount);
  }

  /** The text `substr` cuts at the position `indexOf` finds. */
  function StatedValue(qr: string, m: nat): (value: string)
    requires FindTag54(qr) == Some(m)
    ensures (var length := Value(qr[m + 2..m + 4], 10);
      length < 100 && value == qr[m + 4..Min(m + 4 + length, |qr|)])
  {
    StatedAmountAt(qr, m);
    var length := Value(qr[m + 2..m + 4], 10);
    var index := IndexOf(qr, qr[m..m + 4]).value;
    Substr(qr, index + 4, length)
  }

  /** The position `indexOf` finds and the text `substr` cuts, for the first match at `m`. */
  lemma StatedAmountAt(qr: string, m: nat)
    requires FindTag54(qr) == Some(m)
    ensures IndexOf(qr, qr[m..m + 4]) == Some(m)
    ensures (var length := Value(qr[m + 2..m + 4], 10);
      length < 100 && Substr(qr, m + 4, length) == qr[m + 4..Min(m + 4 + length, |qr|)])
  {
    IndexOfFirstMatch(qr, m);
    TwoDigitsBelow100(qr[m + 2..m + 4]);
  }

  lemma TwoDigitsBelow100(d: string)
    requires |d| == 2 && AllDigits(d)
    ensures Value(d, 10) < 100
  {
    assert d[..1][..0] == [];
    assert DigitVal(d[0]) <= 9 && DigitVal(d[1]) <= 9;
    assert Value(d[..1], 10) == DigitVal(d[0]);
  }

  // ---------------------------------------------------------------- generating the code

  /** `generateDynamicQRIS`: it throws, or returns the decoded image. */
  datatype QrResult = QrFailed | QrImage(image: string)

  /**
   * The generator's answer is `qrCode` (absent when the response has none); `decode` is
   * the base64 decoding of its data part, after the first comma. With no (or an empty)
   * `qrCode` the function throws; with no comma, `split(',')[1]` is undefined and the
   * decoding throws. Otherwise the image is returned: the amount check on it (CheckAmount)
   * only logs, so its outcome never stops the image from being returned.
   */
  function GenerateQris(qrCode: Option<string>, decode: string -> string): (r: QrResult)
    ensures r.QrFailed? <==> (qrCode.None? || ',' !in qrCode.value)
    ensures r.QrImage? ==> |Split(qrCode.value, ',')| >= 2 && r.image == decode(Split(qrCode.value, ',')[1])
  {
    if qrCode.None? || qrCode.value == [] then QrFailed
    else
      var parts := Split(qrCode.value, ',');
      SplitHasOnePart(qrCode.value, ',');
      if |parts| < 2 then QrFailed
      else QrImage(decode(parts[1]))
  }

  // ---------------------------------------------------------------- pending payments

  /** `Math.floor(Math.random() * 900) + 100`: the code added to make a total recognisable. */
  type UniqueCode = c: int | 100 <= c <= 999 witness 100

  /** A pending payment as registered; the creation time and the message id are left out. */
  datatype Pending =
    | Deposit(userId: UserId, amount: int, uniqueCode: int, total: int)
    | Purchase(userId: UserId, productId: string, productName: string, productCode: string,
               quantity: nat, subtotal: int, uniqueCode: int, total: int)

  /** The payable total: the base amount plus the unique code. */
  function PayableTotal(base: int, code: UniqueCode): (total: int)
    ensures base + 100 <= total <= base + 999
    ensures total - code == base
  {
    base + code
  }

  /** The pending-payment registry: payment id to record. */
  class PendingPayments {
    var pending: map<string, Pending>

    constructor ()
      ensures pending == map[]
    {
      pending := map[];
    }

    /** `addPendingPayment(id, data)`. */
    method Add(id: string, p: Pending)
      modifies this
      ensures pending == old(pending)[id := p]
    {
      pending := pending[id := p];
    }
  }

  // ---------------------------------------------------------------- the deposit request

  /** The reply to a deposit amount that passed the check. */
  datatype DepositReply = DepositQrFailed | DepositQr(amount: int, uniqueCode: int, total: int)

  /**
   * The record a deposit request registers: one holding the base amount, the code and
   * the total, and only when the code was generated and the photo was sent.
   */
  function DepositRecord(userId: UserId, amount: int, code: UniqueCode, qr: QrResult, photoSent: bool): (r: Option<Pending>)
    ensures r.Some? <==> qr.QrImage? && photoSent
    ensures r.Some? ==> (r.value.Deposit? && r.value.userId == userId && r.value.amount == amount
      && r.value.uniqueCode == code && r.value.total == amount + code)
  {
    if qr.QrImage? && photoSent then Some(Deposit(userId, amount, code, PayableTotal(amount, code))) else None
  }

  /**
   * The deposit branch after the amount is accepted: the code for amount plus unique
   * code is generated, the photo is sent, and only then is the record registered; a
   * failure of either step is caught, replied to, and registers nothing.
   */
  method RequestDeposit(registry: PendingPayments, depositId: string, userId: UserId, amount: int, code: UniqueCode,
                        qrCode: Option<string>, decode: string -> string, photoSent: bool)
    returns (reply: DepositReply)
    modifies registry
    ensures (var rec := DepositRecord(userId, amount, code, GenerateQris(qrCode, decode), photoSent);
      && (rec.Some? ==> registry.pending == old(registry.pending)[depositId := rec.value]
                        && reply == DepositQr(amount, code, amount + code))
      && (rec.None? ==> registry.pending == old(registry.pending) && reply == DepositQrFailed))
  {
    var total := PayableTotal(amount, code);
    var qr := GenerateQris(qrCode, decode);
    if qr.QrFailed? || !photoSent {
      return DepositQrFailed;
    }
    registry.Add(depositId, Deposit(userId, amount, code, total));
    reply := DepositQr(amount, code, total);
  }

  // ---------------------------------------------------------------- the QRIS purchase

  /**
   * The replies of `pay_qris_{id}_{qty}`. When the product message was deleted and the
   * photo then failed, the error reply edits the deleted message, that edit throws too,
   * and the user is told nothing (`FailedUnreported`).
   */
  datatype PurchaseReply =
    | NoProduct                                       // nothing is replied
    | OutOfStock(name: string, available: nat, requested: nat)
    | PurchaseQrFailed
    | FailedUnreported
    | PurchaseQr(subtotal: int, uniqueCode: int, total: int)

  /**
   * The record a QRIS purchase registers, if any: none for an unknown product or too
   * little stock; otherwise one holding the subtotal, code and total, and only when the
   * code was generated, the old message deleted and the photo sent. Stock is not reserved.
   */
  function PurchaseRecord(product: Option<Product>, stock: map<string, seq<StockItem>>, userId: UserId, qty: nat,
                          code: UniqueCode, qrCode: Option<string>, decode: string -> string, deleted: bool,
                          photoSent: bool): (r: Option<Pending>)
    ensures r.Some? <==> (product.Some? && Available(stock, product.value) >= qty
      && GenerateQris(qrCode, decode).QrImage? && deleted && photoSent)
    ensures r.Some? ==> (r.value.Purchase? && r.value.userId == userId && r.value.productId == product.value.id
      && r.value.productName == product.value.name && r.value.productCode == product.value.code
      && r.value.quantity == qty && r.value.subtotal == LineTotal(product.value, qty)
      && r.value.uniqueCode == code && r.value.total == r.value.subtotal + code)
  {
    if product.None? || Available(stock, product.value) < qty then None
    else
      var p := product.value;
      var subtotal := LineTotal(p, qty);
      var total := PayableTotal(subtotal, code);
      if GenerateQris(qrCode, decode).QrImage? && deleted && photoSent then
        Some(Purchase(userId, p.id, p.name, p.code, qty, subtotal, code, total))
      else None
  }

  /**
   * `pay_qris`: `findProduct`, the stock check, then the generation, the deletion of the
   * product message and the photo in one `try`; the record is registered last.
   */
  method RequestQrisPurchase(cats: seq<Category>, ps: seq<Product>, store: Store, registry: PendingPayments,
                             paymentId: string, userId: UserId, id: string, qty: nat, code: UniqueCode,
                             qrCode: Option<string>, decode: string -> string, deleted: bool, photoSent: bool)
    returns (reply: PurchaseReply)
    modifies registry
    ensures (var rec := PurchaseRecord(FindIn(cats, ps, id), store.stock, userId, qty, code, qrCode, decode, deleted, photoSent);
      && (rec.Some? ==> registry.pending == old(registry.pending)[paymentId := rec.value]
                        && reply == PurchaseQr(rec.value.subtotal, code, rec.value.total))
      && (rec.None? ==> registry.pending == old(registry.pending) && !reply.PurchaseQr?))
    ensures reply.NoProduct? <==> FindIn(cats, ps, id).None?
    ensures (var product := FindIn(cats, ps, id);
      && (reply.OutOfStock? <==> product.Some? && Available(store.stock, product.value) < qty)
      && (reply.OutOfStock? ==> reply == OutOfStock(product.value.name, Available(store.stock, product.value), qty))
      && (reply.PurchaseQrFailed? <==> (product.Some? && Available(store.stock, product.value) >= qty
            && (GenerateQris(qrCode, decode).QrFailed? || !deleted)))
      && (reply.FailedUnreported? <==> (product.Some? && Available(store.stock, product.value) >= qty
            && GenerateQris(qrCode, decode).QrImage? && deleted && !photoSent)))
  {
    var product := FindProduct(cats, ps, id);
    if product.None? {
      return NoProduct;
    }
    var p := product.value;
    var stockCount := if p.code != [] then store.StockCount(p.code) else 0;
    if stockCount < qty {
      return OutOfStock(p.name, stockCount, qty);
    }
    var subtotal := LineTotal(p, qty);
    var total := PayableTotal(subtotal, code);
    var qr := GenerateQris(qrCode, decode);
    if qr.QrFailed? || !deleted {
      return PurchaseQrFailed;
    }
    if !photoSent {
      return FailedUnreported;
    }
    registry.Add(paymentId, Purchase(userId, p.id, p.name, p.code, qty, subtotal, code, total));
    reply := PurchaseQr(subtotal, code, total);
  }
}
