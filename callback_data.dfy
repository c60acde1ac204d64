/**
 * Inline-keyboard callback data: the strings the product screen puts on its buttons
 * (`{prefix}{productId}_{qty}`), the regular expressions the action handlers are
 * registered with, the first-match dispatch among them, and the quantity stepping the
 * `qty_plus` / `qty_min` handlers perform.
 */
module CallbackData {
  import opened Wrappers
  import opened JsText

  /** An inline button: its caption and its callback data. */
  datatype Button = Button(text: string, data: string)

  /** The buttons that carry a product id and a quantity. */
  datatype ProductAction = ShowProduct | QtyMinus | QtyEdit | QtyPlus | PayBalance | PayQris

  function Prefix(a: ProductAction): string {
    match a
    case ShowProduct => "prod_"
    case QtyMinus => "qty_min_"
    case QtyEdit => "qty_edit_"
    case QtyPlus => "qty_plus_"
    case PayBalance => "pay_saldo_"
    case PayQris => "pay_qris_"
  }

  /** `${prefix}${product.id}_${qty}`. */
  function Encode(a: ProductAction, id: string, qty: nat): string {
    Prefix(a) + id + "_" + NatToString(qty)
  }

  /** What a regular expression `(.+)` can capture: one or more characters, no line terminator. */
  predicate ValidId(id: string) { id != [] && NoLineTerminator(id) }

  // ---------------------------------------------------------------- the handlers' patterns

  /** `^{prefix}(.+)$`. */
  function MatchRest(prefix: string, s: string): (r: Option<string>)
    ensures r.Some? ==> s == prefix + r.value && ValidId(r.value)
  {
    if StartsWith(s, prefix) && ValidId(s[|prefix|..]) then
      assert s == s[..|prefix|] + s[|prefix|..];
      Some(s[|prefix|..])
    else None
  }

  /** `^{prefix}(\d+)$`. */
  function MatchDigits(prefix: string, s: string): (r: Option<string>)
    ensures r.Some? ==> s == prefix + r.value && IsDigitsNoSep(r.value)
  {
    if StartsWith(s, prefix) && IsDigitsNoSep(s[|prefix|..]) then
      assert s == s[..|prefix|] + s[|prefix|..];
      Some(s[|prefix|..])
    else None
  }

  /**
   * `^{prefix}(.+)_(\d+)$`. The greedy `(.+)` ends at the last `_`, since the digits
   * after the separator contain none.
   */
  function MatchIdQty(prefix: string, s: string): (r: Option<(string, string)>)
    ensures r.Some? ==> (s == prefix + r.value.0 + "_" + r.value.1
      && ValidId(r.value.0) && IsDigitsNoSep(r.value.1))
  {
    if !StartsWith(s, prefix) then None
    else
      var rest := s[|prefix|..];
      match LastIndexOf(rest, '_')
      case None => None
      case Some(k) =>
        if ValidId(rest[..k]) && IsDigitsNoSep(rest[k + 1..]) then
          Rejoin(prefix, s, k);
          Some((rest[..k], rest[k + 1..]))
        else None
  }

  /** A text that starts with `prefix` and has a `_` at `k` after it is made of those parts. */
  lemma Rejoin(prefix: string, s: string, k: nat)
    requires StartsWith(s, prefix) && k < |s| - |prefix| && s[|prefix|..][k] == '_'
    ensures (var rest := s[|prefix|..]; s == prefix + rest[..k] + "_" + rest[k + 1..])
  {
    var rest := s[|prefix|..];
    assert rest == rest[..k] + "_" + rest[k + 1..];
    assert s == s[..|prefix|] + rest;
  }

  /** `^qty_(?!min_|plus_|edit_)(.+)_(\d+)$`. */
  predicate MatchOtherQty(s: string) {
    StartsWith(s, "qty_")
    && !StartsWith(s[4..], "min_") && !StartsWith(s[4..], "plus_") && !StartsWith(s[4..], "edit_")
    && MatchIdQty("qty_", s).Some?
  }

  lemma StartsWithConcat(p: string, rest: string)
    ensures StartsWith(p + rest, p) && (p + rest)[|p|..] == rest
  {
    assert (p + rest)[..|p|] == p;
  }

  lemma LastIndexOfSeparator(a: string, b: string)
    requires '_' !in b
    ensures LastIndexOf(a + "_" + b, '_') == Some(|a|)
  {
    var s := a + "_" + b;
    assert s[|a|] == '_';
  }

  /** `(.+)` and `(\d+)` recover the id and the digits of every `{prefix}{id}_{digits}`. */
  lemma {:induction false} MatchIdQtyOf(prefix: string, id: string, d: string)
    requires ValidId(id) && IsDigitsNoSep(d)
    ensures MatchIdQty(prefix, prefix + id + "_" + d) == Some((id, d))
  {
    var s := prefix + id + "_" + d;
    assert s == prefix + (id + "_" + d);
    StartsWithConcat(prefix, id + "_" + d);
    SplitAtSeparator(id, d);
  }

  /** The last `_` of `{id}_{digits}` is the one before the digits. */
  lemma SplitAtSeparator(id: string, d: string)
    requires IsDigitsNoSep(d)
    ensures (var rest := id + "_" + d;
      LastIndexOf(rest, '_') == Some(|id|) && rest[..|id|] == id && rest[|id| + 1..] == d)
  {
    var rest := id + "_" + d;
    assert '_' !in d by {
      forall k | 0 <= k < |d| ensures d[k] != '_' { assert IsDigit(d[k]); }
    }
    LastIndexOfSeparator(id, d);
    assert rest[..|id|] == id;
    assert rest[|id| + 1..] == d;
  }

  lemma {:induction false} MatchRestOf(prefix: string, rest: string)
    requires ValidId(rest)
    ensures MatchRest(prefix, prefix + rest) == Some(rest)
  {
    StartsWithConcat(prefix, rest);
  }

  lemma {:induction false} MatchDigitsOf(prefix: string, d: string)
    requires IsDigitsNoSep(d)
    ensures MatchDigits(prefix, prefix + d) == Some(d)
  {
    StartsWithConcat(prefix, d);
  }

  // ---------------------------------------------------------------- dispatch

  /** The action handler a callback reaches. */
  datatype Handler =
    | OpenCategory(arg: string)
    | ForProduct(action: ProductAction, id: string, qty: nat)
    | OpenProduct(id: string)
    | OtherQty
    | CategoryBack(arg: string)
    | BackHome
    | GoToPage(page: nat)
    | PageInfo
    | NoHandler

  function ProductHandler(a: ProductAction, m: (string, string)): Handler {
    ForProduct(a, m.0, Value(m.1, 10))
  }

  /**
   * The handler a callback reaches: the action patterns in the order they are
   * registered, the first match winning. The `(\d+)` quantity is read with parseInt,
   * which on a digit string is its decimal value (ParseIntOfDigitPrefix).
   */
  function Route(data: string): Handler {
    if MatchRest("cat_", data).Some? then OpenCategory(MatchRest("cat_", data).value)
    else if MatchIdQty("prod_", data).Some? then ProductHandler(ShowProduct, MatchIdQty("prod_", data).value)
    else if MatchRest("prod_", data).Some? then OpenProduct(MatchRest("prod_", data).value)
    else if MatchIdQty("qty_plus_", data).Some? then ProductHandler(QtyPlus, MatchIdQty("qty_plus_", data).value)
    else if MatchIdQty("qty_min_", data).Some? then ProductHandler(QtyMinus, MatchIdQty("qty_min_", data).value)
    else if MatchIdQty("qty_edit_", data).Some? then ProductHandler(QtyEdit, MatchIdQty("qty_edit_", data).value)
    else if MatchOtherQty(data) then OtherQty
    else if MatchRest("cat_back_", data).Some? then CategoryBack(MatchRest("cat_back_", data).value)
    else if data == "back_home" then BackHome
    else if MatchDigits("page_", data).Some? then GoToPage(Value(MatchDigits("page_", data).value, 10))
    else if data == "page_info" then PageInfo
    else if MatchIdQty("pay_saldo_", data).Some? then ProductHandler(PayBalance, MatchIdQty("pay_saldo_", data).value)
    else if MatchIdQty("pay_qris_", data).Some? then ProductHandler(PayQris, MatchIdQty("pay_qris_", data).value)
    else NoHandler
  }

  /** A string that differs from a pattern's literal prefix somewhere matches no form of it. */
  lemma MismatchAt(s: string, p: string, k: nat)
    requires k < |p| && k < |s| && s[k] != p[k]
    ensures !StartsWith(s, p)
    ensures MatchRest(p, s).None? && MatchDigits(p, s).None? && MatchIdQty(p, s).None?
  {
    if |p| <= |s| { assert s[..|p|][k] == s[k]; }
  }

  lemma EncodeShape(a: ProductAction, id: string, qty: nat)
    requires ValidId(id)
    ensures |Encode(a, id, qty)| > |Prefix(a)| + 1
    ensures forall k :: 0 <= k < |Prefix(a)| ==> Encode(a, id, qty)[k] == Prefix(a)[k]
    ensures MatchIdQty(Prefix(a), Encode(a, id, qty)) == Some((id, NatToString(qty)))
  {
    var d := NatToString(qty);
    assert Encode(a, id, qty) == Prefix(a) + (id + "_" + d);
    MatchIdQtyOf(Prefix(a), id, d);
  }

  /**
   * Every product button reaches its own handler with exactly the id and quantity it was
   * built with, whatever the id holds (underscores included), as long as a regular
   * expression `(.+)` can capture it.
   */
  lemma {:induction false} RouteEncode(a: ProductAction, id: string, qty: nat)
    requires ValidId(id)
    ensures Route(Encode(a, id, qty)) == ForProduct(a, id, qty)
  {
    EncodeShape(a, id, qty);
    match a
    case ShowProduct => RouteShowProduct(id, qty);
    case QtyPlus => RouteQtyPlus(id, qty);
    case QtyMinus => RouteQtyMinus(id, qty);
    case QtyEdit => RouteQtyEdit(id, qty);
    case PayBalance => RoutePayBalance(id, qty);
    case PayQris => RoutePayQris(id, qty);
  }

  lemma RouteShowProduct(id: string, qty: nat)
    requires ValidId(id)
    ensures Route(Encode(ShowProduct, id, qty)) == ForProduct(ShowProduct, id, qty)
  {
    var s := Encode(ShowProduct, id, qty);
    EncodeShape(ShowProduct, id, qty);
    MismatchAt(s, "cat_", 0);
  }

  lemma RouteQtyPlus(id: string, qty: nat)
    requires ValidId(id)
    ensures Route(Encode(QtyPlus, id, qty)) == ForProduct(QtyPlus, id, qty)
  {
    var s := Encode(QtyPlus, id, qty);
    EncodeShape(QtyPlus, id, qty);
    MismatchAt(s, "cat_", 0); MismatchAt(s, "prod_", 0);
  }

  lemma RouteQtyMinus(id: string, qty: nat)
    requires ValidId(id)
    ensures Route(Encode(QtyMinus, id, qty)) == ForProduct(QtyMinus, id, qty)
  {
    var s := Encode(QtyMinus, id, qty);
    EncodeShape(QtyMinus, id, qty);
    MismatchAt(s, "cat_", 0); MismatchAt(s, "prod_", 0); MismatchAt(s, "qty_plus_", 4);
  }

  lemma RouteQtyEdit(id: string, qty: nat)
    requires ValidId(id)
    ensures Route(Encode(QtyEdit, id, qty)) == ForProduct(QtyEdit, id, qty)
  {
    var s := Encode(QtyEdit, id, qty);
    EncodeShape(QtyEdit, id, qty);
    MismatchAt(s, "cat_", 0); MismatchAt(s, "prod_", 0); MismatchAt(s, "qty_plus_", 4);
    MismatchAt(s, "qty_min_", 4);
  }

  lemma RoutePayBalance(id: string, qty: nat)
    requires ValidId(id)
    ensures Route(Encode(PayBalance, id, qty)) == ForProduct(PayBalance, id, qty)
  {
    var s := Encode(PayBalance, id, qty);
    EncodeShape(PayBalance, id, qty);
    PayButtonMisses(s, "pay_saldo_");
  }

  lemma RoutePayQris(id: string, qty: nat)
    requires ValidId(id)
    ensures Route(Encode(PayQris, id, qty)) == ForProduct(PayQris, id, qty)
  {
    var s := Encode(PayQris, id, qty);
    EncodeShape(PayQris, id, qty);
    PayButtonMisses(s, "pay_qris_");
    MismatchAt(s, "pay_saldo_", 4);
  }

  /** A `pay_…` button matches none of the patterns registered before the payment ones. */
  lemma PayButtonMisses(s: string, p: string)
    requires |p| >= 4 && |s| > |p| && p[..4] == "pay_"
    requires forall k :: 0 <= k < |p| ==> s[k] == p[k]
    ensures (MatchRest("cat_", s).None? && MatchIdQty("prod_", s).None? && MatchRest("prod_", s).None?
      && MatchIdQty("qty_plus_", s).None? && MatchIdQty("qty_min_", s).None?
      && MatchIdQty("qty_edit_", s).None? && !MatchOtherQty(s) && MatchRest("cat_back_", s).None?
      && s != "back_home" && MatchDigits("page_", s).None? && s != "page_info")
  {
    assert s[0] == 'p' && s[1] == 'a' && s[2] == 'y' by { assert p[..4][2] == p[2]; }
    MismatchAt(s, "cat_", 0); MismatchAt(s, "prod_", 1); MismatchAt(s, "qty_plus_", 0);
    MismatchAt(s, "qty_min_", 0); MismatchAt(s, "qty_edit_", 0); MismatchAt(s, "qty_", 0);
    MismatchAt(s, "cat_back_", 0); MismatchAt(s, "page_", 2);
    assert "page_info"[2] == 'g';
  }

  /** A `cat_back_…` callback never reaches its handler: `^cat_(.+)$` takes it first. */
  lemma CategoryBackUnreachable(data: string)
    ensures !Route(data).CategoryBack?
  {
    var m := MatchRest("cat_back_", data);
    if m.Some? {
      assert data == "cat_" + ("back_" + m.value);
      MatchRestOf("cat_", "back_" + m.value);
    }
  }

  /** The navigation buttons' data reach the page handler with the page they name. */
  lemma {:induction false} RoutePage(page: nat)
    ensures Route("page_" + NatToString(page)) == GoToPage(page)
  {
    var d := NatToString(page);
    var s := "page_" + d;
    MatchDigitsOf("page_", d);
    StartsWithConcat("page_", d);
    assert s[0] == 'p' && s[1] == 'a' && s[2] == 'g';
    MismatchAt(s, "cat_", 0); MismatchAt(s, "cat_back_", 0); MismatchAt(s, "prod_", 1);
    MismatchAt(s, "qty_plus_", 0); MismatchAt(s, "qty_min_", 0); MismatchAt(s, "qty_edit_", 0);
    MismatchAt(s, "qty_", 0);
    assert s != "back_home";
  }

  /** A category button `cat_{id}` opens the category handler with the id's text. */
  lemma {:induction false} RouteCategory(id: string)
    requires ValidId(id)
    ensures Route("cat_" + id) == OpenCategory(id)
  {
    MatchRestOf("cat_", id);
  }

  // ---------------------------------------------------------------- quantity stepping

  /** `parseInt(qty) + 1` (qty_plus). */
  function QtyUp(qty: nat): (r: nat)
    ensures r > qty
  {
    qty + 1
  }

  /** `Math.max(1, parseInt(qty) - 1)` (qty_min): one less, but never below 1. */
  function QtyDown(qty: nat): (r: nat)
    ensures r >= 1
    ensures qty >= 2 ==> r == qty - 1
    ensures qty <= 1 ==> r == 1
  {
    var m := Max(1, qty - 1);
    m
  }

  /** Stepping down undoes stepping up, and stepping up undoes stepping down above 1. */
  lemma QtyStepsInverse(qty: nat)
    ensures qty >= 1 ==> QtyDown(QtyUp(qty)) == qty
    ensures qty >= 2 ==> QtyUp(QtyDown(qty)) == qty
  {
  }

  /** The (product id, quantity) a handler re-renders the product screen with, if it does. */
  function Rerender(h: Handler): Option<(string, nat)> {
    match h
    case ForProduct(ShowProduct, id, q) => Some((id, q))
    case ForProduct(QtyPlus, id, q) => Some((id, QtyUp(q)))
    case ForProduct(QtyMinus, id, q) => Some((id, QtyDown(q)))
    case OpenProduct(id) => Some((id, 1))
    case _ => None
  }

  /** The product screen's keyboard for a product and a quantity. */
  function ProductKeyboard(id: string, qty: nat): (kb: seq<seq<Button>>)
    ensures |kb| == 3 && |kb[0]| == 3 && |kb[1]| == 2 && |kb[2]| == 1
  {
    [[Button("➖", Encode(QtyMinus, id, qty)), Button("✏️", Encode(QtyEdit, id, qty)), Button("➕", Encode(QtyPlus, id, qty))],
     [Button("💰 Saldo", Encode(PayBalance, id, qty)), Button("📱 QRIS", Encode(PayQris, id, qty))],
     [Button("🔙 Kembali", "back_home")]]
  }

  /**
   * Pressing a button of the product screen: ➖ re-renders with one less but at least 1,
   * ➕ with one more, ✏️ and the two payment buttons reach their handlers with the same
   * id and quantity, and Kembali goes home. So a screen shown with a quantity of at
   * least 1 only ever leads to screens with a quantity of at least 1.
   */
  lemma {:induction false} ProductKeyboardPresses(id: string, qty: nat)
    requires ValidId(id)
    ensures Rerender(Route(ProductKeyboard(id, qty)[0][0].data)) == Some((id, QtyDown(qty)))
    ensures Route(ProductKeyboard(id, qty)[0][1].data) == ForProduct(QtyEdit, id, qty)
    ensures Rerender(Route(ProductKeyboard(id, qty)[0][2].data)) == Some((id, qty + 1))
    ensures Route(ProductKeyboard(id, qty)[1][0].data) == ForProduct(PayBalance, id, qty)
    ensures Route(ProductKeyboard(id, qty)[1][1].data) == ForProduct(PayQris, id, qty)
    ensures Route(ProductKeyboard(id, qty)[2][0].data) == BackHome
  {
    RouteEncode(QtyMinus, id, qty);
    RouteEncode(QtyEdit, id, qty);
    RouteEncode(QtyPlus, id, qty);
    RouteEncode(PayBalance, id, qty);
    RouteEncode(PayQris, id, qty);
    RouteBackHome();
  }

  lemma RouteBackHome()
    ensures Route("back_home") == BackHome
  {
    var home := "back_home";
    MismatchAt(home, "cat_", 0); MismatchAt(home, "prod_", 0); MismatchAt(home, "qty_plus_", 0);
    MismatchAt(home, "qty_min_", 0); MismatchAt(home, "qty_edit_", 0); MismatchAt(home, "qty_", 0);
    MismatchAt(home, "cat_back_", 0);
  }
}
