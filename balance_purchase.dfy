/**
 * `pay_saldo_{id}_{qty}`: buying a product with the account balance. The checks run in a
 * fixed order (the product exists, enough stock, a user record with enough balance, the
 * stock is handed out) and only when all of them pass is the balance debited.
 */
module BalancePurchase {
  import opened Wrappers
  import opened Products
  import opened Catalog
  import opened Stores

  /** The handler's outcomes. */
  datatype Reply =
    | Silent                                        // no product with that id: no reply at all
    | OutOfStock(name: string, available: nat, requested: nat)
    | LowBalance(shown: int, total: int)            // the balance is shown as 0 without a user record
    | StockFailed
    | Purchased(name: string, qty: nat, total: int, remaining: int, items: seq<StockItem>)

  /** The two stores' contents. */
  datatype State = State(stock: map<string, seq<StockItem>>, balances: map<UserId, int>)

  /**
   * The decision and the stores afterwards. The stock check comes first, then the user
   * record and balance, then `useStock`; the balance moves, by exactly the total, only
   * on a purchase, and the remaining balance reported is what is left after the debit.
   */
  function Checkout(product: Option<Product>, s: State, user: UserId, qty: nat): (r: (Reply, State))
    ensures r.0.Silent? <==> product.None?
    ensures !r.0.Purchased? ==> r.1 == s
    ensures product.Some? && Available(s.stock, product.value) < qty
      ==> r.0 == OutOfStock(product.value.name, Available(s.stock, product.value), qty)
    ensures r.0.LowBalance? <==> (product.Some? && Available(s.stock, product.value) >= qty
      && (user !in s.balances || s.balances[user] < LineTotal(product.value, qty)))
    ensures r.0.Purchased? <==> (product.Some? && Available(s.stock, product.value) >= qty
      && user in s.balances && s.balances[user] >= LineTotal(product.value, qty)
      && product.value.code in s.stock && qty <= |s.stock[product.value.code]|)
    ensures r.0.StockFailed? <==> (product.Some? && Available(s.stock, product.value) >= qty
      && user in s.balances && s.balances[user] >= LineTotal(product.value, qty)
      && !(product.value.code in s.stock && qty <= |s.stock[product.value.code]|))
    ensures (r.0.Purchased? ==>
      var code := product.value.code;
      && r.0.total == LineTotal(product.value, qty)
      && r.1.balances == s.balances[user := s.balances[user] - r.0.total]
      && r.0.remaining == r.1.balances[user] >= 0
      && |r.0.items| == qty == r.0.qty
      && r.1.stock == s.stock[code := s.stock[code][qty..]]
      && s.stock[code] == r.0.items + r.1.stock[code])
    ensures r.0.Purchased? && product.value.price.None? ==> r.0.total == 0 && r.1.balances == s.balances
  {
    if product.None? then (Silent, s)
    else
      var p := product.value;
      var count := Available(s.stock, p);
      if count < qty then (OutOfStock(p.name, count, qty), s)
      else
        var total := LineTotal(p, qty);
        if user !in s.balances || s.balances[user] < total then
          (LowBalance(if user in s.balances then s.balances[user] else 0, total), s)
        else if !(p.code in s.stock && qty <= |s.stock[p.code]|) then (StockFailed, s)
        else
          var items := s.stock[p.code];
          assert items == items[..qty] + items[qty..];
          var balance := s.balances[user];
          (Purchased(p.name, qty, total, balance - total, items[..qty]),
           State(s.stock[p.code := items[qty..]], s.balances[user := balance - total]))
  }

  /**
   * The handler: `findProduct`; nothing happens for an unknown product, otherwise the
   * checks run on the product found.
   */
  method PayWithBalance(cats: seq<Category>, ps: seq<Product>, store: Store, user: UserId, id: string, qty: nat)
    returns (reply: Reply)
    modifies store
    ensures ((reply, State(store.stock, store.balances))
      == Checkout(FindIn(cats, ps, id), State(old(store.stock), old(store.balances)), user, qty))
  {
    var product := FindProduct(cats, ps, id);
    if product.None? {
      return Silent;
    }
    reply := Settle(product.value, store, user, qty);
  }

  /**
   * The checks in order against the stores, each failing one replying and returning at
   * once, then `useStock`, then the debit.
   */
  method Settle(p: Product, store: Store, user: UserId, qty: nat) returns (reply: Reply)
    modifies store
    ensures ((reply, State(store.stock, store.balances))
      == Checkout(Some(p), State(old(store.stock), old(store.balances)), user, qty))
  {
    var stockCount := if p.code != [] then store.StockCount(p.code) else 0;
    if stockCount < qty {
      return OutOfStock(p.name, stockCount, qty);
    }
    var balance := store.Balance(user);
    var total := LineTotal(p, qty);
    if balance.None? || balance.value < total {
      return LowBalance(if balance.Some? then balance.value else 0, total);
    }
    var taken := store.UseStock(p.code, qty);
    if taken.None? {
      return StockFailed;
    }
    store.UpdateBalance(user, -total);
    reply := Purchased(p.name, qty, total, balance.value - total, taken.value);
  }
}
