/**
 * The stock and balance stores as the purchase handlers use them: a stock list per
 * product code, from which `useStock` takes items, and a balance per user that
 * `updateBalance` moves by a signed amount. Only the calls' contracts are modelled.
 */
module Stores {
  import opened Wrappers
  import opened Products

  type UserId = int

  /** One deliverable stock entry; its `detail` is what the buyer receives. */
  datatype StockItem = StockItem(detail: string)

  /** `getStockCount(code)`: the number of stocked items, 0 for an unknown code. */
  function StockOf(stock: map<string, seq<StockItem>>, code: string): (n: nat)
    ensures code in stock ==> n == |stock[code]|
    ensures code !in stock ==> n == 0
  {
    if code in stock then |stock[code]| else 0
  }

  /** `product.code ? getStockCount(product.code) : 0`: nothing for a product without a code. */
  function Available(stock: map<string, seq<StockItem>>, p: Product): (n: nat)
    ensures p.code == [] || p.code !in stock ==> n == 0
    ensures p.code != [] && p.code in stock ==> n == |stock[p.code]|
  {
    if p.code != [] then StockOf(stock, p.code) else 0
  }

  class Store {
    var stock: map<string, seq<StockItem>>
    var balances: map<UserId, int>

    constructor (stock: map<string, seq<StockItem>>, balances: map<UserId, int>)
      ensures this.stock == stock && this.balances == balances
    {
      this.stock := stock;
      this.balances := balances;
    }

    /** `getStockCount(code)`. */
    function StockCount(code: string): (n: nat)
      reads this
      ensures n == StockOf(stock, code)
    {
      StockOf(stock, code)
    }

    /** `getUser(userId)`: the user's balance, `None` for a user with no record. */
    function Balance(user: UserId): (r: Option<int>)
      reads this
      ensures r.Some? <==> user in balances
      ensures r.Some? ==> r.value == balances[user]
    {
      if user in balances then Some(balances[user]) else None
    }

    /**
     * `useStock(code, qty)`: the first `qty` items are handed out and removed from the
     * list; when the code holds fewer, nothing is taken and the result is falsy.
     */
    method UseStock(code: string, qty: nat) returns (taken: Option<seq<StockItem>>)
      modifies this
      ensures taken.Some? <==> code in old(stock) && qty <= |old(stock)[code]|
      ensures taken.Some? ==> (|taken.value| == qty && stock == old(stock)[code := old(stock)[code][qty..]]
        && old(stock)[code] == taken.value + stock[code])
      ensures taken.None? ==> stock == old(stock)
      ensures balances == old(balances)
    {
      if code in stock && qty <= |stock[code]| {
        var items := stock[code];
        taken := Some(items[..qty]);
        stock := stock[code := items[qty..]];
        assert items == items[..qty] + items[qty..];
      } else {
        taken := None;
      }
    }

    /** `updateBalance(userId, delta)` on an existing user: the balance moves by `delta`. */
    method UpdateBalance(user: UserId, delta: int)
      requires user in balances
      modifies this
      ensures balances == old(balances)[user := old(balances)[user] + delta]
      ensures stock == old(stock)
    {
      balances := balances[user := balances[user] + delta];
    }
  }
}
