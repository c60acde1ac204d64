/**
 * The product table: records appended by the admin command, filtered by category name and
 * looked up by stock code, both case-insensitively. The JSON file behind the table is an
 * in-memory sequence here; reading it falls back to an empty table.
 */
module Products {
  import opened Wrappers
  import opened JsText

  /**
   * A product record. `price` is what parseInt made of the admin's text: `None` stands
   * for NaN, which the JSON file then holds as `null`. An empty `code` is a record
   * without a code.
   */
  datatype Product = Product(
    id: string, categoryName: string, code: string, name: string, price: Option<int>, detail: string)

  predicate InCategory(p: Product, categoryName: string) { SameText(p.categoryName, categoryName) }

  /** A truthy code equal to `code` up to letter case. */
  predicate HasCode(p: Product, code: string) { p.code != [] && SameText(p.code, code) }

  /**
   * `product.price * qty`. The table is read back from its JSON file, where a NaN price
   * is `null`, and `null * qty` is 0.
   */
  function LineTotal(p: Product, qty: nat): (total: int)
    ensures p.price.None? ==> total == 0
    ensures p.price.Some? && p.price.value >= 0 ==> 0 <= total && (qty >= 1 ==> p.price.value <= total)
  {
    if p.price.Some? then p.price.value * qty else 0
  }

  /** The records of a category, in stored order (`filter`). */
  function ProductsByCategory(ps: seq<Product>, categoryName: string): (r: seq<Product>)
    ensures |r| <= |ps|
    ensures forall p :: p in r <==> p in ps && InCategory(p, categoryName)
  {
    if ps == [] then []
    else (if InCategory(ps[0], categoryName) then [ps[0]] else []) + ProductsByCategory(ps[1..], categoryName)
  }

  /**
   * Appending a record appends it to the listing of its own category and leaves every
   * listing's earlier part as it was.
   */
  lemma {:induction false} ProductsByCategoryAppend(ps: seq<Product>, p: Product, categoryName: string)
    ensures ProductsByCategory(ps + [p], categoryName)
      == ProductsByCategory(ps, categoryName) + (if InCategory(p, categoryName) then [p] else [])
  {
    if ps == [] {
      assert ps + [p] == [p];
    } else {
      var head := if InCategory(ps[0], categoryName) then [ps[0]] else [];
      var last := if InCategory(p, categoryName) then [p] else [];
      var rest := ProductsByCategory(ps[1..], categoryName);
      assert (ps + [p])[0] == ps[0] && (ps + [p])[1..] == ps[1..] + [p];
      ProductsByCategoryAppend(ps[1..], p, categoryName);
      assert ProductsByCategory(ps + [p], categoryName) == head + (rest + last);
      Assoc(head, rest, last);
    }
  }

  /** The first record that has a code matching `code` (`find`); `None` for `undefined`. */
  function ProductByCode(ps: seq<Product>, code: string): (r: Option<Product>)
    ensures r.Some? ==> r.value in ps && HasCode(r.value, code)
    ensures r.None? <==> forall p :: p in ps ==> !HasCode(p, code)
  {
    if ps == [] then None
    else if HasCode(ps[0], code) then Some(ps[0])
    else
      assert forall p :: p in ps ==> p == ps[0] || p in ps[1..];
      ProductByCode(ps[1..], code)
  }

  /** The record found is the first one with a matching code. */
  lemma {:induction false} ProductByCodeIsFirst(ps: seq<Product>, code: string, i: nat)
    requires i < |ps| && HasCode(ps[i], code)
    requires forall j :: 0 <= j < i ==> !HasCode(ps[j], code)
    ensures ProductByCode(ps, code) == Some(ps[i])
  {
    if i > 0 {
      assert !HasCode(ps[0], code);
      assert ps[1..][i - 1] == ps[i];
      ProductByCodeIsFirst(ps[1..], code, i - 1);
    }
  }

  /**
   * The contents read from the products file: nothing when it cannot be read, is empty or
   * only whitespace, or does not parse; otherwise what it parses to. `parsed` is the
   * outcome of JSON parsing, which is not modelled.
   */
  function ReadProducts(content: Option<string>, parsed: Option<seq<Product>>): (r: seq<Product>)
    ensures content.None? || IsBlank(content.value) || parsed.None? ==> r == []
    ensures content.Some? && !IsBlank(content.value) && parsed.Some? ==> r == parsed.value
  {
    match content
    case None => []
    case Some(data) =>
      TrimEmptyIffBlank(data);
      if data == [] || Trim(data) == [] then []
      else match parsed
        case None => []
        case Some(ps) => ps
  }

  /** The products table. */
  class ProductDb {
    var products: seq<Product>

    /** A freshly initialised file holds an empty table. */
    constructor ()
      ensures products == []
    {
      products := [];
    }

    /** The table as read from a file. */
    constructor Load(content: Option<string>, parsed: Option<seq<Product>>)
      ensures products == ReadProducts(content, parsed)
    {
      products := ReadProducts(content, parsed);
    }

    /**
     * Appends one record and returns it. The price is stored as parseInt of its text;
     * `id` is the identifier the source draws from the clock and a random number.
     */
    method AddProduct(id: string, categoryName: string, code: string, name: string, price: string, detail: string)
      returns (p: Product)
      modifies this
      ensures p == Product(id, categoryName, code, name, ParseInt(price), detail)
      ensures products == old(products) + [p]
    {
      p := Product(id, categoryName, code, name, ParseInt(price), detail);
      products := products + [p];
    }

    /** The whole stored list. */
    function AllProducts(): (r: seq<Product>)
      reads this
      ensures r == products
    {
      products
    }
  }
}
