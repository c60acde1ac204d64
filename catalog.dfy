/**
 * Categories and the product lookup the callback handlers share: a product is searched for
 * category by category, in the order the categories are stored.
 */
module Catalog {
  import opened Wrappers
  import opened Products

  /** A category record; its numeric id is what `cat_` buttons carry. */
  datatype Category = Category(id: nat, name: string)

  /** The first category with the given id (`categories.find(cat => cat.id === id)`). */
  function CategoryById(cats: seq<Category>, id: int): (r: Option<Category>)
    ensures r.Some? ==> r.value in cats && r.value.id == id
    ensures r.None? <==> forall c :: c in cats ==> c.id != id
  {
    if cats == [] then None
    else if cats[0].id == id then Some(cats[0])
    else CategoryById(cats[1..], id)
  }

  /** The first record with the given id (`products.find(p => p.id === id)`). */
  function ProductById(ps: seq<Product>, id: string): (r: Option<Product>)
    ensures r.Some? ==> r.value in ps && r.value.id == id
    ensures r.None? <==> forall p :: p in ps ==> p.id != id
  {
    if ps == [] then None
    else if ps[0].id == id then Some(ps[0])
    else ProductById(ps[1..], id)
  }

  /** The category returned is the first with the id: none before it has that id. */
  lemma {:induction false} CategoryByIdIsFirst(cats: seq<Category>, id: int, i: nat)
    requires i < |cats| && cats[i].id == id
    requires forall j :: 0 <= j < i ==> cats[j].id != id
    ensures CategoryById(cats, id) == Some(cats[i])
  {
    if i > 0 {
      assert cats[0].id != id;
      assert forall j :: 0 <= j < i - 1 ==> cats[1..][j] == cats[j + 1];
      CategoryByIdIsFirst(cats[1..], id, i - 1);
    }
  }

  /** The record returned is the first with the id: none stored before it has that id. */
  lemma {:induction false} ProductByIdIsFirst(ps: seq<Product>, id: string, i: nat)
    requires i < |ps| && ps[i].id == id
    requires forall j :: 0 <= j < i ==> ps[j].id != id
    ensures ProductById(ps, id) == Some(ps[i])
  {
    if i > 0 {
      assert ps[0].id != id;
      assert forall j :: 0 <= j < i - 1 ==> ps[1..][j] == ps[j + 1];
      ProductByIdIsFirst(ps[1..], id, i - 1);
    }
  }

  /**
   * Searching one category's listing finds the first record of that category, in table
   * order, with the id.
   */
  lemma {:induction false} ListingFindsFirst(ps: seq<Product>, categoryName: string, id: string, k: nat)
    requires k < |ps| && InCategory(ps[k], categoryName) && ps[k].id == id
    requires forall m :: 0 <= m < k && InCategory(ps[m], categoryName) ==> ps[m].id != id
    ensures ProductById(ProductsByCategory(ps, categoryName), id) == Some(ps[k])
  {
    var listing := ProductsByCategory(ps, categoryName);
    var rest := ProductsByCategory(ps[1..], categoryName);
    assert listing == (if InCategory(ps[0], categoryName) then [ps[0]] else []) + rest;
    if k > 0 {
      assert forall m :: 0 <= m < k - 1 ==> ps[1..][m] == ps[m + 1];
      ListingFindsFirst(ps[1..], categoryName, id, k - 1);
      if InCategory(ps[0], categoryName) {
        assert listing[0].id != id && listing[1..] == rest;
      } else {
        assert listing == rest;
      }
    }
  }

  /**
   * `findProduct` returns the first hit in category order: when no product listed in the
   * categories before `cats[i]` has the id, the result is the first record of `cats[i]`
   * with it.
   */
  lemma {:induction false} FindInIsFirst(cats: seq<Category>, ps: seq<Product>, id: string, i: nat, k: nat)
    requires i < |cats|
    requires forall j, p :: 0 <= j < i && p in ps && InCategory(p, cats[j].name) ==> p.id != id
    requires k < |ps| && InCategory(ps[k], cats[i].name) && ps[k].id == id
    requires forall m :: 0 <= m < k && InCategory(ps[m], cats[i].name) ==> ps[m].id != id
    ensures FindIn(cats, ps, id) == Some(ps[k])
  {
    if i == 0 {
      ListingFindsFirst(ps, cats[0].name, id, k);
    } else {
      assert ProductById(ProductsByCategory(ps, cats[0].name), id).None?;
      assert forall j :: 0 <= j < i - 1 ==> cats[1..][j] == cats[j + 1];
      FindInIsFirst(cats[1..], ps, id, i - 1, k);
    }
  }

  /**
   * What `findProduct` returns: the first match in the first category, in stored order,
   * whose listing holds a product with that id.
   */
  function FindIn(cats: seq<Category>, ps: seq<Product>, id: string): (r: Option<Product>)
    ensures r.Some? ==> (r.value in ps && r.value.id == id
      && exists c :: c in cats && InCategory(r.value, c.name))
    ensures r.None? <==> forall p, c :: p in ps && p.id == id && c in cats ==> !InCategory(p, c.name)
  {
    if cats == [] then None
    else match ProductById(ProductsByCategory(ps, cats[0].name), id)
      case Some(p) => Some(p)
      case None => FindIn(cats[1..], ps, id)
  }

  /** When ids are unique, a product is found exactly when one of the categories lists it. */
  lemma FindUniqueProduct(cats: seq<Category>, ps: seq<Product>, p: Product)
    requires p in ps
    requires forall q :: q in ps && q.id == p.id ==> q == p
    ensures FindIn(cats, ps, p.id) == Some(p) <==> exists c :: c in cats && InCategory(p, c.name)
  {
    if exists c :: c in cats && InCategory(p, c.name) {
      assert FindIn(cats, ps, p.id).Some?;
    }
  }

  /**
   * `findProduct`: categories in order, each one's listing searched for the id, the first
   * hit returned at once; `None` for `null`. `ps` is the product table as read.
   */
  method FindProduct(cats: seq<Category>, ps: seq<Product>, id: string) returns (r: Option<Product>)
    ensures r == FindIn(cats, ps, id)
  {
    for i := 0 to |cats|
      invariant FindIn(cats, ps, id) == FindIn(cats[i..], ps, id)
    {
      assert cats[i..][1..] == cats[i + 1..];
      var listing := ProductsByCategory(ps, cats[i].name);
      var product := ProductById(listing, id);
      if product.Some? {
        return product;
      }
    }
    return None;
  }
}
