/**
 * The inline keyboards of the category menu and of a category's product list: buttons
 * numbered across pages and laid out two per row, and the page navigation row. The
 * unused `buildCategoryButtons` helper and the copies of its logic inlined in the
 * `back_home`, `🔙 Kembali ke Menu` and `page_` handlers are all modelled here.
 */
module CategoryMenu {
  import opened Wrappers
  import opened JsText
  import opened CallbackData
  import opened Products
  import opened Catalog

  /** The page size every handler uses. */
  const PerPage: nat := 5

  /** `array.slice(start, end)` for non-negative bounds: clamped to the array. */
  function Slice<T>(s: seq<T>, start: nat, end: nat): (r: seq<T>)
    ensures |r| == if start < end && start < |s| then Min(end, |s|) - start else 0
    ensures forall k :: 0 <= k < |r| ==> r[k] == s[start + k]
  {
    if start >= |s| || end <= start then []
    else if end >= |s| then s[start..]
    else s[start..end]
  }

  /** `Math.ceil(n / per)`. */
  function TotalPages(n: nat, per: nat): nat
    requires per > 0
  {
    (n + per - 1) / per
  }

  /** The page count is the least number of pages of `per` that hold `n` items. */
  lemma TotalPagesIsCeiling(n: nat, per: nat)
    requires per > 0
    ensures n == 0 <==> TotalPages(n, per) == 0
    ensures TotalPages(n, per) * per >= n
    ensures TotalPages(n, per) == 0 || (TotalPages(n, per) - 1) * per < n
  {
    var t := TotalPages(n, per);
    assert n + per - 1 == t * per + (n + per - 1) % per;
  }

  /** Concatenation of rows, the order a reader goes through the buttons. */
  function Flatten(rows: seq<seq<Button>>): seq<Button> {
    if rows == [] then [] else rows[0] + Flatten(rows[1..])
  }

  /** Buttons laid out two per row, the last row holding one when their number is odd. */
  function PairedRows(bs: seq<Button>): (rows: seq<seq<Button>>)
    ensures |rows| == (|bs| + 1) / 2
    decreases |bs|
  {
    if bs == [] then []
    else if |bs| <= 2 then [bs]
    else [bs[..2]] + PairedRows(bs[2..])
  }

  /** Every row holds two buttons except possibly the last, which holds one or two. */
  lemma {:induction false} PairedRowsShape(bs: seq<Button>)
    ensures forall r :: 0 <= r < |PairedRows(bs)| ==> 1 <= |PairedRows(bs)[r]| <= 2
    ensures forall r :: 0 <= r < |PairedRows(bs)| - 1 ==> |PairedRows(bs)[r]| == 2
    decreases |bs|
  {
    if |bs| > 2 {
      PairedRowsShape(bs[2..]);
      var rows := PairedRows(bs);
      assert forall r :: 1 <= r < |rows| ==> rows[r] == PairedRows(bs[2..])[r - 1];
    }
  }

  /** Read row by row, the paired rows are the buttons in their original order. */
  lemma {:induction false} FlattenPairedRows(bs: seq<Button>)
    ensures Flatten(PairedRows(bs)) == bs
    decreases |bs|
  {
    if bs == [] {
    } else if |bs| <= 2 {
      assert Flatten([bs]) == bs + Flatten([]);
    } else {
      var rest := PairedRows(bs[2..]);
      FlattenPairedRows(bs[2..]);
      assert ([bs[..2]] + rest)[1..] == rest;
      assert bs[..2] + bs[2..] == bs;
    }
  }

  lemma PairedRowsFrom(bs: seq<Button>, i: nat)
    requires i + 2 < |bs|
    ensures PairedRows(bs[i..]) == [bs[i..i + 2]] + PairedRows(bs[i + 2..])
  {
    assert bs[i..][2..] == bs[i + 2..];
    assert bs[i..][..2] == bs[i..i + 2];
  }

  /** A turn of the pairing loop that leaves more than two buttons to pair. */
  lemma PairedRowsStep(rows: seq<seq<Button>>, bs: seq<Button>, i: nat, row: seq<Button>)
    requires i + 2 < |bs| && rows + PairedRows(bs[i..]) == PairedRows(bs)
    requires row == bs[i..i + 2]
    ensures (rows + [row]) + PairedRows(bs[i + 2..]) == PairedRows(bs)
  {
    PairedRowsFrom(bs, i);
    var rest := PairedRows(bs[i + 2..]);
    assert (rows + [row]) + rest == rows + ([row] + rest);
  }

  /** The last turn of the pairing loop. */
  lemma PairedRowsLastStep(rows: seq<seq<Button>>, bs: seq<Button>, i: nat, row: seq<Button>)
    requires i < |bs| <= i + 2 && rows + PairedRows(bs[i..]) == PairedRows(bs)
    requires row == bs[i..]
    ensures rows + [row] == PairedRows(bs)
  {
    assert PairedRows(bs[i..]) == [row];
  }

  /** One turn of a pairing loop, which takes the buttons at `i` and (if there is one) `i + 1`. */
  lemma PairingStep(rows: seq<seq<Button>>, bs: seq<Button>, i: nat, row: seq<Button>)
    requires i < |bs| && rows + PairedRows(bs[i..]) == PairedRows(bs)
    requires row == [bs[i]] + (if i + 1 < |bs| then [bs[i + 1]] else [])
    ensures i + 2 < |bs| ==> (rows + [row]) + PairedRows(bs[i + 2..]) == PairedRows(bs)
    ensures i + 2 >= |bs| ==> rows + [row] == PairedRows(bs)
  {
    if i + 2 < |bs| {
      assert row == bs[i..i + 2] by { SliceOfTwo(bs, i, i + 2); }
      PairedRowsStep(rows, bs, i, row);
    } else {
      assert row == bs[i..] by { SliceOfTwo(bs, i, |bs|); }
      PairedRowsLastStep(rows, bs, i, row);
    }
  }

  /** A slice of one or two elements. */
  lemma SliceOfTwo<T>(s: seq<T>, i: nat, j: nat)
    requires i < j <= |s| && j <= i + 2
    ensures s[i..j] == [s[i]] + (if i + 1 < j then [s[i + 1]] else [])
  {
  }

  // ---------------------------------------------------------------- category buttons

  /** The button of a category at global position `index`: labelled `index + 1`. */
  function CategoryButton(c: Category, index: nat): Button {
    Button(NatToString(index + 1), "cat_" + NatToString(c.id))
  }

  /** The buttons of a page's categories, numbered from `start + 1`. */
  function CategoryButtons(pageCats: seq<Category>, start: nat): (bs: seq<Button>)
    ensures |bs| == |pageCats|
    ensures forall k :: 0 <= k < |bs| ==> bs[k] == CategoryButton(pageCats[k], start + k)
  {
    seq(|pageCats|, k requires 0 <= k < |pageCats| => CategoryButton(pageCats[k], start + k))
  }

  /**
   * The loop that puts a page's categories two to a row, shared verbatim by every
   * menu handler.
   */
  method CategoryRows(pageCats: seq<Category>, start: nat) returns (rows: seq<seq<Button>>)
    ensures rows == PairedRows(CategoryButtons(pageCats, start))
  {
    ghost var bs := CategoryButtons(pageCats, start);
    rows := [];
    var i := 0;
    while i < |pageCats|
      invariant 0 <= i <= |pageCats| + 1
      invariant i < |pageCats| ==> rows + PairedRows(bs[i..]) == PairedRows(bs)
      invariant i >= |pageCats| ==> rows == PairedRows(bs)
    {
      var globalIndex := start + i;
      var row := [CategoryButton(pageCats[i], globalIndex)];
      if i + 1 < |pageCats| {
        row := row + [CategoryButton(pageCats[i + 1], globalIndex + 1)];
      }
      CategoryRowStep(rows, pageCats, start, i, row);
      rows := rows + [row];
      i := i + 2;
    }
  }

  /** One turn of the category loop keeps its invariant. */
  lemma CategoryRowStep(rows: seq<seq<Button>>, pageCats: seq<Category>, start: nat, i: nat, row: seq<Button>)
    requires i < |pageCats|
    requires (var bs := CategoryButtons(pageCats, start); rows + PairedRows(bs[i..]) == PairedRows(bs))
    requires row == [CategoryButton(pageCats[i], start + i)]
      + (if i + 1 < |pageCats| then [CategoryButton(pageCats[i + 1], start + i + 1)] else [])
    ensures (var bs := CategoryButtons(pageCats, start);
      (i + 2 < |pageCats| ==> (rows + [row]) + PairedRows(bs[i + 2..]) == PairedRows(bs))
      && (i + 2 >= |pageCats| ==> rows + [row] == PairedRows(bs)))
  {
    var bs := CategoryButtons(pageCats, start);
    assert bs[i] == CategoryButton(pageCats[i], start + i);
    if i + 1 < |pageCats| {
      assert bs[i + 1] == CategoryButton(pageCats[i + 1], start + i + 1);
    }
    PairingStep(rows, bs, i, row);
  }

  // ---------------------------------------------------------------- navigation

  function PrevButton(page: nat): Button
    requires page > 0
  {
    Button("◀️ Prev", "page_" + NatToString(page - 1))
  }

  function NextButton(page: nat): Button {
    Button("Next ▶️", "page_" + NatToString(page + 1))
  }

  function InfoButton(page: nat, totalPages: nat): Button {
    Button(NatToString(page + 1) + "/" + NatToString(totalPages), "page_info")
  }

  /** The navigation row of `buildCategoryButtons`: Prev, the page indicator, Next. */
  function NavRow(page: nat, totalPages: nat): (r: seq<Button>)
    ensures 1 <= |r| <= 3
  {
    (if page > 0 then [PrevButton(page)] else [])
    + [InfoButton(page, totalPages)]
    + (if page + 1 < totalPages then [NextButton(page)] else [])
  }

  /** The navigation row inlined in the handlers: Prev and Next only. */
  function InlineNav(page: nat, totalPages: nat): (r: seq<Button>)
    ensures |r| <= 2
  {
    (if page > 0 then [PrevButton(page)] else [])
    + (if page + 1 < totalPages then [NextButton(page)] else [])
  }

  /** A row that is pushed only when it has buttons. */
  function NonEmptyRow(row: seq<Button>): seq<seq<Button>> {
    if row == [] then [] else [row]
  }

  /**
   * The handlers' row is `buildCategoryButtons`' row without the page indicator, which
   * sits between Prev and Next there.
   */
  lemma NavRowHasIndicatorInMiddle(page: nat, totalPages: nat)
    ensures (var k := if page > 0 then 1 else 0;
      NavRow(page, totalPages) == InlineNav(page, totalPages)[..k] + [InfoButton(page, totalPages)]
        + InlineNav(page, totalPages)[k..])
  {
  }

  /**
   * Every navigation button leads to the page next to the current one, the indicator to
   * its dummy handler; so from a page that exists navigation only reaches pages that exist.
   */
  lemma {:induction false} NavigationStaysInRange(page: nat, totalPages: nat)
    ensures page > 0 ==> Route(PrevButton(page).data) == GoToPage(page - 1)
    ensures Route(NextButton(page).data) == GoToPage(page + 1)
    ensures Route(InfoButton(page, totalPages).data) == PageInfo
    ensures forall b :: b in NavRow(page, totalPages) && Route(b.data).GoToPage? ==>
      (Route(b.data).page + 1 == page || Route(b.data).page == page + 1)
      && (page < totalPages ==> Route(b.data).page < totalPages)
  {
    if page > 0 { RoutePage(page - 1); }
    RoutePage(page + 1);
    RoutePageInfo();
  }

  lemma RoutePageInfo()
    ensures Route("page_info") == PageInfo
  {
    PageInfoMissesProductForms("page_info");
    PageInfoMissesOtherForms("page_info");
  }

  lemma PageInfoMissesProductForms(s: string)
    requires s == "page_info"
    ensures MatchIdQty("prod_", s).None? && MatchRest("prod_", s).None?
    ensures MatchIdQty("qty_plus_", s).None? && MatchIdQty("qty_min_", s).None?
    ensures MatchIdQty("qty_edit_", s).None? && !MatchOtherQty(s)
  {
    MismatchAt(s, "prod_", 1);
    MismatchAt(s, "qty_plus_", 0); MismatchAt(s, "qty_min_", 0); MismatchAt(s, "qty_edit_", 0);
    MismatchAt(s, "qty_", 0);
  }

  lemma PageInfoMissesOtherForms(s: string)
    requires s == "page_info"
    ensures MatchRest("cat_", s).None? && MatchRest("cat_back_", s).None?
    ensures s != "back_home" && MatchDigits("page_", s).None?
  {
    MismatchAt(s, "cat_", 0); MismatchAt(s, "cat_back_", 0);
    assert s[0] != "back_home"[0];
    assert !IsDigit(s[5..][0]);
  }

  // ---------------------------------------------------------------- the keyboards

  /** What `buildCategoryButtons(categories, page, maxPerPage)` returns. */
  function CategoryKeyboard(cats: seq<Category>, page: nat, maxPerPage: nat): seq<seq<Button>>
    requires maxPerPage > 0
  {
    KeyboardFrom(cats, page * maxPerPage, maxPerPage, NavRows(cats, page, maxPerPage))
  }

  /** The rows of the page that starts at category `start`, followed by the rows `nav`. */
  function KeyboardFrom(cats: seq<Category>, start: nat, maxPerPage: nat, nav: seq<seq<Button>>): seq<seq<Button>> {
    PairedRows(CategoryButtons(Slice(cats, start, start + maxPerPage), start)) + nav
  }

  /** The navigation row, present only when the categories fill more than one page. */
  function NavRows(cats: seq<Category>, page: nat, maxPerPage: nat): (r: seq<seq<Button>>)
    requires maxPerPage > 0
    ensures |r| <= 1
    ensures r != [] <==> |cats| > maxPerPage
    ensures r != [] ==> r[0] == NavRow(page, TotalPages(|cats|, maxPerPage))
  {
    if |cats| > maxPerPage then [NavRow(page, TotalPages(|cats|, maxPerPage))] else []
  }

  method BuildCategoryButtons(cats: seq<Category>, page: nat, maxPerPage: nat) returns (buttons: seq<seq<Button>>)
    requires maxPerPage > 0
    ensures buttons == CategoryKeyboard(cats, page, maxPerPage)
  {
    var startIndex := page * maxPerPage;
    var rows := PageRows(cats, startIndex, maxPerPage);
    var nav := NavigationRows(cats, page, maxPerPage);
    buttons := rows + nav;
    PageThenNav(cats, startIndex, maxPerPage, rows, nav);
  }

  /** Page rows followed by navigation rows make up the keyboard that starts at `start`. */
  lemma PageThenNav(cats: seq<Category>, start: nat, maxPerPage: nat, rows: seq<seq<Button>>, nav: seq<seq<Button>>)
    requires rows == PairedRows(CategoryButtons(Slice(cats, start, start + maxPerPage), start))
    ensures rows + nav == KeyboardFrom(cats, start, maxPerPage, nav)
  {
  }

  /** The slice of categories of the page that starts at `startIndex`, two to a row. */
  method PageRows(cats: seq<Category>, startIndex: nat, maxPerPage: nat) returns (rows: seq<seq<Button>>)
    ensures rows == PairedRows(CategoryButtons(Slice(cats, startIndex, startIndex + maxPerPage), startIndex))
  {
    rows := CategoryRows(Slice(cats, startIndex, startIndex + maxPerPage), startIndex);
  }

  /** The navigation row when there is more than one page's worth of categories. */
  method NavigationRows(cats: seq<Category>, page: nat, maxPerPage: nat) returns (nav: seq<seq<Button>>)
    requires maxPerPage > 0
    ensures nav == NavRows(cats, page, maxPerPage)
  {
    nav := [];
    if |cats| > maxPerPage {
      var navRow := NavigationRow(page, TotalPages(|cats|, maxPerPage));
      nav := [navRow];
    }
  }

  /** The navigation row pushed button by button. */
  method NavigationRow(page: nat, totalPages: nat) returns (navRow: seq<Button>)
    ensures navRow == NavRow(page, totalPages)
  {
    navRow := [];
    if page > 0 {
      navRow := navRow + [PrevButton(page)];
    }
    navRow := navRow + [InfoButton(page, totalPages)];
    if page + 1 < totalPages {
      navRow := navRow + [NextButton(page)];
    }
  }

  /**
   * The layout of `buildCategoryButtons` for the page that starts at category `start`:
   * rows of one or two buttons that, read in order, are the page's slice of categories
   * numbered from `start + 1`, followed by the navigation rows and nothing else.
   */
  lemma {:induction false} CategoryKeyboardLayout(cats: seq<Category>, start: nat, maxPerPage: nat, nav: seq<seq<Button>>)
    ensures (var pageCats := Slice(cats, start, start + maxPerPage);
      var kb := KeyboardFrom(cats, start, maxPerPage, nav);
      var n := (|pageCats| + 1) / 2;
      |pageCats| <= maxPerPage
      && |kb| == n + |nav|
      && (forall r :: 0 <= r < n ==> 1 <= |kb[r]| <= 2)
      && Flatten(kb[..n]) == CategoryButtons(pageCats, start)
      && kb[n..] == nav)
  {
    RowsThenNavigation(CategoryButtons(Slice(cats, start, start + maxPerPage), start), nav);
  }

  /** Paired rows followed by navigation rows: the rows are recovered by position. */
  lemma RowsThenNavigation(bs: seq<Button>, nav: seq<seq<Button>>)
    ensures (var kb := PairedRows(bs) + nav;
      var n := (|bs| + 1) / 2;
      |kb| == n + |nav|
      && (forall r :: 0 <= r < n ==> 1 <= |kb[r]| <= 2)
      && Flatten(kb[..n]) == bs
      && kb[n..] == nav)
  {
    var rows := PairedRows(bs);
    var kb := rows + nav;
    assert kb[..|rows|] == rows;
    assert kb[|rows|..] == nav;
    PairedRowsShape(bs);
    FlattenPairedRows(bs);
  }

  /** The keyboard of the `page_` handler; `None` when there are no categories. */
  function PageKeyboard(cats: seq<Category>, page: nat): (kb: Option<seq<seq<Button>>>)
    ensures kb.None? <==> cats == []
    ensures kb.Some? ==>
      kb.value == KeyboardFrom(cats, page * PerPage, PerPage, NonEmptyRow(InlineNav(page, TotalPages(|cats|, PerPage))))
  {
    if |cats| == 0 then None
    else
      var start := page * PerPage;
      Some(PairedRows(CategoryButtons(Slice(cats, start, start + PerPage), start))
        + NonEmptyRow(InlineNav(page, TotalPages(|cats|, PerPage))))
  }

  /** The keyboard of `back_home` and `🔙 Kembali ke Menu` (page 0); `None` without categories. */
  function HomeKeyboard(cats: seq<Category>): (kb: Option<seq<seq<Button>>>)
    ensures kb.None? <==> cats == []
    ensures kb.Some? ==> kb.value == KeyboardFrom(cats, 0, PerPage, if |cats| > PerPage then [[NextButton(0)]] else [])
  {
    if |cats| == 0 then None
    else if |cats| > PerPage then
      assert TotalPages(|cats|, PerPage) >= 2;
      assert InlineNav(0, TotalPages(|cats|, PerPage)) == [NextButton(0)];
      Some(PairedRows(CategoryButtons(Slice(cats, 0, PerPage), 0)) + NonEmptyRow(InlineNav(0, TotalPages(|cats|, PerPage))))
    else
      Some(PairedRows(CategoryButtons(Slice(cats, 0, PerPage), 0)))
  }

  method PageButtons(cats: seq<Category>, page: nat) returns (kb: Option<seq<seq<Button>>>)
    ensures kb == PageKeyboard(cats, page)
  {
    if |cats| == 0 {
      return None;
    }
    var startIndex := page * PerPage;
    var pageCategories := Slice(cats, startIndex, startIndex + PerPage);
    var totalPages := TotalPages(|cats|, PerPage);
    var buttons := CategoryRows(pageCategories, startIndex);
    assert buttons == PairedRows(CategoryButtons(Slice(cats, page * PerPage, page * PerPage + PerPage), page * PerPage));
    ghost var rows := buttons;
    var navRow := [];
    if page > 0 {
      navRow := navRow + [PrevButton(page)];
    }
    if page + 1 < totalPages {
      navRow := navRow + [NextButton(page)];
    }
    assert navRow == InlineNav(page, totalPages);
    if |navRow| > 0 {
      buttons := buttons + [navRow];
    } else {
      assert buttons == rows + [];
    }
    return Some(buttons);
  }

  method HomeButtons(cats: seq<Category>) returns (kb: Option<seq<seq<Button>>>)
    ensures kb == HomeKeyboard(cats)
  {
    if |cats| == 0 {
      return None;
    }
    var page := 0;
    var startIndex := 0;
    var pageCategories := Slice(cats, startIndex, startIndex + PerPage);
    var buttons := CategoryRows(pageCategories, startIndex);
    ghost var rows := buttons;
    if |cats| > PerPage {
      // on page 0 the Prev button is never added
      var navRow := [];
      var totalPages := TotalPages(|cats|, PerPage);
      if page + 1 < totalPages {
        navRow := navRow + [NextButton(page)];
      }
      if |navRow| > 0 {
        buttons := buttons + [navRow];
      }
    } else {
      assert buttons == rows + [];
    }
    return Some(buttons);
  }

  /**
   * The home menu is page 0 as the `page_` handler draws it: its extra check that there
   * is more than one page's worth changes nothing, because the Next button only appears
   * then.
   */
  lemma {:induction false} HomeIsFirstPage(cats: seq<Category>)
    ensures HomeKeyboard(cats) == PageKeyboard(cats, 0)
  {
    if 0 < |cats| <= PerPage {
      assert TotalPages(|cats|, PerPage) == 1;
    }
  }

  /**
   * Every category is on page `index / maxPerPage`, which exists, and it is labelled with
   * its position plus one there.
   */
  lemma {:induction false} CategoryPage(cats: seq<Category>, maxPerPage: nat, index: nat)
    requires maxPerPage > 0 && index < |cats|
    ensures (var page := index / maxPerPage;
      var start := page * maxPerPage;
      var pageCats := Slice(cats, start, start + maxPerPage);
      page < TotalPages(|cats|, maxPerPage)
      && start <= index < start + |pageCats|
      && CategoryButtons(pageCats, start)[index - start] == CategoryButton(cats[index], index))
  {
    var page := index / maxPerPage;
    var start := page * maxPerPage;
    assert start <= index < start + maxPerPage;
    var t := TotalPages(|cats|, maxPerPage);
    TotalPagesIsCeiling(|cats|, maxPerPage);
    if page >= t {
      MulMonotone(t, page, maxPerPage);
    }
  }

  /** No other page holds it: a page whose range contains `index` is `index / maxPerPage`. */
  lemma {:induction false} CategoryOnOnePage(maxPerPage: nat, index: nat, page: nat)
    requires maxPerPage > 0
    requires page * maxPerPage <= index < page * maxPerPage + maxPerPage
    ensures page == index / maxPerPage
  {
    var q := index / maxPerPage;
    assert q * maxPerPage <= index < q * maxPerPage + maxPerPage;
    if page < q {
      MulMonotone(page + 1, q, maxPerPage);
    } else if page > q {
      MulMonotone(q + 1, page, maxPerPage);
    }
  }

  lemma MulMonotone(a: nat, b: nat, c: nat)
    requires a <= b
    ensures a * c <= b * c
  {
  }

  // ---------------------------------------------------------------- a category's products

  /** The button of the product at position `index` of its category's listing. */
  function ProductButton(p: Product, index: nat): Button {
    Button(NatToString(index + 1), "prod_" + p.id)
  }

  function ProductButtons(ps: seq<Product>): (bs: seq<Button>)
    ensures |bs| == |ps|
    ensures forall k :: 0 <= k < |bs| ==> bs[k] == ProductButton(ps[k], k)
  {
    seq(|ps|, k requires 0 <= k < |ps| => ProductButton(ps[k], k))
  }

  const BackButton: Button := Button("🔙 Kembali", "back_home")

  /** A category's listing: its products two to a row, numbered from 1, then Kembali. */
  function ProductListKeyboard(ps: seq<Product>): (kb: seq<seq<Button>>)
    ensures |kb| == (|ps| + 1) / 2 + 1 && kb[|kb| - 1] == [BackButton]
    ensures ps == [] ==> kb == [[BackButton]]
  {
    PairedRows(ProductButtons(ps)) + [[BackButton]]
  }

  /** The product-list loop of the category handler. */
  method ProductListButtons(products: seq<Product>) returns (buttons: seq<seq<Button>>)
    ensures buttons == ProductListKeyboard(products)
  {
    ghost var bs := ProductButtons(products);
    buttons := [];
    var i := 0;
    while i < |products|
      invariant 0 <= i <= |products| + 1
      invariant i < |products| ==> buttons + PairedRows(bs[i..]) == PairedRows(bs)
      invariant i >= |products| ==> buttons == PairedRows(bs)
    {
      var row := [ProductButton(products[i], i)];
      if i + 1 < |products| {
        row := row + [ProductButton(products[i + 1], i + 1)];
      }
      ProductRowStep(buttons, products, i, row);
      buttons := buttons + [row];
      i := i + 2;
    }
    buttons := buttons + [[BackButton]];
  }

  /** One turn of the product loop keeps its invariant. */
  lemma ProductRowStep(rows: seq<seq<Button>>, products: seq<Product>, i: nat, row: seq<Button>)
    requires i < |products|
    requires (var bs := ProductButtons(products); rows + PairedRows(bs[i..]) == PairedRows(bs))
    requires row == [ProductButton(products[i], i)]
      + (if i + 1 < |products| then [ProductButton(products[i + 1], i + 1)] else [])
    ensures (var bs := ProductButtons(products);
      (i + 2 < |products| ==> (rows + [row]) + PairedRows(bs[i + 2..]) == PairedRows(bs))
      && (i + 2 >= |products| ==> rows + [row] == PairedRows(bs)))
  {
    var bs := ProductButtons(products);
    assert bs[i] == ProductButton(products[i], i);
    if i + 1 < |products| {
      assert bs[i + 1] == ProductButton(products[i + 1], i + 1);
    }
    PairingStep(rows, bs, i, row);
  }

  /**
   * What the `cat_` handler shows. `ListingFailed` is the handler throwing while it writes
   * the listing text: `prod.price.toLocaleString` on a product whose price is `null`.
   */
  datatype CategoryView =
    | CategoryNotFound
    | ListingFailed(category: Category)
    | Listing(category: Category, products: seq<Product>, keyboard: seq<seq<Button>>)

  /** Every product has a price, so the listing text can be written. */
  predicate AllPriced(ps: seq<Product>) { forall p :: p in ps ==> p.price.Some? }

  /**
   * The `cat_` handler: the captured text is read with parseInt and the first category
   * with that id is listed with its products; with an empty listing the keyboard is the
   * Kembali button alone. A product without a price makes the listing fail.
   */
  function OpenCategoryView(cats: seq<Category>, ps: seq<Product>, arg: string): (v: CategoryView)
    ensures v.CategoryNotFound? <==> (ParseInt(arg).None? || CategoryById(cats, ParseInt(arg).value).None?)
    ensures !v.CategoryNotFound? ==> (v.category in cats && Some(v.category.id as int) == ParseInt(arg))
    ensures !v.CategoryNotFound? ==> CategoryById(cats, ParseInt(arg).value) == Some(v.category)
    ensures v.ListingFailed? <==> (!v.CategoryNotFound? && !AllPriced(ProductsByCategory(ps, v.category.name)))
    ensures v.Listing? ==> (v.products == ProductsByCategory(ps, v.category.name) && AllPriced(v.products)
      && v.keyboard == ProductListKeyboard(v.products))
  {
    match ParseInt(arg)
    case None => CategoryNotFound
    case Some(n) =>
      match CategoryById(cats, n)
      case None => CategoryNotFound
      case Some(c) =>
        var listing := ProductsByCategory(ps, c.name);
        if AllPriced(listing) then Listing(c, listing, ProductListKeyboard(listing))
        else ListingFailed(c)
  }

  /**
   * A listing's keyboard holds one button per listed product, in listing order and
   * numbered from 1, each carrying `prod_<id>`, and then the Kembali row alone.
   */
  lemma {:induction false} ListingKeyboardLayout(ps: seq<Product>)
    ensures (var kb := ProductListKeyboard(ps);
      && |kb| == (|ps| + 1) / 2 + 1
      && kb[|kb| - 1] == [BackButton]
      && |Flatten(kb[..|kb| - 1])| == |ps|
      && forall k :: 0 <= k < |ps| ==> Flatten(kb[..|kb| - 1])[k] == Button(NatToString(k + 1), "prod_" + ps[k].id))
  {
    var kb := ProductListKeyboard(ps);
    var bs := ProductButtons(ps);
    assert kb[..|kb| - 1] == PairedRows(bs);
    FlattenPairedRows(bs);
  }

  /**
   * Pressing the k-th product button of an opened category shows that product's screen
   * with quantity 1, for ids without an underscore.
   */
  lemma {:induction false} ListingButtonOpensProduct(cats: seq<Category>, ps: seq<Product>, arg: string, k: nat)
    requires OpenCategoryView(cats, ps, arg).Listing?
    requires k < |OpenCategoryView(cats, ps, arg).products|
    requires (var p := OpenCategoryView(cats, ps, arg).products[k]; ValidId(p.id) && '_' !in p.id)
    ensures (var v := OpenCategoryView(cats, ps, arg); var kb := v.keyboard;
      |kb| > 0 && k < |Flatten(kb[..|kb| - 1])|
      && Rerender(Route(Flatten(kb[..|kb| - 1])[k].data)) == Some((v.products[k].id, 1)))
  {
    var v := OpenCategoryView(cats, ps, arg);
    ListingKeyboardLayout(v.products);
    PressProductButton(v.products[k], k);
  }

  /** The view of a category that exists: its listing, or the failure a priceless product causes. */
  function CategoryViewOf(c: Category, ps: seq<Product>): CategoryView {
    var listing := ProductsByCategory(ps, c.name);
    if AllPriced(listing) then Listing(c, listing, ProductListKeyboard(listing)) else ListingFailed(c)
  }

  /**
   * Pressing a category's button on any menu page opens that category's listing, when
   * category ids are unique.
   */
  lemma {:induction false} PressCategoryButton(cats: seq<Category>, ps: seq<Product>, c: Category, index: nat)
    requires c in cats
    requires forall d :: d in cats && d.id == c.id ==> d == c
    ensures Route(CategoryButton(c, index).data) == OpenCategory(NatToString(c.id))
    ensures OpenCategoryView(cats, ps, NatToString(c.id)) == CategoryViewOf(c, ps)
  {
    var d := NatToString(c.id);
    NumeralIsValidId(c.id);
    RouteCategory(d);
    ParseIntOfNatToString(c.id);
    OpenUniqueCategory(cats, ps, c, d);
  }

  lemma NumeralIsValidId(n: nat)
    ensures ValidId(NatToString(n))
  {
    var d := NatToString(n);
    forall k | 0 <= k < |d| ensures !IsLineTerminator(d[k]) { assert IsDigit(d[k]); }
  }

  /** The `cat_` handler on text that parseInt reads as a unique category's id lists it. */
  lemma OpenUniqueCategory(cats: seq<Category>, ps: seq<Product>, c: Category, arg: string)
    requires c in cats
    requires forall d :: d in cats && d.id == c.id ==> d == c
    requires ParseInt(arg) == Some(c.id as int)
    ensures OpenCategoryView(cats, ps, arg) == CategoryViewOf(c, ps)
  {
    assert CategoryById(cats, c.id) == Some(c);
  }

  /**
   * Pressing a product's button opens its product screen with quantity 1, for ids
   * without an underscore (the clock-and-random ids the table assigns have none).
   */
  lemma {:induction false} PressProductButton(p: Product, index: nat)
    requires ValidId(p.id) && '_' !in p.id
    ensures Rerender(Route(ProductButton(p, index).data)) == Some((p.id, 1))
  {
    var s := "prod_" + p.id;
    MismatchAt(s, "cat_", 0);
    StartsWithConcat("prod_", p.id);
    MatchRestOf("prod_", p.id);
    assert MatchIdQty("prod_", s).None? by {
      assert s[5..] == p.id;
      assert LastIndexOf(p.id, '_').None?;
    }
  }
}
