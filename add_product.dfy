/**
 * The admin command `/addproduk category,code,name,price,detail[,code,name,price,detail…]`:
 * the text after the command is split on commas and trimmed, the category is checked, and
 * every complete group of four fields whose price passes the guard becomes a product.
 */
module AddProduct {
  import opened Wrappers
  import opened JsText
  import opened Products
  import opened Catalog

  const Command: string := "/addproduk"

  /** One product's four fields as typed. */
  datatype Group = Group(code: string, name: string, price: string, detail: string)

  /** The handler's replies. */
  datatype Reply =
    | Usage
    | TooFewParts
    | UnknownCategory(categoryName: string)
    | Added(categoryName: string, names: seq<string>)
    | NothingAdded

  /**
   * The price guard. `NotNaN` is the handler's `!isNaN(price)`; `NumericInteger` also
   * demands that parseInt reads an integer from the price, which the guard evidently means.
   */
  datatype PriceGuard = NotNaN | NumericInteger

  predicate Accepts(guard: PriceGuard, price: string) {
    match guard
    case NotNaN => IsNumericString(price)
    case NumericInteger => IsNumericString(price) && ParseInt(price).Some?
  }

  /** The guard as the test the loop applies to each price. */
  function PriceTest(guard: PriceGuard): string -> bool {
    price => Accepts(guard, price)
  }

  /** The command's argument: the first `/addproduk` removed, then trimmed. */
  function CommandInput(text: string): string {
    Trim(RemoveFirst(text, Command))
  }

  /** The comma-separated fields, each trimmed. */
  function Parts(input: string): (parts: seq<string>)
    ensures |parts| == |Split(input, ',')| >= 1
    ensures forall k :: 0 <= k < |parts| ==> parts[k] == Trim(Split(input, ',')[k])
  {
    TrimAll(Split(input, ','))
  }

  predicate HasCategory(cats: seq<Category>, categoryName: string) {
    exists c :: c in cats && SameText(c.name, categoryName)
  }

  /** The complete groups of four starting at field `i`, four fields at a time. */
  function Groups(parts: seq<string>, i: nat): seq<Group>
    decreases |parts| - i
  {
    if i + 3 < |parts| then [Group(parts[i], parts[i + 1], parts[i + 2], parts[i + 3])] + Groups(parts, i + 4)
    else []
  }

  /**
   * Fields from index 1 form `(|parts| - 1) / 4` groups, the g-th made of fields
   * `1 + 4g` to `4 + 4g`; a trailing incomplete group is dropped.
   */
  lemma {:induction false} GroupsClosedForm(parts: seq<string>, i: nat)
    requires i <= |parts|
    ensures |Groups(parts, i)| == (|parts| - i) / 4
    ensures forall g :: 0 <= g < |Groups(parts, i)| ==> (Groups(parts, i)[g]
      == Group(parts[i + 4 * g], parts[i + 4 * g + 1], parts[i + 4 * g + 2], parts[i + 4 * g + 3]))
    decreases |parts| - i
  {
    if i + 3 < |parts| {
      GroupsClosedForm(parts, i + 4);
      var rest := Groups(parts, i + 4);
      var all := Groups(parts, i);
      assert forall g :: 1 <= g < |all| ==> all[g] == rest[g - 1];
    }
  }

  /** The groups the guard lets through, in input order. */
  function Kept(keep: string -> bool, groups: seq<Group>): (r: seq<Group>)
    ensures |r| <= |groups|
  {
    if groups == [] then []
    else (if keep(groups[0].price) then [groups[0]] else []) + Kept(keep, groups[1..])
  }

  /** Exactly the groups whose price the guard accepts are kept. */
  lemma {:induction false} KeptMembers(keep: string -> bool, groups: seq<Group>)
    ensures forall g :: g in Kept(keep, groups) <==> g in groups && keep(g.price)
  {
    if groups != [] {
      KeptMembers(keep, groups[1..]);
      assert groups == [groups[0]] + groups[1..];
    }
  }

  function Names(groups: seq<Group>): (r: seq<string>)
    ensures |r| == |groups| && forall k :: 0 <= k < |r| ==> r[k] == groups[k].name
  {
    seq(|groups|, k requires 0 <= k < |groups| => groups[k].name)
  }

  /**
   * The records the added groups become: the k-th call of `addProduct` draws the id
   * `idFor(k)` and stores parseInt of the price.
   */
  function Records(categoryName: string, groups: seq<Group>, idFor: nat -> string): (r: seq<Product>)
    ensures |r| == |groups|
    ensures forall k :: 0 <= k < |r| ==> (r[k]
      == Product(idFor(k), categoryName, groups[k].code, groups[k].name, ParseInt(groups[k].price), groups[k].detail))
  {
    seq(|groups|, k requires 0 <= k < |groups|
      => Product(idFor(k), categoryName, groups[k].code, groups[k].name, ParseInt(groups[k].price), groups[k].detail))
  }

  /** What one command does: its reply and the groups it adds. */
  datatype Outcome = Outcome(reply: Reply, added: seq<Group>)

  /**
   * The handler's decisions in order: an empty argument gets the usage text, fewer than
   * five fields or an unknown category (compared ignoring case) are refused, and every
   * other command adds the complete groups the guard lets through, reporting their names
   * in input order, or reports that nothing was added.
   */
  function Plan(guard: PriceGuard, text: string, cats: seq<Category>): (o: Outcome)
    ensures o.reply.Usage? <==> CommandInput(text) == []
    ensures !o.reply.Added? ==> o.added == []
    ensures o.reply.Added? ==> o.added != [] && o.reply.names == Names(o.added)
    ensures (o.reply.Added? || o.reply.NothingAdded?) ==>
      (var parts := Parts(CommandInput(text));
       |parts| >= 5 && HasCategory(cats, parts[0])
       && o.added == Kept(PriceTest(guard), Groups(parts, 1))
       && (o.reply.Added? ==> o.reply.categoryName == parts[0]))
    ensures CommandInput(text) != [] ==>
      (var parts := Parts(CommandInput(text));
       && (|parts| < 5 ==> o.reply == TooFewParts)
       && (|parts| >= 5 && !HasCategory(cats, parts[0]) ==> o.reply == UnknownCategory(parts[0]))
       && (|parts| >= 5 && HasCategory(cats, parts[0]) ==>
             && o.added == Kept(PriceTest(guard), Groups(parts, 1))
             && (o.added != [] ==> o.reply == Added(parts[0], Names(o.added)))
             && (o.added == [] ==> o.reply == NothingAdded)))
  {
    var input := CommandInput(text);
    if input == [] then Outcome(Usage, []) else PlanFields(guard, Parts(input), cats)
  }

  /** The decisions taken on the command's fields once the argument is not empty. */
  function PlanFields(guard: PriceGuard, parts: seq<string>, cats: seq<Category>): (o: Outcome)
    ensures !o.reply.Usage?
    ensures |parts| < 5 ==> o == Outcome(TooFewParts, [])
    ensures |parts| >= 5 && !HasCategory(cats, parts[0]) ==> o == Outcome(UnknownCategory(parts[0]), [])
    ensures |parts| >= 5 && HasCategory(cats, parts[0]) ==>
      && o.added == Kept(PriceTest(guard), Groups(parts, 1))
      && (o.added != [] ==> o.reply == Added(parts[0], Names(o.added)))
      && (o.added == [] ==> o.reply == NothingAdded)
  {
    if |parts| < 5 then Outcome(TooFewParts, [])
    else if !HasCategory(cats, parts[0]) then Outcome(UnknownCategory(parts[0]), [])
    else
      var kept := Kept(PriceTest(guard), Groups(parts, 1));
      if |kept| > 0 then Outcome(Added(parts[0], Names(kept)), kept)
      else Outcome(NothingAdded, [])
  }

  lemma GroupsStep(parts: seq<string>, i: nat)
    requires i + 3 < |parts|
    ensures Groups(parts, i) == [Group(parts[i], parts[i + 1], parts[i + 2], parts[i + 3])] + Groups(parts, i + 4)
  {
  }

  lemma KeptCons(keep: string -> bool, g: Group, rest: seq<Group>)
    ensures Kept(keep, [g] + rest) == (if keep(g.price) then [g] else []) + Kept(keep, rest)
  {
    assert ([g] + rest)[1..] == rest;
  }

  /** A turn of the grouping loop: the group at `i` is kept or skipped, then the rest. */
  lemma KeptStep(keep: string -> bool, parts: seq<string>, i: nat, added: seq<Group>)
    requires i + 3 < |parts|
    ensures (var g := Group(parts[i], parts[i + 1], parts[i + 2], parts[i + 3]);
      added + Kept(keep, Groups(parts, i))
        == (added + (if keep(g.price) then [g] else [])) + Kept(keep, Groups(parts, i + 4)))
  {
    var g := Group(parts[i], parts[i + 1], parts[i + 2], parts[i + 3]);
    GroupsStep(parts, i);
    KeptCons(keep, g, Groups(parts, i + 4));
    Assoc(added, if keep(g.price) then [g] else [], Kept(keep, Groups(parts, i + 4)));
  }

  lemma NamesAppend(groups: seq<Group>, g: Group)
    ensures Names(groups + [g]) == Names(groups) + [g.name]
  {
  }

  lemma RecordsAppend(categoryName: string, groups: seq<Group>, g: Group, idFor: nat -> string)
    ensures Records(categoryName, groups + [g], idFor) == Records(categoryName, groups, idFor)
      + [Product(idFor(|groups|), categoryName, g.code, g.name, ParseInt(g.price), g.detail)]
  {
  }

  /**
   * `/addproduk`: every record it appends comes from the plan's groups, in order, and
   * nothing else in the table changes.
   */
  method AddProductCommand(guard: PriceGuard, text: string, cats: seq<Category>, db: ProductDb, idFor: nat -> string)
    returns (reply: Reply)
    modifies db
    ensures reply == Plan(guard, text, cats).reply
    ensures (reply.Added? ==>
      db.products == old(db.products) + Records(reply.categoryName, Plan(guard, text, cats).added, idFor))
    ensures !reply.Added? ==> db.products == old(db.products)
  {
    ghost var plan := Plan(guard, text, cats);
    var input := CommandInput(text);
    if input == [] {
      assert plan == Outcome(Usage, []);
      return Usage;
    }
    var parts := Parts(input);
    if |parts| < 5 {
      assert plan == Outcome(TooFewParts, []);
      return TooFewParts;
    }
    var categoryName := parts[0];
    if !HasCategory(cats, categoryName) {
      assert plan == Outcome(UnknownCategory(categoryName), []);
      return UnknownCategory(categoryName);
    }
    ghost var kept := Kept(PriceTest(guard), Groups(parts, 1));
    assert plan == if |kept| > 0 then Outcome(Added(categoryName, Names(kept)), kept) else Outcome(NothingAdded, []);
    var names := AddGroups(PriceTest(guard), parts, categoryName, db, idFor);
    if |names| > 0 {
      reply := Added(categoryName, names);
    } else {
      reply := NothingAdded;
    }
  }

  /**
   * The loop over the fields, four at a time from index 1: each complete group whose
   * price the guard accepts is added, and its name collected.
   */
  method AddGroups(keep: string -> bool, parts: seq<string>, categoryName: string, db: ProductDb, idFor: nat -> string)
    returns (names: seq<string>)
    modifies db
    ensures names == Names(Kept(keep, Groups(parts, 1)))
    ensures db.products == old(db.products) + Records(categoryName, Kept(keep, Groups(parts, 1)), idFor)
  {
    names := [];
    ghost var added: seq<Group> := [];
    var i := 1;
    while i < |parts|
      invariant 1 <= i
      invariant added + Kept(keep, Groups(parts, i)) == Kept(keep, Groups(parts, 1))
      invariant names == Names(added)
      invariant db.products == old(db.products) + Records(categoryName, added, idFor)
      decreases |parts| - i
    {
      if i + 3 < |parts| {
        names, added := AddGroupAt(keep, parts, i, categoryName, db, idFor, names, old(db.products), added);
      }
      i := i + 4;
    }
    assert added + [] == added;
  }

  /** One turn of that loop: the group at field `i` is added when its price passes the guard. */
  method AddGroupAt(keep: string -> bool, parts: seq<string>, i: nat, categoryName: string, db: ProductDb,
                    idFor: nat -> string, names: seq<string>, ghost before: seq<Product>, ghost added: seq<Group>)
    returns (names': seq<string>, ghost added': seq<Group>)
    requires i + 3 < |parts|
    requires names == Names(added)
    requires db.products == before + Records(categoryName, added, idFor)
    modifies db
    ensures added' + Kept(keep, Groups(parts, i + 4)) == added + Kept(keep, Groups(parts, i))
    ensures names' == Names(added')
    ensures db.products == before + Records(categoryName, added', idFor)
  {
    var g := Group(parts[i], parts[i + 1], parts[i + 2], parts[i + 3]);
    var ok := keep(g.price);
    TurnStep(keep, parts, i, added, ok);
    names', added' := names, added;
    if ok {
      RecordsAppend(categoryName, added, g, idFor);
      NamesAppend(added, g);
      var p := db.AddProduct(idFor(|names|), categoryName, g.code, g.name, g.price, g.detail);
      Assoc(before, Records(categoryName, added, idFor), [p]);
      names' := names + [g.name];
      added' := added + [g];
    }
  }

  lemma TurnStep(keep: string -> bool, parts: seq<string>, i: nat, added: seq<Group>, ok: bool)
    requires i + 3 < |parts|
    requires ok == keep(parts[i + 2])
    ensures (var g := Group(parts[i], parts[i + 1], parts[i + 2], parts[i + 3]);
      (if ok then added + [g] else added) + Kept(keep, Groups(parts, i + 4)) == added + Kept(keep, Groups(parts, i)))
  {
    var g := Group(parts[i], parts[i + 1], parts[i + 2], parts[i + 3]);
    KeptStep(keep, parts, i, added);
    var kept := if keep(g.price) then [g] else [];
    if ok {
      assert kept == [g];
    } else {
      assert kept == [] && added + kept == added;
    }
  }

  // ---------------------------------------------------------------- the price guard

  /**
   * `!isNaN(price)` lets through prices parseInt cannot read: the empty field, `Infinity`
   * and a leading decimal point all count as numeric, yet parseInt gives NaN for them.
   */
  lemma NotNaNAdmitsUnparsablePrices()
    ensures Accepts(NotNaN, "") && ParseInt("").None?
    ensures Accepts(NotNaN, "Infinity") && ParseInt("Infinity").None?
    ensures Accepts(NotNaN, ".5") && ParseInt(".5").None?
  {
    BlankIsNumericButNotAnInteger("");
    InfinityIsNumeric();
    HalfIsNumeric();
  }

  lemma InfinityIsNumeric()
    ensures IsNumericString("Infinity") && ParseInt("Infinity").None?
  {
    InfinityPassesNotNaN();
    InfinityParsesToNaN();
  }

  lemma InfinityPassesNotNaN()
    ensures IsNumericString("Infinity")
  {
    var s := "Infinity";
    assert s[0] == 'I' && s[|s| - 1] == 'y';
    assert IsUnsignedDecimal(s);
    NumericWhenUnpadded(s);
  }

  lemma InfinityParsesToNaN()
    ensures ParseInt("Infinity").None?
  {
    var s := "Infinity";
    assert s[0] == 'I';
    NaNWithoutLeadingDigit(s);
  }

  lemma HalfIsNumeric()
    ensures IsNumericString(".5") && ParseInt(".5").None?
  {
    HalfPassesNotNaN();
    HalfParsesToNaN();
  }

  lemma HalfPassesNotNaN()
    ensures IsNumericString(".5")
  {
    var s := ".5";
    assert s[0] == '.' && s[1] == '5';
    IndexOfAbsent(s, 'e');
    IndexOfAbsent(s, 'E');
    assert ['e'] == "e" && ['E'] == "E";
    assert IndexOf(s, ".") == Some(0) by { assert OccursAt(s, ".", 0); }
    assert s[1..] == "5";
    assert IsMantissa(s);
    assert IsUnsignedDecimal(s);
    NumericWhenUnpadded(s);
  }

  lemma HalfParsesToNaN()
    ensures ParseInt(".5").None?
  {
    var s := ".5";
    assert s[0] == '.';
    NaNWithoutLeadingDigit(s);
  }

  /** A field as an admin types it: no comma and no white space at either end. */
  predicate PlainField(f: string) { ',' !in f && Trim(f) == f }

  /** The command an admin types for the given fields: `/addproduk f0,f1,…`. */
  function CommandText(fields: seq<string>): string {
    Command + " " + Join(fields, ',')
  }

  /**
   * The parser reads back the fields an admin typed, as long as they hold no comma and
   * the first and the last are not empty.
   */
  lemma {:induction false} TypedCommandParts(fields: seq<string>)
    requires fields != [] && fields[0] != [] && fields[|fields| - 1] != []
    requires forall k :: 0 <= k < |fields| ==> PlainField(fields[k])
    ensures CommandInput(CommandText(fields)) == Join(fields, ',') != []
    ensures Parts(CommandInput(CommandText(fields))) == fields
  {
    var body := Join(fields, ',');
    assert PlainField(fields[0]) && PlainField(fields[|fields| - 1]);
    JoinStart(fields, ',');
    JoinEnd(fields, ',');
    ArgumentOfCommand(body);
    PartsOfJoin(fields);
  }

  /** Splitting joined plain fields and trimming them gives the fields back. */
  lemma PartsOfJoin(fields: seq<string>)
    requires fields != []
    requires forall k :: 0 <= k < |fields| ==> PlainField(fields[k])
    ensures Parts(Join(fields, ',')) == fields
  {
    SplitJoin(fields, ',');
    TrimAllOfTrimmed(fields);
  }

  /** The argument of `/addproduk <body>` is the body when it has no white space at its ends. */
  lemma ArgumentOfCommand(body: string)
    requires body != [] && !IsWhitespace(body[0]) && !IsWhitespace(body[|body| - 1])
    ensures CommandInput(Command + " " + body) == body
  {
    Assoc(Command, " ", body);
    RemoveLeadingPattern(Command, " " + body);
    TrimSkipsLeadingWhitespace(' ', body);
    TrimOfUnpadded(body);
  }

  /**
   * So the command `/addproduk category,code,name,,detail`, whose only group has an empty
   * price, is accepted, and the product it stores has no price: parseInt gave NaN.
   */
  lemma {:induction false} EmptyPriceStoredAsNaN(fields: seq<string>, cats: seq<Category>, idFor: nat -> string)
    requires |fields| == 5 && fields[3] == [] && fields[0] != [] && fields[4] != []
    requires forall k :: 0 <= k < 5 && k != 3 ==> PlainField(fields[k])
    requires HasCategory(cats, fields[0])
    ensures (var o := Plan(NotNaN, CommandText(fields), cats);
      && o == Outcome(Added(fields[0], [fields[2]]), [Group(fields[1], fields[2], "", fields[4])])
      && Records(o.reply.categoryName, o.added, idFor)[0].price.None?)
  {
    var text := CommandText(fields);
    var price := fields[3];
    assert PlainField(price) by { assert Trim([]) == []; }
    TypedCommandParts(fields);
    PlanOfFields(NotNaN, text, cats);
    BlankIsNumericButNotAnInteger(price);
    OneGroupAdded(NotNaN, cats, fields);
    var g := Group(fields[1], fields[2], price, fields[4]);
    assert Records(fields[0], [g], idFor)[0].price == ParseInt(price);
  }

  /** A command with a non-empty argument is decided on its fields. */
  lemma PlanOfFields(guard: PriceGuard, text: string, cats: seq<Category>)
    requires CommandInput(text) != []
    ensures Plan(guard, text, cats) == PlanFields(guard, Parts(CommandInput(text)), cats)
  {
  }

  /** A command of exactly one group whose price passes is answered with that group alone. */
  lemma OneGroupAdded(guard: PriceGuard, cats: seq<Category>, parts: seq<string>)
    requires |parts| == 5 && HasCategory(cats, parts[0]) && Accepts(guard, parts[3])
    ensures PlanFields(guard, parts, cats)
      == Outcome(Added(parts[0], [parts[2]]), [Group(parts[1], parts[2], parts[3], parts[4])])
  {
    var g := Group(parts[1], parts[2], parts[3], parts[4]);
    assert Groups(parts, 5) == [];
    assert Groups(parts, 1) == [g];
    assert Kept(PriceTest(guard), [g]) == [g] + Kept(PriceTest(guard), []);
    assert |Names([g])| == 1 && Names([g])[0] == g.name;
  }

  /** With the corrected guard every product the command adds has a price. */
  lemma {:induction false} CorrectedGuardStoresPrices(text: string, cats: seq<Category>, idFor: nat -> string, k: nat)
    requires Plan(NumericInteger, text, cats).reply.Added?
    requires k < |Plan(NumericInteger, text, cats).added|
    ensures (var o := Plan(NumericInteger, text, cats);
      Records(o.reply.categoryName, o.added, idFor)[k].price.Some?)
  {
    var o := Plan(NumericInteger, text, cats);
    KeptMembers(PriceTest(NumericInteger), Groups(Parts(CommandInput(text)), 1));
    assert o.added[k] in o.added;
  }

  /**
   * The corrected guard only narrows the handler's: every price it accepts also passes
   * `!isNaN`, which holds by the definition of `Accepts`. The point of the lemma is the
   * second clause: it still accepts every price written in plain digits.
   */
  lemma {:induction false} CorrectedGuardIsNarrower(price: string)
    ensures Accepts(NumericInteger, price) ==> Accepts(NotNaN, price)
    ensures price != [] && AllDigits(price) ==> Accepts(NumericInteger, price)
  {
    if price != [] && AllDigits(price) {
      DigitsAreNumeric(price);
      ParseIntOfDigitPrefix(price, []);
      assert price + [] == price;
    }
  }
}
