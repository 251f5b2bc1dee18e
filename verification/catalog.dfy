/** The catalog handlers of the product controller. Each takes the database
    and the request fields it reads and returns the database after the
    statements it ran, with the HTTP response it sends. */
module Catalog {
  import opened Common
  import opened Seqs
  import opened Sorting
  import opened Schema
  import opened ProductTable
  import opened CategoryTable

  // ---------------------------------------------------------------------------
  // Responses

  /** Why a handler answered 500: a statement the database rejected, or a
      JavaScript `TypeError` (a method called on a value that lacks it). */
  datatype Failure = Rejected(error: DbError) | TypeError

  /** A product as the list and search queries return it: the row and the
      name of its category from the LEFT JOIN. */
  datatype ProductView = ProductView(row: Product, categoryName: Option<string>)

  /** The columns a product save sends back: `RETURNING product_id, name,
      barcode, selling_price, image, current_stock, category_id`. */
  datatype SavedProduct = SavedProduct(
    productId: nat, name: string, barcode: string, sellingPrice: int,
    image: Option<string>, currentStock: Option<int>, categoryId: Option<nat>)

  function Returning(p: Product): (s: SavedProduct)
    ensures s.productId == p.productId && s.barcode == p.barcode && s.categoryId == p.categoryId
  {
    SavedProduct(p.productId, p.name, p.barcode, p.sellingPrice, p.image, p.currentStock,
                 p.categoryId)
  }

  /** The columns createCategory sends back for a category: `RETURNING id,
      name` or `SELECT id, name`. */
  datatype NamedCategory = NamedCategory(id: nat, name: string)

  function IdAndName(c: Category): (n: NamedCategory)
    ensures n.id == c.id && n.name == c.name
  {
    NamedCategory(c.id, c.name)
  }

  /** The JSON bodies the handlers send. */
  datatype Body =
    | Message(message: string)
    | ServerError(message: string, cause: Failure)
    | ProductSaved(message: string, product: SavedProduct)
    | ProductList(products: seq<ProductView>)
    | ProductFound(found: ProductView)
    | CategorySaved(message: string, category: NamedCategory)
    | CategoryList(categories: seq<Category>)

  datatype Response = Response(status: nat, body: Body)

  const Unauthorized: Response := Response(401, Message("Unauthorized"))

  // ---------------------------------------------------------------------------
  // Statement parameters: the driver sends every value as text (or NULL) and
  // the database reads the text into the column's type.

  /** The text the driver sends for a value; `null` (and `undefined`) is NULL. */
  function TextParam(v: JsValue): (r: Option<string>)
    ensures r.None? <==> v.Null? || v.Undefined?
    ensures v.Str? ==> r == Some(v.s)
  {
    match v
    case Undefined => None
    case Null => None
    case Bool(b) => Some(if b then "true" else "false")
    case Num(n) => Some(IntToString(n))
    case Str(s) => Some(s)
  }

  /** A value bound to an integer column: a number arrives as itself, a string
      must be an integer literal, and a boolean is not an integer. */
  function IntParam(v: JsValue, column: string): (r: Result<Option<int>, DbError>)
    ensures r == Ok(None) <==> v.Null? || v.Undefined?
    ensures v.Num? ==> r == Ok(Some(v.n))
    ensures v.Str? ==> (r.Ok? <==> ParseInt(v.s).Some?) && (r.Ok? ==> r.value == ParseInt(v.s))
    ensures v.Bool? ==> r.Err?
  {
    if v.Num? then ParseIntToString(v.n); Ok(ParseInt(IntToString(v.n)))
    else
      match TextParam(v)
      case None => Ok(None)
      case Some(t) =>
        match ParseInt(t)
        case None => Err(InvalidText(column))
        case Some(k) => Ok(Some(k))
  }

  /** A value bound to a DECIMAL(10,2) column, in cents: a number of whole
      units, or a string with at most two fraction digits. */
  function MoneyParam(v: JsValue, column: string): (r: Result<Option<int>, DbError>)
    ensures r == Ok(None) <==> v.Null? || v.Undefined?
    ensures v.Num? ==> r == Ok(Some(v.n * 100))
    ensures v.Str? ==> (r.Ok? <==> ParseCents(v.s).Some?) && (r.Ok? ==> r.value == ParseCents(v.s))
    ensures v.Bool? ==> r.Err?
  {
    if v.Num? then ParseCentsIntToString(v.n); Ok(ParseCents(IntToString(v.n)))
    else
      match TextParam(v)
      case None => Ok(None)
      case Some(t) =>
        match ParseCents(t)
        case None => Err(InvalidText(column))
        case Some(k) => Ok(Some(k))
  }

  // ---------------------------------------------------------------------------
  // createOrUpdateProduct

  /** The body fields the handler destructures; an absent one is `Undefined`. */
  datatype ProductRequest = ProductRequest(
    barcode: JsValue,
    name: JsValue,
    categoryId: JsValue,
    unitType: JsValue,
    purchaseCost: JsValue,
    sellingPrice: JsValue,
    currentStock: JsValue,
    image: JsValue,
    userId: JsValue)

  /** The destructuring defaults, which replace absent fields only. */
  function WithDefaults(req: ProductRequest): ProductRequest
  {
    req.(unitType := WithDefault(req.unitType, Str("pcs")),
         purchaseCost := WithDefault(req.purchaseCost, Num(0)),
         currentStock := WithDefault(req.currentStock, Num(0)),
         image := WithDefault(req.image, Null))
  }

  /** The four fields the handler requires to be truthy. */
  predicate MissingRequired(req: ProductRequest) {
    !Truthy(req.barcode) || !Truthy(req.name) || !Truthy(req.sellingPrice) || !Truthy(req.categoryId)
  }

  const RequiredMessage: string := "barcode, name, selling_price, and category_id are required"

  /** A value an integer column can read: not a boolean, and a string only
      when it is an integer literal. */
  predicate IntReadable(v: JsValue) {
    !v.Bool? && (v.Str? ==> ParseInt(v.s).Some?)
  }

  /** A value a DECIMAL(10,2) column can read: not a boolean, and a string
      only when it is a decimal with at most two fraction digits. */
  predicate MoneyReadable(v: JsValue) {
    !v.Bool? && (v.Str? ==> ParseCents(v.s).Some?)
  }

  /** A text parameter is NULL exactly for `null` or an absent field, and a
      string arrives as itself. */
  predicate CarriesText(p: Option<string>, v: JsValue) {
    (p.None? <==> v.Null? || v.Undefined?) && (v.Str? ==> p == Some(v.s))
  }

  /** An integer parameter is NULL exactly for `null` or an absent field; a
      number arrives as itself and a string as the integer it spells. */
  predicate CarriesInt(p: Option<int>, v: JsValue) {
    && (p.None? <==> v.Null? || v.Undefined?)
    && (v.Num? ==> p == Some(v.n)) && (v.Str? ==> p == ParseInt(v.s))
  }

  /** A money parameter is NULL exactly for `null` or an absent field; a
      number arrives as that many units and a string as the cents it spells. */
  predicate CarriesMoney(p: Option<int>, v: JsValue) {
    && (p.None? <==> v.Null? || v.Undefined?)
    && (v.Num? ==> p == Some(v.n * 100)) && (v.Str? ==> p == ParseCents(v.s))
  }

  /** The nine parameters of the insert, read into their columns in order.
      The statement fails before any check exactly when one of the four
      numeric fields cannot be read; otherwise every parameter carries its
      field. */
  function BindProduct(req: ProductRequest): (r: Result<ProductInput, DbError>)
    ensures r.Ok? <==> && IntReadable(req.categoryId) && MoneyReadable(req.purchaseCost)
                       && MoneyReadable(req.sellingPrice) && IntReadable(req.currentStock)
    ensures r.Ok? ==> var f := r.value;
      && CarriesText(f.barcode, req.barcode) && CarriesText(f.name, req.name)
      && CarriesText(f.unitType, req.unitType) && CarriesText(f.image, req.image)
      && CarriesText(f.userId, req.userId)
      && CarriesInt(f.categoryId, req.categoryId) && CarriesInt(f.currentStock, req.currentStock)
      && CarriesMoney(f.purchaseCost, req.purchaseCost) && CarriesMoney(f.sellingPrice, req.sellingPrice)
  {
    match (IntParam(req.categoryId, "category_id"), MoneyParam(req.purchaseCost, "purchase_cost"),
           MoneyParam(req.sellingPrice, "selling_price"), IntParam(req.currentStock, "current_stock"))
    case (Err(e), _, _, _) => Err(e)
    case (_, Err(e), _, _) => Err(e)
    case (_, _, Err(e), _) => Err(e)
    case (_, _, _, Err(e)) => Err(e)
    case (Ok(categoryId), Ok(purchaseCost), Ok(sellingPrice), Ok(currentStock)) =>
      Ok(ProductInput(TextParam(req.barcode), TextParam(req.name), categoryId,
                      TextParam(req.unitType), purchaseCost, sellingPrice, currentStock,
                      TextParam(req.image), TextParam(req.userId)))
  }

  /** `POST` of a product. Without an owner the answer is 401, without one of
      the four required fields 400, both before anything is written. Then the
      upsert on `barcode` runs; if the database rejects it the answer is 500
      and nothing changes, otherwise 201 with the returned columns of the row
      as saved. */
  function SaveProduct(db: Db, req: ProductRequest): (r: (Db, Response))
    ensures !Truthy(req.userId) ==> r == (db, Unauthorized)
    ensures Truthy(req.userId) && MissingRequired(req) ==> r == (db, Response(400, Message(RequiredMessage)))
    ensures r.1.status in {201, 400, 401, 500}
    ensures r.1.status != 201 ==> r.0 == db
    ensures r.1.status == 500 ==> r.1.body.ServerError? && r.1.body.cause.Rejected?
    ensures Truthy(req.userId) && !MissingRequired(req) && r.1.status != 201 ==> r.1.status == 500
    ensures r.1.status == 201 <==>
      && Truthy(req.userId) && !MissingRequired(req)
      && BindProduct(WithDefaults(req)).Ok?
      && exists v :: Denotes(v, BindProduct(WithDefaults(req)).value) && Fits(db, v)
    ensures r.1.status == 201 ==>
      exists v :: && Denotes(v, BindProduct(WithDefaults(req)).value) && Fits(db, v)
                  && r.0 == Upsert(db, v)
                  && r.1.body == ProductSaved("Product saved successfully",
                                              Returning(ProductByBarcode(r.0.products, v.barcode).value))
  {
    if !Truthy(req.userId) then (db, Unauthorized)
    else if MissingRequired(req) then (db, Response(400, Message(RequiredMessage)))
    else
      match BindProduct(WithDefaults(req))
      case Err(e) => (db, Response(500, ServerError("Internal server error", Rejected(e))))
      case Ok(f) =>
        match CheckProduct(db, f)
        case Err(e) => (db, Response(500, ServerError("Internal server error", Rejected(e))))
        case Ok(v) =>
          var db' := Upsert(db, v);
          (db', Response(201, ProductSaved("Product saved successfully",
                                           Returning(ProductByBarcode(db'.products, v.barcode).value))))
  }

  /** A request from an owner that carries the four required fields and whose
      optional fields are absent. */
  predicate MinimalRequest(req: ProductRequest) {
    && Truthy(req.userId) && !MissingRequired(req)
    && req.unitType.Undefined? && req.purchaseCost.Undefined?
    && req.currentStock.Undefined? && req.image.Undefined?
  }

  /** Omitted optional fields are stored as unit `pcs`, purchase cost 0,
      stock 0 and no image. */
  lemma SaveAppliesDefaults(db: Db, req: ProductRequest)
    requires MinimalRequest(req)
    requires SaveProduct(db, req).1.status == 201
    ensures var (db', r) := SaveProduct(db, req);
      && ProductByBarcode(db'.products, r.body.product.barcode).Some?
      && var p := ProductByBarcode(db'.products, r.body.product.barcode).value;
      && p.unitType == Pcs && p.purchaseCost == Some(0) && p.currentStock == Some(0)
      && p.image == None
  {
    var f := BindProduct(WithDefaults(req)).value;
    var v := CheckProduct(db, f).value;
    assert UnitTypeName(v.unitType) == "pcs";
  }

  /** An explicit `null` is not replaced by the default: a purchase cost or
      stock sent as `null` is stored as NULL, not 0. */
  lemma SaveKeepsExplicitNulls(db: Db, req: ProductRequest)
    requires req.purchaseCost == Null && req.currentStock == Null && req.image == Null
    requires SaveProduct(db, req).1.status == 201
    ensures var (db', r) := SaveProduct(db, req);
      && ProductByBarcode(db'.products, r.body.product.barcode).Some?
      && var p := ProductByBarcode(db'.products, r.body.product.barcode).value;
      && p.purchaseCost == None && p.currentStock == None && p.image == None
  {
    var v := SaveSucceeded(db, req);
  }

  /** A selling price of 0 (or an empty string) counts as missing: the
      request is refused with 400 and nothing is written. */
  lemma SaveRefusesZeroPrice(db: Db, req: ProductRequest)
    requires Truthy(req.userId)
    requires req.sellingPrice == Num(0) || req.sellingPrice == Str("")
    ensures SaveProduct(db, req) == (db, Response(400, Message(RequiredMessage)))
  {
  }

  /** The text "0" is truthy, so it passes the check that the number 0 fails,
      and a price of 0 can be stored that way. */
  lemma SaveAcceptsZeroPriceText(db: Db, req: ProductRequest)
    requires MinimalRequest(req.(sellingPrice := Num(1)))
    requires req.sellingPrice == Str("0")
    ensures SaveProduct(db, req).1.status != 400
    ensures SaveProduct(db, req).1.status == 201 ==> SaveProduct(db, req).1.body.product.sellingPrice == 0
  {
    assert ParseCents("0") == Some(0) by {
      assert ParseDigits("0") == Some(0);
    }
  }

  /** A unit the CHECK list does not name, or an explicit `null` (which the
      default does not replace), makes the statement fail: 500 and no write. */
  lemma SaveRefusesUnknownUnit(db: Db, req: ProductRequest)
    requires Truthy(req.userId) && !MissingRequired(req)
    requires req.unitType == Null || (req.unitType.Str? && ParseUnitType(req.unitType.s).None?)
    ensures SaveProduct(db, req).0 == db
    ensures SaveProduct(db, req).1.status == 500
  {
    match BindProduct(WithDefaults(req))
    case Err(_) =>
    case Ok(f) =>
      if req.unitType.Str? {
        UnknownUnitStaysUnknown(req.unitType.s);
      }
      assert CheckProduct(db, f).Err?;
  }

  /** A numeric field that its column cannot read, such as a boolean or a
      string that is not a number, makes the statement fail: 500 with no
      write, whatever the other fields hold. */
  lemma SaveRefusesUnreadableNumber(db: Db, req: ProductRequest)
    requires Truthy(req.userId) && !MissingRequired(req)
    requires || !IntReadable(req.categoryId) || !MoneyReadable(req.purchaseCost)
             || !MoneyReadable(req.sellingPrice) || !IntReadable(req.currentStock)
    ensures var (db', r) := SaveProduct(db, req);
      && db' == db && r.status == 500
      && r.body.ServerError? && r.body.cause.Rejected? && r.body.cause.error.InvalidText?
  {
  }

  /** The checks read the database only through the category ids. */
  lemma CheckProductReadsCategories(db: Db, db': Db, f: ProductInput)
    requires CategoryIds(db.categories) == CategoryIds(db'.categories)
    ensures CheckProduct(db, f) == CheckProduct(db', f)
  {
  }

  /** A 201 is the upsert of the values the request denotes. */
  lemma SaveSucceeded(db: Db, req: ProductRequest) returns (v: ProductValues)
    requires SaveProduct(db, req).1.status == 201
    ensures Truthy(req.userId) && !MissingRequired(req) && BindProduct(WithDefaults(req)).Ok?
    ensures CheckProduct(db, BindProduct(WithDefaults(req)).value) == Ok(v)
    ensures Denotes(v, BindProduct(WithDefaults(req)).value) && Fits(db, v)
    ensures SaveProduct(db, req).0 == Upsert(db, v)
    ensures SaveProduct(db, req).1.body.product == Returning(ProductByBarcode(Upsert(db, v).products, v.barcode).value)
  {
    v := CheckProduct(db, BindProduct(WithDefaults(req)).value).value;
  }

  /** Sending the same request twice leaves the table as sending it once
      did, up to `updated_at`, and answers 201 both times with the same
      returned columns. */
  lemma SaveIdempotent(db: Db, req: ProductRequest)
    requires SaveProduct(db, req).1.status == 201
    ensures var (db1, r1) := SaveProduct(db, req);
      var (db2, r2) := SaveProduct(db1, req);
      && r2.status == 201
      && |db2.products| == |db1.products|
      && (forall k :: 0 <= k < |db1.products| ==> SameButUpdatedAt(db2.products[k], db1.products[k]))
      && db2.categories == db1.categories
      && r2.body.product == r1.body.product
  {
    var v := SaveSucceeded(db, req);
    var f := BindProduct(WithDefaults(req)).value;
    var db1 := Upsert(db, v);
    CheckProductReadsCategories(db, db1, f);
    assert SaveProduct(db1, req).1.status == 201;
    var v2 := SaveSucceeded(db1, req);
    assert v2 == v;
    UpsertIdempotent(db, v);
  }

  /** An existing barcode never changes hands or id: whoever saves it, every
      product already in the table keeps its owner, id, active flag and
      creation time. */
  lemma SaveKeepsOwners(db: Db, req: ProductRequest, p: Product)
    requires WellFormed(db) && p in db.products
    ensures var r := SaveProduct(db, req).0;
      && ProductByBarcode(r.products, p.barcode).Some?
      && var q := ProductByBarcode(r.products, p.barcode).value;
      && q.userId == p.userId && q.productId == p.productId
      && q.isActive == p.isActive && q.createdAt == p.createdAt
  {
    var r := SaveProduct(db, req);
    BarcodeDeterminesRow(db, p);
    if r.1.status == 201 {
      var f := BindProduct(WithDefaults(req)).value;
      var v := CheckProduct(db, f).value;
      UpsertPreservesWellFormed(db, v);
      if v.barcode != p.barcode {
        var q := ProductByBarcode(r.0.products, p.barcode);
        assert p in r.0.products;
        BarcodeDeterminesRow(r.0, p);
      }
    }
  }

  /** A save keeps every table constraint. */
  lemma SavePreservesWellFormed(db: Db, req: ProductRequest)
    requires WellFormed(db)
    ensures WellFormed(SaveProduct(db, req).0)
  {
    if SaveProduct(db, req).1.status == 201 {
      UpsertPreservesWellFormed(db, CheckProduct(db, BindProduct(WithDefaults(req)).value).value);
    }
  }

  // ---------------------------------------------------------------------------
  // getProducts and getProductsByCategory

  /** The rows of a listing, in its order. */
  function Rows(vs: seq<ProductView>): (ps: seq<Product>)
    ensures |ps| == |vs| && forall i :: 0 <= i < |vs| ==> ps[i] == vs[i].row
  {
    seq(|vs|, i requires 0 <= i < |vs| => vs[i].row)
  }

  /** Each row with the name of its category, as the LEFT JOIN pairs them:
      a row keeps its place, and carries a name exactly when its category id
      is the id of a category, which then has that name. */
  function Joined(db: Db, ps: seq<Product>): (vs: seq<ProductView>)
    ensures Rows(vs) == ps
    ensures forall i :: 0 <= i < |vs| ==>
              (vs[i].categoryName.Some? <==>
                 ps[i].categoryId.Some? && ps[i].categoryId.value in CategoryIds(db.categories))
    ensures forall i :: 0 <= i < |vs| && vs[i].categoryName.Some? ==>
              exists c :: c in db.categories && Some(c.id) == ps[i].categoryId
                          && c.name == vs[i].categoryName.value
  {
    seq(|ps|, i requires 0 <= i < |ps| => ProductView(ps[i], CategoryNameOf(db.categories, ps[i].categoryId)))
  }

  /** `ORDER BY created_at DESC`. */
  function NewerFirst(): (Product, Product) -> bool {
    (p: Product, q: Product) => p.createdAt >= q.createdAt
  }

  lemma NewerFirstIsPreorder()
    ensures TotalPreorder(NewerFirst())
  {
  }

  /** The rows `keep` selects, newest first, joined with their category names. */
  function Listing(db: Db, keep: Product -> bool): seq<ProductView> {
    NewerFirstIsPreorder();
    Joined(db, SortBy(Keep(db.products, keep), NewerFirst()))
  }

  /** `r` is a 200 listing of exactly the rows `keep` selects, each as often as
      it is in the table, newest first, with their category names. */
  ghost predicate ListsExactly(r: Response, db: Db, keep: Product -> bool) {
    && r.status == 200 && r.body.ProductList?
    && var vs := r.body.products;
    && (forall i, j :: 0 <= i < j < |vs| ==> vs[i].row.createdAt >= vs[j].row.createdAt)
    && (forall p :: multiset(Rows(vs))[p] == if keep(p) then multiset(db.products)[p] else 0)
    && (forall i :: 0 <= i < |vs| ==> vs[i].categoryName == CategoryNameOf(db.categories, vs[i].row.categoryId))
  }

  lemma ListingListsExactly(db: Db, keep: Product -> bool)
    ensures ListsExactly(Response(200, ProductList(Listing(db, keep))), db, keep)
  {
    NewerFirstIsPreorder();
    var sorted := SortBy(Keep(db.products, keep), NewerFirst());
    assert Rows(Listing(db, keep)) == sorted;
  }

  /** A product the listings of `userId` show: owned by them and active. */
  predicate Listed(userId: string, p: Product) {
    p.userId == userId && p.isActive
  }

  /** `GET` of the owner's products: 401 without an owner, otherwise all of
      the owner's active products, newest first. */
  function ListProducts(db: Db, userId: Option<string>): (r: Response)
    ensures !Given(userId) ==> r == Unauthorized
    ensures Given(userId) ==> ListsExactly(r, db, (p: Product) => Listed(userId.value, p))
  {
    if !Given(userId) then Unauthorized
    else
      var keep := (p: Product) => Listed(userId.value, p);
      ListingListsExactly(db, keep);
      Response(200, ProductList(Listing(db, keep)))
  }

  /** The category parameter restricts the listing when it is non-empty and
      not the text "null". */
  predicate FiltersByCategory(category: Option<string>) {
    Given(category) && category.value != "null"
  }

  /** `GET` of the owner's products in a category. Without a usable category
      parameter it is the plain listing; with one, the parameter is read as
      an integer (500 when it is not one) and only that category's rows are
      listed. */
  function ListProductsByCategory(db: Db, userId: Option<string>, category: Option<string>): (r: Response)
    ensures !Given(userId) ==> r == Unauthorized
    ensures Given(userId) && !FiltersByCategory(category) ==> r == ListProducts(db, userId)
    ensures Given(userId) && FiltersByCategory(category) ==>
      match ParseInt(category.value)
      case Some(k) =>
        if IsInt32(k)
        then ListsExactly(r, db, (p: Product) => Listed(userId.value, p) && p.categoryId == Some(k))
        else r == Response(500, ServerError("Server error", Rejected(NumericOutOfRange("category_id"))))
      case None =>
        r == Response(500, ServerError("Server error", Rejected(InvalidText("category_id"))))
  {
    if !Given(userId) then Unauthorized
    else if !FiltersByCategory(category) then ListProducts(db, userId)
    else
      match ParseInt(category.value)
      case None => Response(500, ServerError("Server error", Rejected(InvalidText("category_id"))))
      case Some(k) =>
        if !IsInt32(k) then
          Response(500, ServerError("Server error", Rejected(NumericOutOfRange("category_id"))))
        else
          var keep := (p: Product) => Listed(userId.value, p) && p.categoryId == Some(k);
          ListingListsExactly(db, keep);
          Response(200, ProductList(Listing(db, keep)))
  }

  /** A filtered listing shows exactly the rows of the plain listing that are
      in the category. */
  lemma CategoryListingIsSubListing(db: Db, userId: string, k: int, p: Product)
    requires userId != "" && IsInt32(k)
    ensures var all := ListProducts(db, Some(userId));
      var some := ListProductsByCategory(db, Some(userId), Some(IntToString(k)));
      && all.body.ProductList? && some.body.ProductList?
      && (p in Rows(some.body.products) <==> p in Rows(all.body.products) && p.categoryId == Some(k))
  {
    ParseIntToString(k);
    var s := IntToString(k);
    assert s != "null" by {
      if k < 0 {
        assert s[0] == '-';
      } else {
        assert IsDigit(s[0]);
      }
    }
    var all := ListProducts(db, Some(userId));
    var some := ListProductsByCategory(db, Some(userId), Some(s));
    assert p in Rows(all.body.products) <==> multiset(Rows(all.body.products))[p] > 0;
    assert p in Rows(some.body.products) <==> multiset(Rows(some.body.products))[p] > 0;
  }

  // ---------------------------------------------------------------------------
  // searchProductByBarcode

  /** The first row with this barcode and owner (the query's `LIMIT 1`). */
  function FindOwned(ps: seq<Product>, barcode: string, userId: string): (r: Option<nat>)
    ensures r.Some? ==> r.value < |ps| && ps[r.value].barcode == barcode && ps[r.value].userId == userId
    ensures r.None? ==> forall p :: p in ps ==> !(p.barcode == barcode && p.userId == userId)
  {
    if ps == [] then None
    else if ps[0].barcode == barcode && ps[0].userId == userId then Some(0)
    else
      match FindOwned(ps[1..], barcode, userId)
      case None => None
      case Some(i) => Some(i + 1)
  }

  /** A row owned by this user with this barcode, whether active or not. */
  predicate HasOwned(db: Db, barcode: string, userId: string) {
    exists p :: p in db.products && p.barcode == barcode && p.userId == userId
  }

  /** Look-up of a scanned barcode for the signed-in user: 401, then 400 for a
      missing barcode, then 404 when the user owns no row with it, otherwise
      200 with that row. The active flag plays no part. */
  function FindByBarcode(db: Db, userId: Option<string>, barcode: Option<string>): (r: Response)
    ensures !Given(userId) ==> r == Unauthorized
    ensures Given(userId) && !Given(barcode) ==> r == Response(400, Message("Barcode is required"))
    ensures Given(userId) && Given(barcode) ==>
      && (r.status == 404 <==> !HasOwned(db, barcode.value, userId.value))
      && (r.status == 404 ==> r.body == Message("Product not found"))
      && (r.status != 404 ==>
            && r.status == 200 && r.body.ProductFound?
            && var v := r.body.found;
            && v.row in db.products && v.row.barcode == barcode.value && v.row.userId == userId.value
            && v.categoryName == CategoryNameOf(db.categories, v.row.categoryId))
  {
    if !Given(userId) then Unauthorized
    else if !Given(barcode) then Response(400, Message("Barcode is required"))
    else
      match FindOwned(db.products, barcode.value, userId.value)
      case None => Response(404, Message("Product not found"))
      case Some(i) =>
        var p := db.products[i];
        Response(200, ProductFound(ProductView(p, CategoryNameOf(db.categories, p.categoryId))))
  }

  /** In a well-formed table the look-up finds every row for its owner, the
      inactive ones included. */
  lemma FindByBarcodeFindsEveryRow(db: Db, p: Product)
    requires WellFormed(db) && p in db.products
    requires p.userId != "" && p.barcode != ""
    ensures FindByBarcode(db, Some(p.userId), Some(p.barcode))
            == Response(200, ProductFound(ProductView(p, CategoryNameOf(db.categories, p.categoryId))))
  {
    BarcodeDeterminesRow(db, p);
  }

  /** What an owner saves under a barcode that is new or already theirs, the
      look-up then returns, under the barcode and owner as their columns
      stored them (the texts themselves when they fit the widths). */
  lemma SavedProductIsFound(db: Db, req: ProductRequest, userId: string, barcode: string)
    requires WellFormed(db)
    requires req.userId == Str(userId) && req.barcode == Str(barcode)
    requires forall p :: p in db.products && Some(p.barcode) == Varchar(barcode, 50) ==>
                           Some(p.userId) == Varchar(userId, 255)
    requires SaveProduct(db, req).1.status == 201
    ensures Varchar(barcode, 50).Some? && Varchar(userId, 255).Some?
    ensures var (db', r) := SaveProduct(db, req);
      var owner := Varchar(userId, 255).value;
      && r.body.product.barcode == Varchar(barcode, 50).value
      && FindByBarcode(db', Some(owner), Some(r.body.product.barcode)).status == 200
      && Returning(FindByBarcode(db', Some(owner), Some(r.body.product.barcode)).body.found.row)
         == r.body.product
  {
    var v := SaveSucceeded(db, req);
    assert Some(v.barcode) == Varchar(barcode, 50) && Some(v.userId) == Varchar(userId, 255);
    UpsertOwnRowIsFound(db, v);
  }

  lemma UpsertOwnRowIsFound(db: Db, v: ProductValues)
    requires WellFormed(db) && Fits(db, v)
    requires v.userId != "" && v.barcode != ""
    requires forall p :: p in db.products && p.barcode == v.barcode ==> p.userId == v.userId
    ensures var r := Upsert(db, v);
      var row := ProductByBarcode(r.products, v.barcode).value;
      FindByBarcode(r, Some(v.userId), Some(v.barcode))
        == Response(200, ProductFound(ProductView(row, CategoryNameOf(r.categories, row.categoryId))))
  {
    var r := Upsert(db, v);
    UpsertPreservesWellFormed(db, v);
    var row := UpsertKeepsOwnership(db, v);
    FindByBarcodeFindsEveryRow(r, row);
  }

  /** A barcode that is new or already the writer's ends up in a row the
      writer owns. */
  lemma UpsertKeepsOwnership(db: Db, v: ProductValues) returns (row: Product)
    requires forall p :: p in db.products && p.barcode == v.barcode ==> p.userId == v.userId
    ensures row == ProductByBarcode(Upsert(db, v).products, v.barcode).value
    ensures row in Upsert(db, v).products && row.userId == v.userId && row.barcode == v.barcode
  {
    var r := Upsert(db, v);
    row := ProductByBarcode(r.products, v.barcode).value;
    match ProductByBarcode(db.products, v.barcode)
    case Some(prev) =>
      assert prev in db.products;
    case None =>
  }

  // ---------------------------------------------------------------------------
  // createCategory and getCategories

  /** `POST` of a category name. A missing, empty or blank name is refused
      with 400; a truthy name that is not a string fails on `trim` with 500.
      Any other name is inserted trimmed. */
  function CreateCategory(db: Db, name: JsValue): (r: (Db, Response))
    ensures r.1.status == 400 <==> !Truthy(name) || (name.Str? && AllWhitespace(name.s))
    ensures r.1.status == 400 ==> r == (db, Response(400, Message("Category name required")))
    ensures Truthy(name) && !name.Str? ==>
              r == (db, Response(500, ServerError("Internal server error", TypeError)))
    ensures Truthy(name) && name.Str? && !AllWhitespace(name.s) ==>
              r == InsertCategory(db, Trim(name.s))
  {
    if !Truthy(name) then (db, Response(400, Message("Category name required")))
    else if !name.Str? then (db, Response(500, ServerError("Internal server error", TypeError)))
    else
      var t := Trim(name.s);
      TrimEmptyIffBlank(name.s);
      if t == "" then (db, Response(400, Message("Category name required")))
      else InsertCategory(db, t)
  }

  /** The insert of a trimmed name and the answer to it. Over 100 characters
      the insert fails (500); otherwise the name is inserted unless that exact
      name exists: 201 with the id and name of the new row, or 200 with those
      of the existing one and no row added. No other table changes. */
  function InsertCategory(db: Db, t: string): (r: (Db, Response))
    ensures r.1.status in {200, 201, 500}
    ensures r.1.status == 500 <==> |t| > 100
    ensures r.1.status == 500 ==>
              r == (db, Response(500, ServerError("Internal server error", Rejected(ValueTooLong("name")))))
    ensures r.1.status in {200, 201} ==> r.1.body.CategorySaved?
    ensures r.1.status == 201 ==>
      && |r.0.categories| == |db.categories| + 1
      && var c := r.0.categories[|db.categories|];
      && c.name == t && c.id == db.nextCategoryId && c.createdAt == db.clock
      && t !in CategoryNames(db.categories)
      && r.0.categories == db.categories + [c]
      && r.1.body.category == IdAndName(c)
    ensures r.1.status == 200 ==>
      && (exists c :: c in db.categories && c.name == t && r.1.body.category == IdAndName(c))
      && r.0.categories == db.categories
    ensures r.1.status != 201 ==> r.0.categories == db.categories
    ensures r.0.products == db.products && r.0.orders == db.orders
    ensures r.0.items == db.items && r.0.movements == db.movements
  {
    if |t| > 100 then
      (db, Response(500, ServerError("Internal server error", Rejected(ValueTooLong("name")))))
    else
      var (db1, added) := AddCategoryRow(db, t, db.clock);
      var db2 := db1.(clock := db.clock + 1);
      match added
      case Some(c) => (db2, Response(201, CategorySaved("Category created", IdAndName(c))))
      case None =>
        var i := FindCategoryByName(db.categories, t).value;
        (db2, Response(200, CategorySaved("Category already exists", IdAndName(db.categories[i]))))
  }

  /** The id and name a successful insert answers with are those of the row
      the name lookup finds afterwards. */
  lemma InsertCategoryReturnsLookup(db: Db, t: string)
    requires InsertCategory(db, t).1.status in {200, 201}
    ensures var (db1, r) := InsertCategory(db, t);
      && FindCategoryByName(db1.categories, t).Some?
      && r.body.category == IdAndName(db1.categories[FindCategoryByName(db1.categories, t).value])
  {
    var (db1, r) := InsertCategory(db, t);
    if r.status == 201 {
      var cs := db1.categories;
      assert CategoryNames(cs)[|cs| - 1] == t;
    }
  }

  /** Inserting a name that is present answers 200 with the id and name of
      the row the lookup finds, and adds no row. */
  lemma InsertPresentCategory(db: Db, t: string)
    requires |t| <= 100 && FindCategoryByName(db.categories, t).Some?
    ensures var (db1, r) := InsertCategory(db, t);
      && r.status == 200
      && r.body.category == IdAndName(db.categories[FindCategoryByName(db.categories, t).value])
      && db1.categories == db.categories
  {
    var i := FindCategoryByName(db.categories, t).value;
    assert CategoryNames(db.categories)[i] == t;
  }

  /** Sending a name again, even with other surrounding whitespace, answers
      200 with the row the first request created or found, and adds none. */
  lemma CreateCategoryTwice(db: Db, first: string, again: string)
    requires Trim(first) == Trim(again)
    requires Trim(first) != "" && |Trim(first)| <= 100
    ensures var (db1, r1) := CreateCategory(db, Str(first));
      var (db2, r2) := CreateCategory(db1, Str(again));
      && r2.status == 200 && r2.body.category == r1.body.category
      && db2.categories == db1.categories
  {
    var t := Trim(first);
    TrimEmptyIffBlank(first);
    CreateCategoryInsertsTrimmed(db, first);
    var db1 := InsertCategory(db, t).0;
    InsertCategoryReturnsLookup(db, t);
    CreateCategoryInsertsTrimmed(db1, again);
    InsertPresentCategory(db1, t);
  }

  /** A string name that is not blank once trimmed is inserted trimmed. */
  lemma CreateCategoryInsertsTrimmed(db: Db, s: string)
    requires Trim(s) != ""
    ensures CreateCategory(db, Str(s)) == InsertCategory(db, Trim(s))
  {
    TrimEmptyIffBlank(s);
  }

  /** A trimmed name ends in a character that is not a space, so VARCHAR(n)
      never cuts it: it is stored whole when it fits and refused otherwise. */
  lemma TrimmedNameIsNeverCut(s: string, n: nat)
    ensures Varchar(Trim(s), n) == if |Trim(s)| <= n then Some(Trim(s)) else None
  {
    var a, b := TrimSlice(s);
    var t := Trim(s);
    if |t| > n {
      assert t[|t| - 1] != ' ';
    }
  }

  /** For a name that is not blank, the 500 of an over-long name is exactly
      the refusal of the trimmed text by the VARCHAR(100) column, and a new
      row holds the trimmed text as the column stores it. */
  lemma CreateCategoryFollowsVarchar(db: Db, s: string)
    requires Trim(s) != ""
    ensures CreateCategory(db, Str(s)).1.status == 500 <==> Varchar(Trim(s), 100).None?
    ensures CreateCategory(db, Str(s)).1.status == 201 ==>
              Varchar(Trim(s), 100) == Some(CreateCategory(db, Str(s)).1.body.category.name)
  {
    CreateCategoryInsertsTrimmed(db, s);
    TrimmedNameIsNeverCut(s, 100);
  }

  /** Creating a category keeps every table constraint. */
  lemma CreateCategoryPreservesWellFormed(db: Db, name: JsValue)
    requires WellFormed(db)
    ensures WellFormed(CreateCategory(db, name).0)
  {
    var r := CreateCategory(db, name).0;
    if r != db {
      var t := Trim(name.s);
      assert r == InsertCategory(db, t).0;
      assert |t| <= 100;
      AddCategoryRowKeepsCategoriesOk(db, t, db.clock);
      CategoriesGrowKeepsWellFormed(db, r);
    }
  }

  /** Byte order of names (the C collation): `a` sorts before or with `b`. */
  predicate NameLe(a: string, b: string) {
    a == [] || (b != [] && (a[0] < b[0] || (a[0] == b[0] && NameLe(a[1..], b[1..]))))
  }

  lemma {:induction false} NameLeTotal(a: string, b: string)
    ensures NameLe(a, b) || NameLe(b, a)
  {
    if a != [] && b != [] && a[0] == b[0] {
      NameLeTotal(a[1..], b[1..]);
    }
  }

  lemma {:induction false} NameLeTransitive(a: string, b: string, c: string)
    requires NameLe(a, b) && NameLe(b, c)
    ensures NameLe(a, c)
  {
    if a != [] && a[0] == b[0] && b[0] == c[0] {
      NameLeTransitive(a[1..], b[1..], c[1..]);
    }
  }

  /** Two names that sort with each other are the same name. */
  lemma {:induction false} NameLeAntisymmetric(a: string, b: string)
    requires NameLe(a, b) && NameLe(b, a)
    ensures a == b
  {
    if a != [] {
      NameLeAntisymmetric(a[1..], b[1..]);
      assert a == [a[0]] + a[1..] && b == [b[0]] + b[1..];
    }
  }

  /** `ORDER BY name ASC`. */
  function ByName(): (Category, Category) -> bool {
    (x: Category, y: Category) => NameLe(x.name, y.name)
  }

  lemma ByNameIsPreorder()
    ensures TotalPreorder(ByName())
  {
    forall x: Category, y: Category
      ensures ByName()(x, y) || ByName()(y, x)
    {
      NameLeTotal(x.name, y.name);
    }
    forall x: Category, y: Category, z: Category | ByName()(x, y) && ByName()(y, z)
      ensures ByName()(x, z)
    {
      NameLeTransitive(x.name, y.name, z.name);
    }
  }

  /** `GET` of the categories: every row once, in ascending name order. */
  function ListCategories(db: Db): (r: Response)
    ensures r.status == 200 && r.body.CategoryList?
    ensures SortedBy(r.body.categories, ByName())
    ensures multiset(r.body.categories) == multiset(db.categories)
  {
    ByNameIsPreorder();
    Response(200, CategoryList(SortBy(db.categories, ByName())))
  }

  /** Category names are unique, so `ORDER BY name` leaves no choice: the
      listing is the one ordering of the table sorted by name. */
  lemma CategoryListingIsDetermined(db: Db, s: seq<Category>)
    requires CategoriesOk(db)
    requires SortedBy(s, ByName()) && multiset(s) == multiset(db.categories)
    ensures s == ListCategories(db).body.categories
  {
    forall x, y | x in s && y in s && ByName()(x, y) && ByName()(y, x)
      ensures x == y
    {
      NameLeAntisymmetric(x.name, y.name);
      assert x in multiset(db.categories) && y in multiset(db.categories);
      var i :| 0 <= i < |db.categories| && db.categories[i] == x;
      var j :| 0 <= j < |db.categories| && db.categories[j] == y;
      assert i == j;
    }
    SortedPermutationUnique(s, ListCategories(db).body.categories, ByName());
  }
}
