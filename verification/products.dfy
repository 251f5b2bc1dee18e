/** The `products` write the catalog performs: `INSERT ... ON CONFLICT (barcode)
    DO UPDATE`, with the column constraints the database checks first. */
module ProductTable {
  import opened Common
  import opened Seqs
  import opened Schema

  /** The VALUES of the insert as the database receives them; `None` is NULL. */
  datatype ProductInput = ProductInput(
    barcode: Option<string>,
    name: Option<string>,
    categoryId: Option<int>,
    unitType: Option<string>,
    purchaseCost: Option<int>,
    sellingPrice: Option<int>,
    currentStock: Option<int>,
    image: Option<string>,
    userId: Option<string>)

  /** A row's worth of values that the column types can hold. */
  datatype ProductValues = ProductValues(
    barcode: string,
    name: string,
    categoryId: nat,
    unitType: UnitType,
    purchaseCost: Option<int>,
    sellingPrice: int,
    currentStock: Option<int>,
    image: Option<string>,
    userId: string)

  /** `v` is what `f` denotes once each text and number is read into its
      column: a VARCHAR text as `Varchar` stores it, `unit_type` after that
      as one of the CHECK names. */
  predicate Denotes(v: ProductValues, f: ProductInput) {
    && f.barcode.Some? && Varchar(f.barcode.value, 50) == Some(v.barcode)
    && f.name.Some? && Varchar(f.name.value, 255) == Some(v.name)
    && f.categoryId == Some(v.categoryId as int)
    && f.unitType.Some? && Varchar(f.unitType.value, 20) == Some(UnitTypeName(v.unitType))
    && f.purchaseCost == v.purchaseCost
    && f.sellingPrice == Some(v.sellingPrice)
    && f.currentStock == v.currentStock
    && f.image == v.image
    && f.userId.Some? && Varchar(f.userId.value, 255) == Some(v.userId)
  }

  /** The constraints of `products` on one written row: widths, numeric ranges,
      and the foreign key to `categories`. */
  predicate Fits(db: Db, v: ProductValues) {
    && |v.barcode| <= 50
    && |v.name| <= 255
    && IsInt32(v.categoryId)
    && v.categoryId in CategoryIds(db.categories)
    && (v.purchaseCost.Some? ==> IsDecimal10x2(v.purchaseCost.value))
    && IsDecimal10x2(v.sellingPrice)
    && (v.currentStock.Some? ==> IsInt32(v.currentStock.value))
    && |v.userId| <= 255
  }

  /** The database's checks on the inserted tuple. The statement goes through
      exactly when some row that fits the table denotes the input, and then
      that row is the one written. */
  function CheckProduct(db: Db, f: ProductInput): (r: Result<ProductValues, DbError>)
    ensures r.Ok? ==> Fits(db, r.value) && Denotes(r.value, f)
    ensures r.Err? ==> forall v :: Denotes(v, f) ==> !Fits(db, v)
  {
    if f.barcode.None? then Err(NotNullViolation("barcode"))
    else if Varchar(f.barcode.value, 50).None? then Err(ValueTooLong("barcode"))
    else if f.name.None? then Err(NotNullViolation("name"))
    else if Varchar(f.name.value, 255).None? then Err(ValueTooLong("name"))
    else if f.categoryId.None? then Err(NotNullViolation("category_id"))
    else if !IsInt32(f.categoryId.value) then Err(NumericOutOfRange("category_id"))
    else if f.unitType.None? then Err(NotNullViolation("unit_type"))
    else if Varchar(f.unitType.value, 20).None? then Err(ValueTooLong("unit_type"))
    else if ParseUnitType(Varchar(f.unitType.value, 20).value).None? then Err(CheckViolation("unit_type"))
    else if f.purchaseCost.Some? && !IsDecimal10x2(f.purchaseCost.value) then Err(NumericOutOfRange("purchase_cost"))
    else if f.sellingPrice.None? then Err(NotNullViolation("selling_price"))
    else if !IsDecimal10x2(f.sellingPrice.value) then Err(NumericOutOfRange("selling_price"))
    else if f.currentStock.Some? && !IsInt32(f.currentStock.value) then Err(NumericOutOfRange("current_stock"))
    else if f.userId.None? then Err(NotNullViolation("user_id"))
    else if Varchar(f.userId.value, 255).None? then Err(ValueTooLong("user_id"))
    else if f.categoryId.value !in CategoryIds(db.categories) then Err(ForeignKeyViolation("category_id"))
    else
      Ok(ProductValues(
        Varchar(f.barcode.value, 50).value, Varchar(f.name.value, 255).value,
        f.categoryId.value as nat, ParseUnitType(Varchar(f.unitType.value, 20).value).value,
        f.purchaseCost, f.sellingPrice.value, f.currentStock, f.image,
        Varchar(f.userId.value, 255).value))
  }

  /** Cutting a `unit_type` text to VARCHAR(20) never makes an unknown unit
      a known one: a cut text has 20 characters and no unit name has. */
  lemma UnknownUnitStaysUnknown(u: string)
    requires ParseUnitType(u).None?
    ensures Varchar(u, 20).Some? ==> ParseUnitType(Varchar(u, 20).value).None?
  {
    if Varchar(u, 20).Some? && |u| > 20 {
      var x := Varchar(u, 20).value;
      assert |x| == 20;
      forall t: UnitType
        ensures UnitTypeName(t) != x
      {
        assert |UnitTypeName(t)| <= 5;
      }
    }
  }

  /** The row holds every column the statement writes, with these values. */
  predicate Carries(p: Product, v: ProductValues) {
    && p.barcode == v.barcode
    && p.name == v.name
    && p.categoryId == Some(v.categoryId)
    && p.unitType == v.unitType
    && p.purchaseCost == v.purchaseCost
    && p.sellingPrice == v.sellingPrice
    && p.currentStock == v.currentStock
    && p.image == v.image
  }

  /** The DO UPDATE SET list: the written columns and `updated_at`. */
  function Overwrite(p: Product, v: ProductValues, now: nat): Product {
    p.(name := v.name, categoryId := Some(v.categoryId), unitType := v.unitType,
       purchaseCost := v.purchaseCost, sellingPrice := v.sellingPrice,
       currentStock := v.currentStock, image := v.image, updatedAt := now)
  }

  /** The insert-or-update on `barcode`. A new barcode gets a fresh row owned
      by the writer and active; a known barcode has exactly the written columns
      and `updated_at` replaced, whoever owns it, and keeps its id, owner,
      active flag and creation time. No other row changes. */
  function Upsert(db: Db, v: ProductValues): (r: Db)
    ensures ProductByBarcode(r.products, v.barcode).Some?
    ensures var row := ProductByBarcode(r.products, v.barcode).value;
      && Carries(row, v)
      && row.updatedAt == db.clock
      && match ProductByBarcode(db.products, v.barcode)
         case Some(prev) =>
           && row.productId == prev.productId && row.userId == prev.userId
           && row.isActive == prev.isActive && row.createdAt == prev.createdAt
         case None =>
           && row.userId == v.userId && row.isActive
           && row.productId == db.nextProductId && row.createdAt == db.clock
    ensures |r.products| == |db.products| + (if v.barcode in Barcodes(db.products) then 0 else 1)
    ensures forall p: Product :: p.barcode != v.barcode ==> (p in r.products <==> p in db.products)
    ensures r.categories == db.categories && r.orders == db.orders
    ensures r.items == db.items && r.movements == db.movements
    ensures r.clock == db.clock + 1 && r.nextProductId >= db.nextProductId
  {
    var now := db.clock;
    match FindProduct(db.products, v.barcode)
    case None =>
      var row := Product(db.nextProductId, v.barcode, v.name, Some(v.categoryId), v.unitType,
                         v.purchaseCost, v.sellingPrice, v.currentStock, v.image,
                         true, v.userId, now, now);
      var ps := db.products + [row];
      assert ps[..|ps| - 1] == db.products;
      db.(products := ps, nextProductId := db.nextProductId + 1, clock := now + 1)
    case Some(i) =>
      var ps := db.products[i := Overwrite(db.products[i], v, now)];
      assert Barcodes(ps) == Barcodes(db.products);
      db.(products := ps, clock := now + 1)
  }

  /** A new row with an unused barcode and a fresh id keeps `products` valid. */
  lemma AppendKeepsProductsOk(db: Db, row: Product, r: Db)
    requires ProductsOk(db)
    requires ValidProduct(row) && row.barcode !in Barcodes(db.products)
    requires row.productId == db.nextProductId
    requires row.categoryId.Some? ==> row.categoryId.value in CategoryIds(db.categories)
    requires r == db.(products := db.products + [row], nextProductId := db.nextProductId + 1, clock := r.clock)
    ensures ProductsOk(r)
    ensures ProductIds(r.products) == ProductIds(db.products) + [row.productId]
  {
    assert ProductIds(r.products) == ProductIds(db.products) + [row.productId];
    forall i | 0 <= i < |db.products|
      ensures db.products[i].productId != row.productId && db.products[i].barcode != row.barcode
    {
      assert db.products[i] in db.products;
      assert Barcodes(db.products)[i] == db.products[i].barcode;
    }
  }

  /** Replacing a row by one with the same barcode and id keeps `products` valid. */
  lemma ReplaceKeepsProductsOk(db: Db, i: nat, row: Product, r: Db)
    requires ProductsOk(db) && i < |db.products|
    requires ValidProduct(row)
    requires row.barcode == db.products[i].barcode && row.productId == db.products[i].productId
    requires row.categoryId.Some? ==> row.categoryId.value in CategoryIds(db.categories)
    requires r == db.(products := db.products[i := row], clock := r.clock)
    ensures ProductsOk(r)
    ensures ProductIds(r.products) == ProductIds(db.products)
  {
    assert ProductIds(r.products) == ProductIds(db.products);
    forall p | p in r.products
      ensures ValidProduct(p) && p.productId < r.nextProductId
      ensures p.categoryId.Some? ==> p.categoryId.value in CategoryIds(r.categories)
    {
      var k :| 0 <= k < |r.products| && r.products[k] == p;
      assert db.products[k] in db.products;
    }
  }

  /** Writing a row that fits keeps every table constraint: in particular the
      barcode stays unique and the references into `products` stay valid. */
  lemma UpsertPreservesWellFormed(db: Db, v: ProductValues)
    requires WellFormed(db) && Fits(db, v)
    ensures WellFormed(Upsert(db, v))
  {
    var r := Upsert(db, v);
    match FindProduct(db.products, v.barcode)
    case None =>
      AppendKeepsProductsOk(db, r.products[|r.products| - 1], r);
      ProductsChangeKeepsOthers(db, r);
    case Some(i) =>
      ReplaceKeepsProductsOk(db, i, r.products[i], r);
      ProductsChangeKeepsOthers(db, r);
  }

  /** Two rows that differ at most in `updated_at`. */
  predicate SameButUpdatedAt(p: Product, q: Product) {
    p.(updatedAt := 0) == q.(updatedAt := 0)
  }

  /** Submitting the same values twice gives the table that submitting them
      once gives, up to the second `updated_at`. */
  lemma UpsertIdempotent(db: Db, v: ProductValues)
    ensures var once := Upsert(db, v); var twice := Upsert(once, v);
      && |twice.products| == |once.products|
      && (forall k :: 0 <= k < |once.products| ==> SameButUpdatedAt(twice.products[k], once.products[k]))
      && twice.categories == once.categories && twice.orders == once.orders
      && twice.items == once.items && twice.movements == once.movements
  {
    var once := Upsert(db, v);
    var i := FindProduct(once.products, v.barcode).value;
    assert Upsert(once, v).products == once.products[i := Overwrite(once.products[i], v, once.clock)];
  }

  /** The same barcode submitted twice leaves exactly one row for it, holding
      the later values; the owner stays whoever first created the row. */
  lemma UpsertConverges(db: Db, v1: ProductValues, v2: ProductValues)
    requires WellFormed(db) && Fits(db, v1) && Fits(db, v2)
    requires v1.barcode == v2.barcode
    ensures var r := Upsert(Upsert(db, v1), v2);
      && ProductByBarcode(r.products, v2.barcode).Some?
      && var row := ProductByBarcode(r.products, v2.barcode).value;
      && Carries(row, v2)
      && (forall p :: p in r.products && p.barcode == v2.barcode ==> p == row)
      && row.userId == (match ProductByBarcode(db.products, v1.barcode)
                        case Some(prev) => prev.userId
                        case None => v1.userId)
  {
    var db1 := Upsert(db, v1);
    UpsertPreservesWellFormed(db, v1);
    UpsertPreservesWellFormed(db1, v2);
    var r := Upsert(db1, v2);
    BarcodeDeterminesRow(r, ProductByBarcode(r.products, v2.barcode).value);
  }
}
