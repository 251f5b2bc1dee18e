/** The five catalog tables of `initDB` and the rules the database enforces on
    them: column types and widths, NOT NULL, UNIQUE, CHECK, foreign keys with
    their delete rules, and serial and generated identifiers. */
module Schema {
  import opened Common
  import opened Seqs

  // ---------------------------------------------------------------------------
  // Column domains

  const MinInt32: int := -0x8000_0000
  const MaxInt32: int := 0x7FFF_FFFF

  /** DECIMAL(10,2) holds magnitudes below 10^8, that is below 10^10 cents. */
  const DecimalLimit: int := 10_000_000_000

  predicate IsInt32(n: int) {
    MinInt32 <= n <= MaxInt32
  }

  predicate IsDecimal10x2(cents: int) {
    -DecimalLimit < cents < DecimalLimit
  }

  /** Assignment to VARCHAR(n): a text of at most n characters is stored as
      it is; a longer one is cut to its first n characters when everything
      past them is a space (U+0020), and refused otherwise. */
  function Varchar(s: string, n: nat): (r: Option<string>)
    ensures r.Some? <==> |s| <= n || forall i :: n <= i < |s| ==> s[i] == ' '
    ensures r.Some? ==> r.value <= s && |r.value| == (if |s| <= n then |s| else n)
    ensures r.Some? ==> forall i :: |r.value| <= i < |s| ==> s[i] == ' '
  {
    if |s| <= n then Some(s)
    else if forall i :: n <= i < |s| ==> s[i] == ' ' then Some(s[..n])
    else None
  }

  /** The `unit_type` CHECK list. */
  datatype UnitType = Pcs | Pack | Box | Kg | G | L | ML | Dozen

  function UnitTypeName(u: UnitType): string {
    match u
    case Pcs => "pcs"
    case Pack => "pack"
    case Box => "box"
    case Kg => "kg"
    case G => "g"
    case L => "L"
    case ML => "mL"
    case Dozen => "dozen"
  }

  /** The CHECK on `unit_type`: a stored text is one of the eight names, compared
      case-sensitively. */
  function ParseUnitType(s: string): (r: Option<UnitType>)
    ensures r.Some? ==> UnitTypeName(r.value) == s
    ensures r.None? ==> forall u: UnitType :: UnitTypeName(u) != s
  {
    if s == "pcs" then Some(Pcs)
    else if s == "pack" then Some(Pack)
    else if s == "box" then Some(Box)
    else if s == "kg" then Some(Kg)
    else if s == "g" then Some(G)
    else if s == "L" then Some(L)
    else if s == "mL" then Some(ML)
    else if s == "dozen" then Some(Dozen)
    else None
  }

  /** The `type` CHECK list of `stock_movements`. */
  datatype MovementType = AddStock | Return | Adjustment | Wastage

  function MovementTypeName(t: MovementType): string {
    match t
    case AddStock => "add_stock"
    case Return => "return"
    case Adjustment => "adjustment"
    case Wastage => "wastage"
  }

  function ParseMovementType(s: string): (r: Option<MovementType>)
    ensures r.Some? ==> MovementTypeName(r.value) == s
    ensures r.None? ==> forall t: MovementType :: MovementTypeName(t) != s
  {
    if s == "add_stock" then Some(AddStock)
    else if s == "return" then Some(Return)
    else if s == "adjustment" then Some(Adjustment)
    else if s == "wastage" then Some(Wastage)
    else None
  }

  /** The statement errors the tables can raise. */
  datatype DbError =
    | NotNullViolation(column: string)
    | ValueTooLong(column: string)
    | NumericOutOfRange(column: string)
    | InvalidText(column: string)
    | CheckViolation(column: string)
    | ForeignKeyViolation(column: string)

  // ---------------------------------------------------------------------------
  // Rows. Identifiers are naturals; timestamps are ticks of `Db.clock`; money
  // is in cents; a nullable column is an `Option`, except `is_active`, which
  // no modelled statement sets to NULL (an insert takes its default, true).

  datatype Category = Category(id: nat, name: string, createdAt: nat)

  datatype Product = Product(
    productId: nat,
    barcode: string,
    name: string,
    categoryId: Option<nat>,
    unitType: UnitType,
    purchaseCost: Option<int>,
    sellingPrice: int,
    currentStock: Option<int>,
    image: Option<string>,
    isActive: bool,
    userId: string,
    createdAt: nat,
    updatedAt: nat)

  datatype SalesOrder = SalesOrder(
    id: nat, userId: string, totalAmount: int, paymentMethod: Option<string>, createdAt: nat)

  datatype SalesItem = SalesItem(
    id: nat, orderId: nat, productId: nat, quantity: int,
    unitSellingPrice: int, lineTotal: int, createdAt: nat)

  datatype StockMovement = StockMovement(
    id: nat, productId: nat, kind: MovementType, quantity: int,
    reason: Option<string>, userId: string, createdAt: nat)

  /** The database: the tables, the next value of each identifier sequence,
      and a clock that advances with every insert and update statement;
      a delete writes no timestamp and leaves it as it is. */
  datatype Db = Db(
    categories: seq<Category>,
    products: seq<Product>,
    orders: seq<SalesOrder>,
    items: seq<SalesItem>,
    movements: seq<StockMovement>,
    nextCategoryId: nat,
    nextProductId: nat,
    nextOrderId: nat,
    nextItemId: nat,
    nextMovementId: nat,
    clock: nat)

  function EmptyDb(): Db {
    Db([], [], [], [], [], 1, 1, 1, 1, 1, 0)
  }

  // ---------------------------------------------------------------------------
  // Key columns

  function CategoryIds(cs: seq<Category>): (ks: seq<nat>)
    ensures |ks| == |cs| && forall i :: 0 <= i < |cs| ==> ks[i] == cs[i].id
  {
    seq(|cs|, i requires 0 <= i < |cs| => cs[i].id)
  }

  function CategoryNames(cs: seq<Category>): (ks: seq<string>)
    ensures |ks| == |cs| && forall i :: 0 <= i < |cs| ==> ks[i] == cs[i].name
  {
    seq(|cs|, i requires 0 <= i < |cs| => cs[i].name)
  }

  function Barcodes(ps: seq<Product>): (ks: seq<string>)
    ensures |ks| == |ps| && forall i :: 0 <= i < |ps| ==> ks[i] == ps[i].barcode
  {
    seq(|ps|, i requires 0 <= i < |ps| => ps[i].barcode)
  }

  function ProductIds(ps: seq<Product>): (ks: seq<nat>)
    ensures |ks| == |ps| && forall i :: 0 <= i < |ps| ==> ks[i] == ps[i].productId
  {
    seq(|ps|, i requires 0 <= i < |ps| => ps[i].productId)
  }

  function OrderIds(os: seq<SalesOrder>): (ks: seq<nat>)
    ensures |ks| == |os| && forall i :: 0 <= i < |os| ==> ks[i] == os[i].id
  {
    seq(|os|, i requires 0 <= i < |os| => os[i].id)
  }

  // ---------------------------------------------------------------------------
  // Well-formedness: everything the CREATE TABLE statements guarantee of
  // every reachable state.

  predicate ValidCategory(c: Category) {
    |c.name| <= 100
  }

  predicate ValidProduct(p: Product) {
    && |p.barcode| <= 50
    && |p.name| <= 255
    && (p.purchaseCost.Some? ==> IsDecimal10x2(p.purchaseCost.value))
    && IsDecimal10x2(p.sellingPrice)
    && (p.currentStock.Some? ==> IsInt32(p.currentStock.value))
    && |p.userId| <= 255
  }

  predicate ValidOrder(o: SalesOrder) {
    && |o.userId| <= 255
    && IsDecimal10x2(o.totalAmount)
    && (o.paymentMethod.Some? ==> |o.paymentMethod.value| <= 50)
  }

  predicate ValidItem(x: SalesItem) {
    && 0 < x.quantity && IsInt32(x.quantity)
    && IsDecimal10x2(x.unitSellingPrice)
    && IsDecimal10x2(x.lineTotal)
  }

  predicate ValidMovement(m: StockMovement) {
    && IsInt32(m.quantity)
    && |m.userId| <= 255
  }

  /** `categories`: names unique and at most 100 characters, serial ids. */
  predicate CategoriesOk(db: Db) {
    && (forall c :: c in db.categories ==> ValidCategory(c) && c.id < db.nextCategoryId)
    && KeysDistinct(db.categories, (c: Category) => c.id)
    && KeysDistinct(db.categories, (c: Category) => c.name)
  }

  /** `products`: barcode unique, generated ids, and `category_id` either null
      or the id of an existing category. */
  predicate ProductsOk(db: Db) {
    && (forall p :: p in db.products ==>
          && ValidProduct(p)
          && p.productId < db.nextProductId
          && (p.categoryId.Some? ==> p.categoryId.value in CategoryIds(db.categories)))
    && KeysDistinct(db.products, (p: Product) => p.barcode)
    && KeysDistinct(db.products, (p: Product) => p.productId)
  }

  predicate OrdersOk(db: Db) {
    && (forall o :: o in db.orders ==> ValidOrder(o) && o.id < db.nextOrderId)
    && KeysDistinct(db.orders, (o: SalesOrder) => o.id)
  }

  /** `sales_items`: positive quantity, and both references resolve. */
  predicate ItemsOk(db: Db) {
    && (forall x :: x in db.items ==>
          && ValidItem(x)
          && x.id < db.nextItemId
          && x.orderId in OrderIds(db.orders)
          && x.productId in ProductIds(db.products))
    && KeysDistinct(db.items, (x: SalesItem) => x.id)
  }

  /** `stock_movements`: the product reference resolves. */
  predicate MovementsOk(db: Db) {
    && (forall m :: m in db.movements ==>
          && ValidMovement(m)
          && m.id < db.nextMovementId
          && m.productId in ProductIds(db.products))
    && KeysDistinct(db.movements, (m: StockMovement) => m.id)
  }

  predicate WellFormed(db: Db) {
    CategoriesOk(db) && ProductsOk(db) && OrdersOk(db) && ItemsOk(db) && MovementsOk(db)
  }

  lemma EmptyWellFormed()
    ensures WellFormed(EmptyDb())
  {
  }

  /** Changing only `products` (with its id source and the clock) keeps the
      other tables' constraints, provided no product id disappears. */
  lemma ProductsChangeKeepsOthers(db: Db, r: Db)
    requires WellFormed(db)
    requires r == db.(products := r.products, nextProductId := r.nextProductId, clock := r.clock)
    requires forall id :: id in ProductIds(db.products) ==> id in ProductIds(r.products)
    ensures CategoriesOk(r) && OrdersOk(r) && ItemsOk(r) && MovementsOk(r)
  {
    assert CategoriesOk(r) && OrdersOk(r);
  }

  // ---------------------------------------------------------------------------
  // Lookups

  /** The position of the row with this barcode (the last one, should there be
      several). */
  function FindProduct(ps: seq<Product>, barcode: string): (r: Option<nat>)
    ensures r.Some? ==> r.value < |ps| && ps[r.value].barcode == barcode
    ensures r.Some? ==> forall j :: r.value < j < |ps| ==> ps[j].barcode != barcode
    ensures r.None? ==> barcode !in Barcodes(ps)
  {
    if ps == [] then None
    else if ps[|ps| - 1].barcode == barcode then Some(|ps| - 1)
    else
      var r := FindProduct(ps[..|ps| - 1], barcode);
      assert Barcodes(ps) == Barcodes(ps[..|ps| - 1]) + [ps[|ps| - 1].barcode];
      r
  }

  function ProductByBarcode(ps: seq<Product>, barcode: string): Option<Product> {
    match FindProduct(ps, barcode)
    case None => None
    case Some(i) => Some(ps[i])
  }

  /** With barcodes unique the table is a partial function from barcode to
      row: a barcode names at most one row, and the lookup finds it. */
  lemma BarcodeDeterminesRow(db: Db, p: Product)
    requires WellFormed(db)
    requires p in db.products
    ensures ProductByBarcode(db.products, p.barcode) == Some(p)
    ensures forall q :: q in db.products && q.barcode == p.barcode ==> q == p
  {
    var ps := db.products;
    var i := FindProduct(ps, p.barcode).value;
    forall q | q in ps && q.barcode == p.barcode
      ensures q == ps[i]
    {
      var j :| 0 <= j < |ps| && ps[j] == q;
    }
  }

  /** The position of the category with this exact name. */
  function FindCategoryByName(cs: seq<Category>, name: string): (r: Option<nat>)
    ensures r.Some? ==> r.value < |cs| && cs[r.value].name == name
    ensures r.None? ==> name !in CategoryNames(cs)
  {
    if cs == [] then None
    else if cs[|cs| - 1].name == name then Some(|cs| - 1)
    else
      var r := FindCategoryByName(cs[..|cs| - 1], name);
      assert CategoryNames(cs) == CategoryNames(cs[..|cs| - 1]) + [cs[|cs| - 1].name];
      r
  }

  /** The name of the category with this id, as a LEFT JOIN gives it. */
  function CategoryNameOf(cs: seq<Category>, id: Option<nat>): (r: Option<string>)
    ensures r.Some? <==> id.Some? && id.value in CategoryIds(cs)
    ensures r.Some? ==> exists c :: c in cs && c.id == id.value && c.name == r.value
  {
    if id.None? || cs == [] then None
    else if cs[|cs| - 1].id == id.value then Some(cs[|cs| - 1].name)
    else
      assert CategoryIds(cs) == CategoryIds(cs[..|cs| - 1]) + [cs[|cs| - 1].id];
      var r := CategoryNameOf(cs[..|cs| - 1], id);
      assert r.Some? ==> exists c :: c in cs[..|cs| - 1] && c.id == id.value && c.name == r.value;
      r
  }
}
