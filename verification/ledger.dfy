/** The sales and stock tables. No handler writes them; what is modelled is
    what the tables themselves guarantee: the constraints an insert must meet,
    and the delete rules of the references between them and `products`. */
module LedgerTables {
  import opened Common
  import opened Seqs
  import opened Schema

  /** A row's id is among the table's ids. */
  lemma ProductIdOf(ps: seq<Product>, p: Product)
    requires p in ps
    ensures p.productId in ProductIds(ps)
  {
    var k :| 0 <= k < |ps| && ps[k] == p;
    assert ProductIds(ps)[k] == p.productId;
  }

  lemma OrderIdOf(os: seq<SalesOrder>, o: SalesOrder)
    requires o in os
    ensures o.id in OrderIds(os)
  {
    var k :| 0 <= k < |os| && os[k] == o;
    assert OrderIds(os)[k] == o.id;
  }

  // ---------------------------------------------------------------------------
  // Inserts: the column constraints decide; `None` is NULL.

  /** `INSERT INTO sales_orders`: owner and total are required, the total
      fits DECIMAL(10,2), and the owner and payment method are stored as
      VARCHAR(255) and VARCHAR(50) store them. */
  function InsertOrder(db: Db, userId: Option<string>, totalAmount: Option<int>,
                       paymentMethod: Option<string>): (r: Result<(Db, SalesOrder), DbError>)
    ensures r.Ok? <==> && userId.Some? && Varchar(userId.value, 255).Some?
                       && totalAmount.Some? && IsDecimal10x2(totalAmount.value)
                       && (paymentMethod.Some? ==> Varchar(paymentMethod.value, 50).Some?)
    ensures r.Ok? ==> var (db', o) := r.value;
      && db'.orders == db.orders + [o]
      && o.id == db.nextOrderId
      && Some(o.userId) == Varchar(userId.value, 255) && Some(o.totalAmount) == totalAmount
      && (paymentMethod.None? ==> o.paymentMethod.None?)
      && (paymentMethod.Some? ==> o.paymentMethod == Varchar(paymentMethod.value, 50))
      && db' == db.(orders := db'.orders, nextOrderId := db'.nextOrderId, clock := db'.clock)
  {
    if userId.None? then Err(NotNullViolation("user_id"))
    else if Varchar(userId.value, 255).None? then Err(ValueTooLong("user_id"))
    else if totalAmount.None? then Err(NotNullViolation("total_amount"))
    else if !IsDecimal10x2(totalAmount.value) then Err(NumericOutOfRange("total_amount"))
    else if paymentMethod.Some? && Varchar(paymentMethod.value, 50).None? then
      Err(ValueTooLong("payment_method"))
    else
      var payment := if paymentMethod.Some? then Varchar(paymentMethod.value, 50) else None;
      var o := SalesOrder(db.nextOrderId, Varchar(userId.value, 255).value, totalAmount.value,
                          payment, db.clock);
      Ok((db.(orders := db.orders + [o], nextOrderId := db.nextOrderId + 1, clock := db.clock + 1), o))
  }

  lemma InsertOrderPreservesWellFormed(db: Db, userId: Option<string>, totalAmount: Option<int>,
                                       paymentMethod: Option<string>)
    requires WellFormed(db)
    requires InsertOrder(db, userId, totalAmount, paymentMethod).Ok?
    ensures WellFormed(InsertOrder(db, userId, totalAmount, paymentMethod).value.0)
  {
    var (r, o) := InsertOrder(db, userId, totalAmount, paymentMethod).value;
    forall k | 0 <= k < |db.orders|
      ensures db.orders[k].id != o.id
    {
      assert db.orders[k] in db.orders;
    }
    assert OrderIds(r.orders) == OrderIds(db.orders) + [o.id];
    forall x | x in r.items
      ensures x.orderId in OrderIds(r.orders)
    {
    }
  }

  /** `INSERT INTO sales_items`: every column required, `quantity > 0`, and
      both the order and the product must exist. */
  function InsertSalesItem(db: Db, orderId: Option<int>, productId: Option<int>,
                           quantity: Option<int>, unitSellingPrice: Option<int>,
                           lineTotal: Option<int>): (r: Result<(Db, SalesItem), DbError>)
    ensures r.Ok? <==> && orderId.Some? && orderId.value in OrderIds(db.orders)
                       && productId.Some? && productId.value in ProductIds(db.products)
                       && quantity.Some? && IsInt32(quantity.value) && quantity.value > 0
                       && unitSellingPrice.Some? && IsDecimal10x2(unitSellingPrice.value)
                       && lineTotal.Some? && IsDecimal10x2(lineTotal.value)
    ensures r.Ok? ==> var (db', x) := r.value;
      && db'.items == db.items + [x]
      && x.id == db.nextItemId
      && Some(x.orderId as int) == orderId && Some(x.productId as int) == productId
      && Some(x.quantity) == quantity && Some(x.unitSellingPrice) == unitSellingPrice
      && Some(x.lineTotal) == lineTotal
      && db' == db.(items := db'.items, nextItemId := db'.nextItemId, clock := db'.clock)
  {
    if orderId.None? then Err(NotNullViolation("order_id"))
    else if productId.None? then Err(NotNullViolation("product_id"))
    else if quantity.None? then Err(NotNullViolation("quantity"))
    else if !IsInt32(quantity.value) then Err(NumericOutOfRange("quantity"))
    else if quantity.value <= 0 then Err(CheckViolation("quantity"))
    else if unitSellingPrice.None? then Err(NotNullViolation("unit_selling_price"))
    else if !IsDecimal10x2(unitSellingPrice.value) then Err(NumericOutOfRange("unit_selling_price"))
    else if lineTotal.None? then Err(NotNullViolation("line_total"))
    else if !IsDecimal10x2(lineTotal.value) then Err(NumericOutOfRange("line_total"))
    else if orderId.value !in OrderIds(db.orders) then Err(ForeignKeyViolation("order_id"))
    else if productId.value !in ProductIds(db.products) then Err(ForeignKeyViolation("product_id"))
    else
      var x := SalesItem(db.nextItemId, orderId.value as nat, productId.value as nat, quantity.value,
                         unitSellingPrice.value, lineTotal.value, db.clock);
      Ok((db.(items := db.items + [x], nextItemId := db.nextItemId + 1, clock := db.clock + 1), x))
  }

  lemma InsertSalesItemPreservesWellFormed(db: Db, orderId: Option<int>, productId: Option<int>,
                                           quantity: Option<int>, unitSellingPrice: Option<int>,
                                           lineTotal: Option<int>)
    requires WellFormed(db)
    requires InsertSalesItem(db, orderId, productId, quantity, unitSellingPrice, lineTotal).Ok?
    ensures WellFormed(InsertSalesItem(db, orderId, productId, quantity, unitSellingPrice, lineTotal).value.0)
  {
    var (r, x) := InsertSalesItem(db, orderId, productId, quantity, unitSellingPrice, lineTotal).value;
    forall k | 0 <= k < |db.items|
      ensures db.items[k].id != x.id
    {
      assert db.items[k] in db.items;
    }
  }

  /** `INSERT INTO stock_movements`: the type, as VARCHAR(20) stores it, is
      one of the four names, the quantity any 32-bit integer, the owner is
      stored as VARCHAR(255) stores it, and the product must exist. */
  function InsertStockMovement(db: Db, productId: Option<int>, kind: Option<string>,
                               quantity: Option<int>, reason: Option<string>,
                               userId: Option<string>): (r: Result<(Db, StockMovement), DbError>)
    ensures r.Ok? <==> && productId.Some? && productId.value in ProductIds(db.products)
                       && kind.Some? && Varchar(kind.value, 20).Some?
                       && ParseMovementType(Varchar(kind.value, 20).value).Some?
                       && quantity.Some? && IsInt32(quantity.value)
                       && userId.Some? && Varchar(userId.value, 255).Some?
    ensures r.Ok? ==> var (db', m) := r.value;
      && db'.movements == db.movements + [m]
      && m.id == db.nextMovementId
      && Some(m.productId as int) == productId
      && Varchar(kind.value, 20) == Some(MovementTypeName(m.kind))
      && Some(m.quantity) == quantity && m.reason == reason
      && Varchar(userId.value, 255) == Some(m.userId)
      && db' == db.(movements := db'.movements, nextMovementId := db'.nextMovementId, clock := db'.clock)
  {
    if productId.None? then Err(NotNullViolation("product_id"))
    else if kind.None? then Err(NotNullViolation("type"))
    else if Varchar(kind.value, 20).None? then Err(ValueTooLong("type"))
    else if ParseMovementType(Varchar(kind.value, 20).value).None? then Err(CheckViolation("type"))
    else if quantity.None? then Err(NotNullViolation("quantity"))
    else if !IsInt32(quantity.value) then Err(NumericOutOfRange("quantity"))
    else if userId.None? then Err(NotNullViolation("user_id"))
    else if Varchar(userId.value, 255).None? then Err(ValueTooLong("user_id"))
    else if productId.value !in ProductIds(db.products) then Err(ForeignKeyViolation("product_id"))
    else
      var m := StockMovement(db.nextMovementId, productId.value as nat,
                             ParseMovementType(Varchar(kind.value, 20).value).value,
                             quantity.value, reason, Varchar(userId.value, 255).value, db.clock);
      Ok((db.(movements := db.movements + [m], nextMovementId := db.nextMovementId + 1,
              clock := db.clock + 1), m))
  }

  lemma InsertStockMovementPreservesWellFormed(db: Db, productId: Option<int>, kind: Option<string>,
                                               quantity: Option<int>, reason: Option<string>,
                                               userId: Option<string>)
    requires WellFormed(db)
    requires InsertStockMovement(db, productId, kind, quantity, reason, userId).Ok?
    ensures WellFormed(InsertStockMovement(db, productId, kind, quantity, reason, userId).value.0)
  {
    var (r, m) := InsertStockMovement(db, productId, kind, quantity, reason, userId).value;
    forall k | 0 <= k < |db.movements|
      ensures db.movements[k].id != m.id
    {
      assert db.movements[k] in db.movements;
    }
  }

  // ---------------------------------------------------------------------------
  // Deletes

  /** Whether a sales line refers to the product. */
  predicate HasSales(db: Db, productId: nat) {
    exists x :: x in db.items && x.productId == productId
  }

  /** `DELETE FROM products WHERE product_id = id`: blocked (ON DELETE RESTRICT)
      while a sales line refers to the product; otherwise the product and
      (ON DELETE CASCADE) its stock movements go, and nothing else changes. */
  function DeleteProduct(db: Db, productId: nat): (r: Result<Db, DbError>)
    ensures r.Err? <==> HasSales(db, productId)
    ensures r.Ok? ==>
      && (forall p :: p in r.value.products <==> p in db.products && p.productId != productId)
      && (forall m :: m in r.value.movements <==> m in db.movements && m.productId != productId)
      && r.value.categories == db.categories && r.value.orders == db.orders
      && r.value.items == db.items
  {
    if HasSales(db, productId) then Err(ForeignKeyViolation("product_id"))
    else
      Ok(db.(products := Keep(db.products, (p: Product) => p.productId != productId),
             movements := Keep(db.movements, (m: StockMovement) => m.productId != productId)))
  }

  /** Deleting a product no sale refers to keeps every table constraint. */
  lemma DeleteProductPreservesWellFormed(db: Db, productId: nat)
    requires WellFormed(db)
    requires !HasSales(db, productId)
    ensures WellFormed(DeleteProduct(db, productId).value)
  {
    var r := DeleteProduct(db, productId).value;
    DeleteProductKeepsProductsOk(db, productId);
    KeepKeepsKeysDistinct(db.movements, (m: StockMovement) => m.productId != productId,
                          (m: StockMovement) => m.id);
    forall x | x in r.items
      ensures x.productId in ProductIds(r.products)
    {
      OtherProductIdsSurvive(db, productId, x.productId);
    }
    forall m | m in r.movements
      ensures m.productId in ProductIds(r.products)
    {
      OtherProductIdsSurvive(db, productId, m.productId);
    }
  }

  lemma DeleteProductKeepsProductsOk(db: Db, productId: nat)
    requires ProductsOk(db)
    requires DeleteProduct(db, productId).Ok?
    ensures ProductsOk(DeleteProduct(db, productId).value)
  {
    var keep := (p: Product) => p.productId != productId;
    KeepKeepsKeysDistinct(db.products, keep, (p: Product) => p.barcode);
    KeepKeepsKeysDistinct(db.products, keep, (p: Product) => p.productId);
  }

  /** Every product id other than the deleted one survives the delete. */
  lemma OtherProductIdsSurvive(db: Db, productId: nat, id: nat)
    requires DeleteProduct(db, productId).Ok?
    requires id in ProductIds(db.products) && id != productId
    ensures id in ProductIds(DeleteProduct(db, productId).value.products)
  {
    var k :| 0 <= k < |db.products| && db.products[k].productId == id;
    ProductIdOf(DeleteProduct(db, productId).value.products, db.products[k]);
  }

  /** `DELETE FROM sales_orders WHERE id = id`: the order and (ON DELETE
      CASCADE) its lines go; nothing else changes. */
  function DeleteOrder(db: Db, orderId: nat): (r: Db)
    ensures forall o :: o in r.orders <==> o in db.orders && o.id != orderId
    ensures forall x :: x in r.items <==> x in db.items && x.orderId != orderId
    ensures r.categories == db.categories && r.products == db.products
    ensures r.movements == db.movements
  {
    db.(orders := Keep(db.orders, (o: SalesOrder) => o.id != orderId),
        items := Keep(db.items, (x: SalesItem) => x.orderId != orderId))
  }

  lemma DeleteOrderPreservesWellFormed(db: Db, orderId: nat)
    requires WellFormed(db)
    ensures WellFormed(DeleteOrder(db, orderId))
  {
    var r := DeleteOrder(db, orderId);
    KeepKeepsKeysDistinct(db.orders, (o: SalesOrder) => o.id != orderId, (o: SalesOrder) => o.id);
    KeepKeepsKeysDistinct(db.items, (x: SalesItem) => x.orderId != orderId, (x: SalesItem) => x.id);
    forall x | x in r.items
      ensures x.orderId in OrderIds(r.orders)
    {
      OtherOrderIdsSurvive(db, orderId, x.orderId);
    }
  }

  /** Every order id other than the deleted one survives the delete. */
  lemma OtherOrderIdsSurvive(db: Db, orderId: nat, id: nat)
    requires id in OrderIds(db.orders) && id != orderId
    ensures id in OrderIds(DeleteOrder(db, orderId).orders)
  {
    var k :| 0 <= k < |db.orders| && db.orders[k].id == id;
    OrderIdOf(DeleteOrder(db, orderId).orders, db.orders[k]);
  }
}
