/** The `categories` writes: `INSERT ... ON CONFLICT (name) DO NOTHING` (one
    row from the handler, eight from the default seed) and the delete rule of
    the `products.category_id` reference. */
module CategoryTable {
  import opened Common
  import opened Seqs
  import opened Schema

  /** One row of `INSERT INTO categories (name) VALUES (..) ON CONFLICT (name)
      DO NOTHING`. The serial id is drawn whether or not the row is kept; a
      name already present (exact match) leaves the rows as they are. */
  function AddCategoryRow(db: Db, name: string, now: nat): (r: (Db, Option<Category>))
    ensures r.0.nextCategoryId == db.nextCategoryId + 1
    ensures name in CategoryNames(db.categories) ==> r.1.None? && r.0.categories == db.categories
    ensures name !in CategoryNames(db.categories) ==>
              && r.1 == Some(Category(db.nextCategoryId, name, now))
              && r.0.categories == db.categories + [r.1.value]
    ensures r.0 == db.(categories := r.0.categories, nextCategoryId := r.0.nextCategoryId)
  {
    var db1 := db.(nextCategoryId := db.nextCategoryId + 1);
    match FindCategoryByName(db.categories, name)
    case Some(_) => (db1, None)
    case None =>
      var c := Category(db.nextCategoryId, name, now);
      (db1.(categories := db.categories + [c]), Some(c))
  }

  /** Inserting a name of at most 100 characters keeps `categories` valid:
      names and ids stay unique. */
  lemma AddCategoryRowKeepsCategoriesOk(db: Db, name: string, now: nat)
    requires CategoriesOk(db) && |name| <= 100
    ensures CategoriesOk(AddCategoryRow(db, name, now).0)
  {
    var r := AddCategoryRow(db, name, now).0;
    if name !in CategoryNames(db.categories) {
      var c := Category(db.nextCategoryId, name, now);
      forall i | 0 <= i < |db.categories|
        ensures db.categories[i].id != c.id && db.categories[i].name != c.name
      {
        assert db.categories[i] in db.categories;
        assert CategoryNames(db.categories)[i] == db.categories[i].name;
      }
    }
  }

  lemma NamesOfAppend(cs: seq<Category>, c: Category)
    ensures CategoryNames(cs + [c]) == CategoryNames(cs) + [c.name]
  {
  }

  /** The multi-row form: each name in turn, all stamped with one `now`. Rows
      already present are kept as they were, in place. */
  function AddCategoryRows(db: Db, names: seq<string>, now: nat): (r: Db)
    ensures db.categories <= r.categories
    ensures r.nextCategoryId == db.nextCategoryId + |names|
    ensures r == db.(categories := r.categories, nextCategoryId := r.nextCategoryId)
    decreases |names|
  {
    if names == [] then db
    else AddCategoryRows(AddCategoryRow(db, names[0], now).0, names[1..], now)
  }

  /** Afterwards the names present are those present before and those listed. */
  lemma {:induction false} AddCategoryRowsNames(db: Db, names: seq<string>, now: nat)
    ensures var r := AddCategoryRows(db, names, now);
      forall n :: n in CategoryNames(r.categories) <==> n in CategoryNames(db.categories) || n in names
    decreases |names|
  {
    if names != [] {
      var step := AddCategoryRow(db, names[0], now);
      if step.1.Some? {
        NamesOfAppend(db.categories, step.1.value);
      }
      AddCategoryRowsNames(step.0, names[1..], now);
      assert names == [names[0]] + names[1..];
    }
  }

  lemma {:induction false} AddCategoryRowsKeepsCategoriesOk(db: Db, names: seq<string>, now: nat)
    requires CategoriesOk(db)
    requires forall n :: n in names ==> |n| <= 100
    ensures CategoriesOk(AddCategoryRows(db, names, now))
    decreases |names|
  {
    if names != [] {
      AddCategoryRowKeepsCategoriesOk(db, names[0], now);
      AddCategoryRowsKeepsCategoriesOk(AddCategoryRow(db, names[0], now).0, names[1..], now);
    }
  }

  /** With every name already present, the rows do not change. */
  lemma {:induction false} AddPresentNamesChangesNoRow(db: Db, names: seq<string>, now: nat)
    requires forall n :: n in names ==> n in CategoryNames(db.categories)
    ensures AddCategoryRows(db, names, now).categories == db.categories
    decreases |names|
  {
    if names != [] {
      AddPresentNamesChangesNoRow(AddCategoryRow(db, names[0], now).0, names[1..], now);
    }
  }

  const DefaultCategoryNames: seq<string> :=
    ["Snacks", "Drinks", "Canned Goods", "Toiletries",
     "Rice & Grains", "Baby Needs", "Frozen Items", "E-Load"]

  /** After the first of several new, pairwise different names is added, the
      rest are still new and still pairwise different. */
  lemma RestStaysNew(db: Db, names: seq<string>, now: nat)
    requires names != []
    requires forall n :: n in names ==> n !in CategoryNames(db.categories)
    requires forall i, j :: 0 <= i < j < |names| ==> names[i] != names[j]
    ensures var known := CategoryNames(AddCategoryRow(db, names[0], now).0.categories);
      && known == CategoryNames(db.categories) + [names[0]]
      && (forall n :: n in names[1..] ==> n !in known)
    ensures forall i, j :: 0 <= i < j < |names| - 1 ==> names[1..][i] != names[1..][j]
  {
    var step := AddCategoryRow(db, names[0], now);
    NamesOfAppend(db.categories, step.1.value);
    var known := CategoryNames(step.0.categories);
    var rest := names[1..];
    forall i, j | 0 <= i < j < |rest|
      ensures rest[i] != rest[j]
    {
      assert rest[i] == names[i + 1] && rest[j] == names[j + 1];
    }
    forall n | n in rest
      ensures n !in known
    {
      var k :| 0 <= k < |rest| && rest[k] == n;
      assert names[k + 1] == n;
    }
  }

  /** Names that are new and pairwise different are appended in order. */
  lemma {:induction false} AddNewNamesAppends(db: Db, names: seq<string>, now: nat)
    requires forall n :: n in names ==> n !in CategoryNames(db.categories)
    requires forall i, j :: 0 <= i < j < |names| ==> names[i] != names[j]
    ensures CategoryNames(AddCategoryRows(db, names, now).categories) == CategoryNames(db.categories) + names
    decreases |names|
  {
    if names != [] {
      RestStaysNew(db, names, now);
      var db1 := AddCategoryRow(db, names[0], now).0;
      AddNewNamesAppends(db1, names[1..], now);
      assert names == [names[0]] + names[1..];
    }
  }

  /** Growing `categories` (with its sequence and the clock) keeps the database
      well-formed when the new rows are themselves valid. */
  lemma CategoriesGrowKeepsWellFormed(db: Db, r: Db)
    requires WellFormed(db) && CategoriesOk(r)
    requires r == db.(categories := r.categories, nextCategoryId := r.nextCategoryId, clock := r.clock)
    requires db.categories <= r.categories
    ensures WellFormed(r)
  {
    forall p | p in r.products && p.categoryId.Some?
      ensures p.categoryId.value in CategoryIds(r.categories)
    {
      var k :| 0 <= k < |db.categories| && db.categories[k].id == p.categoryId.value;
      assert r.categories[k] == db.categories[k];
    }
  }

  /** The seed statement of `initDB`. */
  function SeedDefaultCategories(db: Db): (r: Db)
    ensures db.categories <= r.categories
  {
    AddCategoryRows(db, DefaultCategoryNames, db.clock).(clock := db.clock + 1)
  }

  /** After seeding, every default name is present, next to the names that
      were there before, and no other. */
  lemma SeedAddsDefaults(db: Db)
    ensures forall n :: n in CategoryNames(SeedDefaultCategories(db).categories) <==>
                          n in CategoryNames(db.categories) || n in DefaultCategoryNames
  {
    AddCategoryRowsNames(db, DefaultCategoryNames, db.clock);
  }

  /** Seeding keeps every table constraint; no name appears twice. */
  lemma SeedPreservesWellFormed(db: Db)
    requires WellFormed(db)
    ensures WellFormed(SeedDefaultCategories(db))
  {
    AddCategoryRowsKeepsCategoriesOk(db, DefaultCategoryNames, db.clock);
    CategoriesGrowKeepsWellFormed(db, SeedDefaultCategories(db));
  }
  /** Running the seed again changes no row and adds no duplicate. */
  lemma SeedIdempotent(db: Db)
    ensures SeedDefaultCategories(SeedDefaultCategories(db)).categories == SeedDefaultCategories(db).categories
  {
    var once := SeedDefaultCategories(db);
    SeedAddsDefaults(db);
    AddPresentNamesChangesNoRow(once, DefaultCategoryNames, once.clock);
  }

  /** A fresh database after `initDB` holds exactly the eight default names,
      once each. */
  lemma SeededEmptyDatabase()
    ensures var db := SeedDefaultCategories(EmptyDb());
      && WellFormed(db)
      && CategoryNames(db.categories) == DefaultCategoryNames
  {
    EmptyWellFormed();
    SeedPreservesWellFormed(EmptyDb());
    DefaultNamesDistinct();
    AddNewNamesAppends(EmptyDb(), DefaultCategoryNames, 0);
  }

  lemma DefaultNamesDistinct()
    ensures forall i, j :: 0 <= i < j < |DefaultCategoryNames| ==> DefaultCategoryNames[i] != DefaultCategoryNames[j]
  {
    var d := DefaultCategoryNames;
    assert forall i :: 0 <= i < |d| ==> |d[i]| >= 5 && d[i][0] != d[i][1];
    assert d[0][0] == 'S' && d[1][0] == 'D' && d[2][0] == 'C' && d[3][0] == 'T';
    assert d[4][0] == 'R' && d[5][0] == 'B' && d[6][0] == 'F' && d[7][0] == 'E';
  }

  // ---------------------------------------------------------------------------
  // Deleting a category

  /** Whether any product refers to the category. */
  predicate Referenced(db: Db, id: nat) {
    exists p :: p in db.products && p.categoryId == Some(id)
  }

  /** `DELETE FROM categories WHERE category_id = id` under the intended
      `ON DELETE SET NULL`: the category goes, the products that referred to it
      become uncategorised and change in nothing else, and no other row
      changes. The delete is never blocked. */
  function DeleteCategory(db: Db, id: nat): (r: Db)
    ensures forall c :: c in r.categories <==> c in db.categories && c.id != id
    ensures |r.products| == |db.products|
    ensures forall k :: 0 <= k < |r.products| ==> r.products[k].categoryId != Some(id)
    ensures forall k :: 0 <= k < |r.products| && db.products[k].categoryId == Some(id) ==>
              r.products[k].categoryId == None
    ensures forall k :: 0 <= k < |r.products| ==>
              r.products[k].(categoryId := None) == db.products[k].(categoryId := None)
    ensures forall k :: 0 <= k < |r.products| && db.products[k].categoryId != Some(id) ==>
              r.products[k] == db.products[k]
    ensures r.orders == db.orders && r.items == db.items && r.movements == db.movements
  {
    db.(categories := Keep(db.categories, (c: Category) => c.id != id),
        products := seq(|db.products|, k requires 0 <= k < |db.products| =>
                      if db.products[k].categoryId == Some(id)
                      then db.products[k].(categoryId := None)
                      else db.products[k]))
  }

  lemma DeleteCategoryKeepsCategoriesOk(db: Db, id: nat)
    requires CategoriesOk(db)
    ensures CategoriesOk(DeleteCategory(db, id))
  {
    KeepKeepsKeysDistinct(db.categories, (c: Category) => c.id != id, (c: Category) => c.id);
    KeepKeepsKeysDistinct(db.categories, (c: Category) => c.id != id, (c: Category) => c.name);
  }

  lemma DeleteCategoryKeepsProductsOk(db: Db, id: nat)
    requires ProductsOk(db)
    ensures ProductsOk(DeleteCategory(db, id))
    ensures ProductIds(DeleteCategory(db, id).products) == ProductIds(db.products)
  {
    var r := DeleteCategory(db, id);
    assert ProductIds(r.products) == ProductIds(db.products);
    SameKeysDistinct(db.products, r.products, (p: Product) => p.barcode);
    SameKeysDistinct(db.products, r.products, (p: Product) => p.productId);
    forall p | p in r.products
      ensures ValidProduct(p) && p.productId < r.nextProductId
      ensures p.categoryId.Some? ==> p.categoryId.value in CategoryIds(r.categories)
    {
      var k :| 0 <= k < |r.products| && r.products[k] == p;
      var q := db.products[k];
      assert q in db.products;
      if p.categoryId.Some? {
        var j :| 0 <= j < |db.categories| && db.categories[j].id == q.categoryId.value;
        assert db.categories[j] in r.categories;
      }
    }
  }

  /** The intended delete keeps every table constraint: no product is left
      pointing at a missing category. */
  lemma DeleteCategoryPreservesWellFormed(db: Db, id: nat)
    requires WellFormed(db)
    ensures WellFormed(DeleteCategory(db, id))
  {
    DeleteCategoryKeepsCategoriesOk(db, id);
    DeleteCategoryKeepsProductsOk(db, id);
  }

  /** The delete as the table is written: `category_id` is declared SERIAL,
      which makes it NOT NULL, so setting it to null fails and the whole
      delete is rejected whenever a product still refers to the category. */
  function DeleteCategoryAsWritten(db: Db, id: nat): (r: Result<Db, DbError>)
    ensures r.Err? <==> Referenced(db, id)
    ensures r.Ok? ==> r.value == DeleteCategory(db, id)
  {
    if Referenced(db, id) then Err(NotNullViolation("category_id"))
    else
      var r := db.(categories := Keep(db.categories, (c: Category) => c.id != id));
      assert r.products == DeleteCategory(db, id).products;
      Ok(r)
  }

  /** One category, one product in it: as written the delete fails, while
      the intended rule removes the category and leaves the product
      uncategorised. */
  lemma DeleteReferencedCategoryAsWrittenFails()
    ensures var cat := Category(1, "Snacks", 0);
      var chips := Product(1, "4800016", "Chips", Some(1), Pcs, Some(1500), 2500, Some(10),
                           None, true, "user_a", 0, 0);
      var db := EmptyDb().(categories := [cat], products := [chips],
                           nextCategoryId := 2, nextProductId := 2, clock := 1);
      && WellFormed(db)
      && DeleteCategoryAsWritten(db, 1) == Err(NotNullViolation("category_id"))
      && DeleteCategory(db, 1).categories == []
      && DeleteCategory(db, 1).products == [chips.(categoryId := None)]
  {
    var cat := Category(1, "Snacks", 0);
    var chips := Product(1, "4800016", "Chips", Some(1), Pcs, Some(1500), 2500, Some(10),
                         None, true, "user_a", 0, 0);
    var db := EmptyDb().(categories := [cat], products := [chips],
                         nextCategoryId := 2, nextProductId := 2, clock := 1);
    assert chips in db.products;
    assert CategoryIds(db.categories) == [1];
    assert DeleteCategory(db, 1).products == [chips.(categoryId := None)];
  }
}
