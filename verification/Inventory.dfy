/** Stock edits, new products and deletions from the dashboard (app/admin/router.py, app/db/crud.py). */
module Inventory {
  import opened Text
  import opened Money
  import opened Store

  datatype Problem = NotFound | AlreadyExists | Invalid

  function StockSet(ps: seq<Product>, tenant: nat, sku: string, stock: int): seq<Product> {
    match FindProduct(ps, tenant, sku)
    case Some(i) => if stock < 0 then ps else ps[i := ps[i].(stock := stock, active := stock > 0)]
    case None => ps
  }

  /** Sets the stock level; the product is on sale exactly when there is some. */
  method UpdateProductStock(db: Db, tenant: nat, sku: string, stock: int) returns (r: Result<(), Problem>)
    modifies db`products
    ensures db.products == StockSet(old(db.products), tenant, sku, stock)
    ensures r.Ok? <==> stock >= 0 && FindProduct(old(db.products), tenant, sku).Some?
    ensures r.Err? ==> r.error == if stock < 0 then Invalid else NotFound
  {
    if stock < 0 {
      return Err(Invalid);
    }
    var row := FindProduct(db.products, tenant, sku);
    if row.None? {
      return Err(NotFound);
    }
    db.products := db.products[row.value := db.products[row.value].(stock := stock)];
    db.products := db.products[row.value := db.products[row.value].(active := db.products[row.value].stock > 0)];
    r := Ok(());
  }

  datatype NewProduct = NewProduct(
    sku: string, name: string, description: string, price: Dec, stock: int, tags: seq<string>)

  function Row(tenant: nat, p: NewProduct): Product {
    Product(tenant, Upper(Strip(p.sku)), p.name, p.description, Stored(p.price), None, "", [], "", [], [],
            p.tags, "", p.stock, p.stock > 0, None, "", "", 0)
  }

  predicate Acceptable(p: NewProduct) {
    Upper(Strip(p.sku)) != "" && p.price.units > 0 && p.stock >= 0
  }

  function Created(ps: seq<Product>, tenant: nat, p: NewProduct): seq<Product> {
    if Acceptable(p) && FindProduct(ps, tenant, Upper(Strip(p.sku))).None? then ps + [Row(tenant, p)] else ps
  }

  /** The row has what was filled in, is on sale if there is stock, and belongs to no source. */
  predicate IsAsGiven(row: Product, tenant: nat, p: NewProduct) {
    && row.tenant == tenant && row.sku == Upper(Strip(p.sku)) && row.name == p.name
    && row.description == p.description && row.tags == p.tags
    && row.price == Stored(p.price) && row.compareAt.None?
    && row.stock == p.stock && (row.active <==> p.stock > 0)
    && row.options == [] && row.variants == [] && row.source.None? && row.images == [] && row.imageUrl == ""
    && row.currency == "" && row.sourceUrl == "" && row.externalId == "" && row.pageHash == "" && row.lastSynced == 0
  }

  method CreateProduct(db: Db, tenant: nat, p: NewProduct) returns (r: Result<(), Problem>)
    modifies db`products
    ensures db.products == Created(old(db.products), tenant, p)
    ensures r.Err? ==> db.products == old(db.products)
    ensures r.Err? ==> r.error == if Acceptable(p) then AlreadyExists else Invalid
    ensures r == Err(Invalid) <==> Strip(p.sku) == "" || Amount(p.price) <= 0.0 || p.stock < 0
    ensures r.Ok? ==> |db.products| == |old(db.products)| + 1 && IsAsGiven(db.products[|old(db.products)|], tenant, p)
  {
    AmountSign(p.price);
    if !Acceptable(p) {
      return Err(Invalid);
    }
    if FindProduct(db.products, tenant, Upper(Strip(p.sku))).Some? {
      return Err(AlreadyExists);
    }
    db.products := db.products + [Row(tenant, p)];
    r := Ok(());
  }

  function Removed(ps: seq<Product>, tenant: nat, sku: string): seq<Product> {
    match FindProduct(ps, tenant, sku)
    case Some(i) => ps[..i] + ps[i + 1..]
    case None => ps
  }

  method RemoveProduct(db: Db, tenant: nat, sku: string) returns (r: Result<(), Problem>)
    modifies db`products
    ensures db.products == Removed(old(db.products), tenant, sku)
    ensures r.Err? <==> FindProduct(old(db.products), tenant, sku).None?
  {
    var row := FindProduct(db.products, tenant, sku);
    if row.None? {
      return Err(NotFound);
    }
    db.products := db.products[..row.value] + db.products[row.value + 1..];
    r := Ok(());
  }

  // ---------- what these keep ----------

  lemma StockSetKeeps(ps: seq<Product>, tenant: nat, sku: string, stock: int)
    requires ValidProducts(ps)
    ensures ValidProducts(StockSet(ps, tenant, sku, stock))
  {
  }

  lemma CreatedKeeps(ps: seq<Product>, tenant: nat, p: NewProduct)
    requires ValidProducts(ps)
    ensures ValidProducts(Created(ps, tenant, p))
  {
  }

  lemma RemovedKeeps(ps: seq<Product>, tenant: nat, sku: string)
    requires ValidProducts(ps)
    ensures ValidProducts(Removed(ps, tenant, sku))
  {
  }
}
