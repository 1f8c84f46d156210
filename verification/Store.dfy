/** The product and order tables (app/db/models.py) and the two look-ups everything else uses.

A table is a sequence of rows in the order they were inserted.  An empty string or sequence
stands for a NULL text or JSON column. */
module Store {
  import opened Text
  import opened Money
  import opened Variants

  datatype Product = Product(
    tenant: nat,
    sku: string,
    name: string,
    description: string,
    price: Dec,
    compareAt: Option<Dec>,
    currency: string,
    images: seq<string>,
    imageUrl: string,
    options: seq<OptionGroup>,
    variants: seq<Variant>,
    tags: seq<string>,
    sourceUrl: string,
    stock: int,
    active: bool,
    source: Option<nat>,
    externalId: string,
    pageHash: string,
    lastSynced: int)

  /** `draft`, the column's default, is never assigned. */
  datatype Status = AwaitingPayment | PendingDelivery | Paid | Cancelled

  datatype PayBy = BankTransfer | Cod

  datatype Mode = WhatsappOnly | Website

  datatype Line = Line(sku: string, name: string, quantity: int, unitPrice: real, lineTotal: real)

  datatype Order = Order(
    tenant: nat,
    ref: string,
    year: nat,
    customer: nat,
    mode: Mode,
    lines: seq<Line>,
    subtotal: real,
    deliveryCharge: real,
    total: real,
    status: Status,
    payBy: PayBy)

  datatype Shop = Shop(products: seq<Product>, orders: seq<Order>)

  /** The database.  Each method below stands for one transaction. */
  class Db {
    var products: seq<Product>
    var orders: seq<Order>

    constructor (products: seq<Product>, orders: seq<Order>)
      ensures State() == Shop(products, orders)
    {
      this.products, this.orders := products, orders;
    }

    ghost function State(): Shop
      reads this
    {
      Shop(products, orders)
    }
  }

  // ---------- products ----------

  predicate HasSku(p: Product, tenant: nat, sku: string) {
    p.tenant == tenant && p.sku == sku
  }

  function FindProduct(ps: seq<Product>, tenant: nat, sku: string): (row: Option<nat>)
    ensures row.Some? ==> row.value < |ps| && HasSku(ps[row.value], tenant, sku)
    ensures row.None? ==> forall i :: 0 <= i < |ps| ==> !HasSku(ps[i], tenant, sku)
  {
    if ps == [] then None
    else
      match FindProduct(ps[..|ps| - 1], tenant, sku)
      case Some(i) => Some(i)
      case None => if HasSku(ps[|ps| - 1], tenant, sku) then Some(|ps| - 1) else None
  }

  /** The unique constraint on (tenant, sku). */
  ghost predicate UniqueSkus(ps: seq<Product>) {
    forall i, j :: 0 <= i < j < |ps| ==> !(ps[i].tenant == ps[j].tenant && ps[i].sku == ps[j].sku)
  }

  /** Within one source, an external id names at most one product. */
  ghost predicate UniqueExternalIds(ps: seq<Product>) {
    forall i, j :: 0 <= i < j < |ps| && ps[i].source.Some? && ps[i].source == ps[j].source ==>
      ps[i].externalId != ps[j].externalId
  }

  predicate Sellable(p: Product) {
    p.stock >= 0 && (p.active ==> p.stock > 0)
  }

  ghost predicate ValidProducts(ps: seq<Product>) {
    && UniqueSkus(ps)
    && UniqueExternalIds(ps)
    && forall i :: 0 <= i < |ps| ==> ps[i].sku != "" && Sellable(ps[i])
  }

  /** Everything about a product but its stock and whether it is on sale. */
  predicate SameButStock(p: Product, q: Product) {
    p == q.(stock := p.stock, active := p.active)
  }

  // ---------- orders ----------

  predicate HasRef(o: Order, tenant: nat, ref: string) {
    o.tenant == tenant && o.ref == ref
  }

  function FindOrder(os: seq<Order>, tenant: nat, ref: string): (row: Option<nat>)
    ensures row.Some? ==> row.value < |os| && HasRef(os[row.value], tenant, ref)
    ensures row.None? ==> forall i :: 0 <= i < |os| ==> !HasRef(os[i], tenant, ref)
  {
    if os == [] then None
    else
      match FindOrder(os[..|os| - 1], tenant, ref)
      case Some(i) => Some(i)
      case None => if HasRef(os[|os| - 1], tenant, ref) then Some(|os| - 1) else None
  }

  function CountOrders(os: seq<Order>, tenant: nat): nat {
    if os == [] then 0
    else CountOrders(os[..|os| - 1], tenant) + (if os[|os| - 1].tenant == tenant then 1 else 0)
  }

  /** It is the number of the tenant's orders: `counted` says of each place whether it holds one. */
  lemma {:induction false} CountOrdersIsNumber(os: seq<Order>, tenant: nat, counted: nat -> bool)
    requires forall k: nat :: k < |os| ==> (counted(k) <==> os[k].tenant == tenant)
    ensures CountOrders(os, tenant) == |set k: nat | k < |os| && counted(k)|
  {
    if os != [] {
      CountOrdersIsNumber(os[..|os| - 1], tenant, counted);
      OneMoreCounted(|os| - 1, counted);
    }
  }

  /** "ORD-2026-0001": the year and the tenant's running number, at least four digits. */
  function OrderRef(year: nat, number: nat): string {
    "ORD-" + (Digits(year) + "-" + Padded(number, 4))
  }

  ghost predicate UniqueRefs(os: seq<Order>) {
    forall i, j :: 0 <= i < j < |os| ==> !(os[i].tenant == os[j].tenant && os[i].ref == os[j].ref)
  }

  /** Every order carries the number it had when it was made: how many orders its tenant had,
      plus one. */
  ghost predicate Numbered(os: seq<Order>) {
    forall i :: 0 <= i < |os| ==> os[i].ref == OrderRef(os[i].year, CountOrders(os[..i], os[i].tenant) + 1)
  }

  /** A reference is read as it was written: the year, and the number with four digits or more. */
  lemma RefReads(year: nat, number: nat) returns (y: string, n: string)
    ensures OrderRef(year, number) == "ORD-" + y + "-" + n
    ensures AllDigits(y) && Value(y) == year
    ensures AllDigits(n) && Value(n) == number && |n| >= 4 && (number < 10000 ==> |n| == 4)
  {
    y, n := Digits(year), Padded(number, 4);
    ValueOfDigits(year);
    ValueOfPadded(number, 4);
    Regroup("ORD-", y + "-", n);
    if number < 10000 {
      assert |Digits(number / 1000)| == 1 && number / 10 / 10 / 10 == number / 1000;
      assert |Digits(number / 100)| <= 2 && |Digits(number / 10)| <= 3;
    }
  }

  /** The reference determines the running number, whatever the years. */
  lemma RefDeterminesNumber(y: nat, n: nat, y': nat, n': nat)
    requires OrderRef(y, n) == OrderRef(y', n')
    ensures n == n'
  {
    var a, b := Digits(y) + "-" + Padded(n, 4), Digits(y') + "-" + Padded(n', 4);
    assert a == OrderRef(y, n)[4..] && b == OrderRef(y', n')[4..];
    DashPosition(Digits(y), Padded(n, 4), Digits(y'), Padded(n', 4));
    ValueOfPadded(n, 4);
    ValueOfPadded(n', 4);
  }

  lemma DashPosition(a: string, b: string, c: string, d: string)
    requires AllDigits(a) && AllDigits(b) && AllDigits(c) && AllDigits(d)
    requires a + "-" + b == c + "-" + d
    ensures b == d
  {
    var s, t := a + "-" + b, c + "-" + d;
    assert s[|a|] == '-' && t[|c|] == '-';
    assert forall i :: 0 <= i < |a| ==> s[i] == a[i];
    assert forall i :: 0 <= i < |c| ==> t[i] == c[i];
    assert b == s[|a| + 1..] && d == t[|c| + 1..];
  }

  lemma {:induction false} CountGrows(os: seq<Order>, i: nat, tenant: nat)
    requires i <= |os|
    ensures CountOrders(os[..i], tenant) <= CountOrders(os, tenant)
    ensures i < |os| && os[i].tenant == tenant ==> CountOrders(os[..i], tenant) < CountOrders(os, tenant)
  {
    if i == |os| {
      assert os[..i] == os;
    } else {
      var init := os[..|os| - 1];
      CountGrows(init, i, tenant);
      assert init[..i] == os[..i];
    }
  }

  /** Numbering in sequence keeps a tenant's references distinct. */
  lemma NumberedRefsAreUnique(os: seq<Order>)
    requires Numbered(os)
    ensures UniqueRefs(os)
  {
    forall i, j | 0 <= i < j < |os| && os[i].tenant == os[j].tenant
      ensures os[i].ref != os[j].ref
    {
      CountGrows(os[..j], i, os[i].tenant);
      assert os[..j][..i] == os[..i] && os[..j][i] == os[i];
      if os[i].ref == os[j].ref {
        RefDeterminesNumber(os[i].year, CountOrders(os[..i], os[i].tenant) + 1,
                            os[j].year, CountOrders(os[..j], os[j].tenant) + 1);
      }
    }
  }

  ghost predicate PaymentFits(o: Order) {
    && (o.status == AwaitingPayment || o.status == Paid ==> o.payBy == BankTransfer)
    && (o.status == PendingDelivery ==> o.payBy == Cod)
  }

  ghost predicate ValidOrders(os: seq<Order>) {
    Numbered(os) && forall i :: 0 <= i < |os| ==> PaymentFits(os[i])
  }

  ghost predicate Valid(s: Shop) {
    ValidProducts(s.products) && ValidOrders(s.orders)
  }
}
