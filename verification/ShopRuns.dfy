/** The shop as one machine: every operation on the product and order tables, in any order. */
module ShopRuns {
  import opened Text
  import opened Money
  import Variants
  import opened Store
  import opened Orders
  import opened Inventory
  import opened CatalogSync
  import opened SyncRun
  import opened SyncFacts

  datatype Op =
    | Place(rq: Request)
    | Shopify(tenant: nat, customer: nat, lines: seq<Line>, subtotal: real, total: real, year: nat)
    | CustomerCancels(tenant: nat, ref: string, who: Option<nat>)
    | AdminCancels(tenant: nat, ref: string)
    | ChangePayment(tenant: nat, ref: string, who: Option<nat>, payment: string)
    | Approve(tenant: nat, ref: string)
    | SetStock(tenant: nat, sku: string, stock: int)
    | Create(tenant: nat, product: NewProduct)
    | Delete(tenant: nat, sku: string)
    | Sync(tenant: nat, source: nat, found: seq<Scraped>, now: int)

  function Next(s: Shop, op: Op): Shop {
    match op
    case Place(rq) => Placed(s, rq)
    case Shopify(tenant, customer, lines, subtotal, total, year) =>
      Recorded(s, tenant, customer, lines, subtotal, total, year)
    case CustomerCancels(tenant, ref, who) => CancelledByCustomer(s, tenant, ref, who)
    case AdminCancels(tenant, ref) => CancelledByAdmin(s, tenant, ref)
    case ChangePayment(tenant, ref, who, payment) => MethodChanged(s, tenant, ref, who, payment)
    case Approve(tenant, ref) => PaymentApproved(s, tenant, ref)
    case SetStock(tenant, sku, stock) => s.(products := StockSet(s.products, tenant, sku, stock))
    case Create(tenant, product) => s.(products := Created(s.products, tenant, product))
    case Delete(tenant, sku) => s.(products := Removed(s.products, tenant, sku))
    case Sync(tenant, source, found, now) => s.(products := AfterSync(s.products, tenant, source, found, now))
  }

  function Run(s: Shop, ops: seq<Op>): Shop {
    if ops == [] then s else Next(Run(s, ops[..|ops| - 1]), ops[|ops| - 1])
  }

  /** Selling and cancelling, as opposed to restocking and syncing. */
  predicate Trading(op: Op) {
    op.Place? || op.Shopify? || op.CustomerCancels? || op.AdminCancels? || op.ChangePayment? || op.Approve?
  }

  method ExecuteTrade(db: Db, op: Op)
    requires Trading(op) && Valid(db.State())
    modifies db
    ensures db.State() == Next(old(db.State()), op)
  {
    match op {
      case Place(rq) => var r := PlaceOrder(db, rq);
      case Shopify(tenant, customer, lines, subtotal, total, year) =>
        RecordShopifyOrder(db, tenant, customer, lines, subtotal, total, year);
      case CustomerCancels(tenant, ref, who) => var r := CancelOrderTool(db, tenant, ref, who);
      case AdminCancels(tenant, ref) => var r := AdminCancelOrder(db, tenant, ref);
      case ChangePayment(tenant, ref, who, payment) => var r := UpdatePaymentMethod(db, tenant, ref, who, payment);
      case Approve(tenant, ref) => ApprovePaymentVerification(db, tenant, ref);
      case _ =>
    }
  }

  method ExecuteCatalog(db: Db, op: Op)
    requires !Trading(op) && Valid(db.State())
    modifies db`products
    ensures db.State() == Next(old(db.State()), op)
  {
    match op {
      case SetStock(tenant, sku, stock) => var r := UpdateProductStock(db, tenant, sku, stock);
      case Create(tenant, product) => var r := CreateProduct(db, tenant, product);
      case Delete(tenant, sku) => var r := RemoveProduct(db, tenant, sku);
      case Sync(tenant, source, found, now) => var r := FinishSync(db, tenant, source, found, now);
      case _ =>
    }
  }

  /** The operations as the program performs them take the database where the machine goes, and
      leave a valid database valid. */
  method Execute(db: Db, op: Op)
    requires Valid(db.State())
    modifies db
    ensures db.State() == Next(old(db.State()), op)
    ensures Valid(db.State())
  {
    NextKeepsValid(db.State(), op);
    if Trading(op) {
      ExecuteTrade(db, op);
    } else {
      ExecuteCatalog(db, op);
    }
  }

  // ---------- what every operation keeps ----------

  lemma ShippedKeeps(ps: seq<Product>, tenant: nat, lines: seq<Line>)
    requires ValidProducts(ps)
    ensures ValidProducts(Shipped(ps, tenant, lines))
  {
  }

  lemma RestockedKeeps(ps: seq<Product>, tenant: nat, lines: seq<Line>)
    requires ValidProducts(ps)
    ensures ValidProducts(Restocked(ps, tenant, lines))
  {
  }

  lemma SyncStepKeeps(ps: seq<Product>, tenant: nat, source: nat, found: seq<Scraped>, now: int)
    requires ValidProducts(ps)
    ensures ValidProducts(AfterSync(ps, tenant, source, found, now))
  {
    if Usable(found) != [] {
      SyncKeepsValid(Batch(tenant, source, Usable(found), now), ps);
    }
  }

  lemma NextKeepsProducts(s: Shop, op: Op)
    requires ValidProducts(s.products)
    ensures ValidProducts(Next(s, op).products)
  {
    match op {
      case Place(rq) =>
        if Accepted(s.products, rq) {
          ShippedKeeps(s.products, rq.tenant, LinesOf(Picks(s.products, rq)));
        }
      case CustomerCancels(tenant, ref, who) =>
        var k := FindOrder(s.orders, tenant, ref);
        if k.Some? {
          RestockedKeeps(s.products, s.orders[k.value].tenant, s.orders[k.value].lines);
        }
      case AdminCancels(tenant, ref) =>
        var k := FindOrder(s.orders, tenant, ref);
        if k.Some? {
          RestockedKeeps(s.products, s.orders[k.value].tenant, s.orders[k.value].lines);
        }
      case SetStock(tenant, sku, stock) => StockSetKeeps(s.products, tenant, sku, stock);
      case Create(tenant, product) => CreatedKeeps(s.products, tenant, product);
      case Delete(tenant, sku) => RemovedKeeps(s.products, tenant, sku);
      case Sync(tenant, source, found, now) => SyncStepKeeps(s.products, tenant, source, found, now);
      case _ =>
    }
  }

  /** What never changes about an order. */
  predicate SameDeal(o: Order, p: Order) {
    p == o.(status := p.status, payBy := p.payBy)
  }

  /** The moves of an order's status. */
  predicate MayMove(op: Op, before: Status, after: Status) {
    || before == after
    || (after == Cancelled && (op.AdminCancels? || (op.CustomerCancels? && before != Paid)))
    || (op.ChangePayment? && {before, after} <= {AwaitingPayment, PendingDelivery})
    || (op.Approve? && before == AwaitingPayment && after == Paid)
  }

  /** One step on the order table: the orders there keep their deal and move as they may, and
      at most one is added, numbered by its tenant's count. */
  ghost predicate OrderStep(os: seq<Order>, op: Op, os': seq<Order>) {
    && |os| <= |os'| <= |os| + 1
    && (forall i :: 0 <= i < |os| ==>
          && SameDeal(os[i], os'[i]) && MayMove(op, os[i].status, os'[i].status)
          && (os[i].status == Cancelled ==> os'[i] == os[i])
          && (PaymentFits(os[i]) ==> PaymentFits(os'[i])))
    && (|os'| > |os| ==>
          && PaymentFits(os'[|os|]) && os'[|os|].status != Cancelled
          && os'[|os|].ref == OrderRef(os'[|os|].year, CountOrders(os, os'[|os|].tenant) + 1))
  }

  lemma ReplacedIsOrderStep(os: seq<Order>, op: Op, k: nat, o: Order)
    requires k < |os| && SameDeal(os[k], o) && MayMove(op, os[k].status, o.status)
    requires os[k].status != Cancelled && (PaymentFits(os[k]) ==> PaymentFits(o))
    ensures OrderStep(os, op, os[k := o])
  {
  }

  lemma AppendedIsOrderStep(os: seq<Order>, op: Op, o: Order)
    requires PaymentFits(o) && o.status != Cancelled
    requires o.ref == OrderRef(o.year, CountOrders(os, o.tenant) + 1)
    ensures OrderStep(os, op, os + [o])
  {
  }

  lemma SameIsOrderStep(os: seq<Order>, op: Op)
    ensures OrderStep(os, op, os)
  {
  }

  lemma CancelIsOrderStep(s: Shop, op: Op)
    requires op.CustomerCancels? || op.AdminCancels?
    ensures OrderStep(s.orders, op, Next(s, op).orders)
  {
    SameIsOrderStep(s.orders, op);
    var k := FindOrder(s.orders, op.tenant, op.ref);
    if k.Some? && Next(s, op).orders != s.orders {
      ReplacedIsOrderStep(s.orders, op, k.value, s.orders[k.value].(status := Cancelled));
    }
  }

  lemma PaymentIsOrderStep(s: Shop, op: Op)
    requires op.ChangePayment? || op.Approve?
    ensures OrderStep(s.orders, op, Next(s, op).orders)
  {
    SameIsOrderStep(s.orders, op);
    var k := FindOrder(s.orders, op.tenant, op.ref);
    if k.Some? && Next(s, op).orders != s.orders {
      ReplacedIsOrderStep(s.orders, op, k.value, Next(s, op).orders[k.value]);
    }
  }

  lemma NextIsOrderStep(s: Shop, op: Op)
    ensures OrderStep(s.orders, op, Next(s, op).orders)
  {
    SameIsOrderStep(s.orders, op);
    match op {
      case Place(rq) =>
        if Accepted(s.products, rq) {
          AppendedIsOrderStep(s.orders, op, NewOrder(s, rq));
        }
      case Shopify(_, _, _, _, _, _) => AppendedIsOrderStep(s.orders, op, Next(s, op).orders[|s.orders|]);
      case CustomerCancels(_, _, _) => CancelIsOrderStep(s, op);
      case AdminCancels(_, _) => CancelIsOrderStep(s, op);
      case ChangePayment(_, _, _, _) => PaymentIsOrderStep(s, op);
      case Approve(_, _) => PaymentIsOrderStep(s, op);
      case _ =>
    }
  }

  lemma {:induction false} CountIgnoresStatus(os: seq<Order>, os': seq<Order>, tenant: nat)
    requires |os| == |os'| && forall i :: 0 <= i < |os| ==> SameDeal(os[i], os'[i])
    ensures CountOrders(os, tenant) == CountOrders(os', tenant)
  {
    if os != [] {
      CountIgnoresStatus(os[..|os| - 1], os'[..|os'| - 1], tenant);
    }
  }

  lemma CountBefore(os: seq<Order>, op: Op, os': seq<Order>, i: nat, tenant: nat)
    requires OrderStep(os, op, os') && i <= |os|
    ensures CountOrders(os'[..i], tenant) == CountOrders(os[..i], tenant)
  {
    forall j | 0 <= j < i
      ensures SameDeal(os[..i][j], os'[..i][j])
    {
    }
    CountIgnoresStatus(os[..i], os'[..i], tenant);
  }

  predicate HasNumber(o: Order, count: nat) {
    o.ref == OrderRef(o.year, count + 1)
  }

  lemma NumberedAt(os: seq<Order>, op: Op, os': seq<Order>, i: nat)
    requires OrderStep(os, op, os') && i < |os'|
    requires i < |os| ==> HasNumber(os[i], CountOrders(os[..i], os[i].tenant))
    ensures HasNumber(os'[i], CountOrders(os'[..i], os'[i].tenant))
  {
    CountBefore(os, op, os', i, os'[i].tenant);
    if i < |os| {
      assert SameDeal(os[i], os'[i]);
    } else {
      assert os[..i] == os;
    }
  }

  lemma OrderStepKeepsPayment(os: seq<Order>, op: Op, os': seq<Order>)
    requires OrderStep(os, op, os') && forall i :: 0 <= i < |os| ==> PaymentFits(os[i])
    ensures forall i :: 0 <= i < |os'| ==> PaymentFits(os'[i])
  {
  }

  lemma OrderStepKeepsValid(os: seq<Order>, op: Op, os': seq<Order>)
    requires ValidOrders(os) && OrderStep(os, op, os')
    ensures ValidOrders(os')
  {
    OrderStepKeepsPayment(os, op, os');
    forall i | 0 <= i < |os'|
      ensures HasNumber(os'[i], CountOrders(os'[..i], os'[i].tenant))
    {
      assert i < |os| ==> HasNumber(os[i], CountOrders(os[..i], os[i].tenant));
      NumberedAt(os, op, os', i);
    }
  }

  lemma NextKeepsValid(s: Shop, op: Op)
    requires Valid(s)
    ensures Valid(Next(s, op))
  {
    NextKeepsProducts(s, op);
    NextIsOrderStep(s, op);
    OrderStepKeepsValid(s.orders, op, Next(s, op).orders);
  }

  /** In every reachable state SKUs are unique per tenant and external ids per source, stock is
      never negative, a product on sale has stock, order references are unique per tenant, and
      an order's payment method fits its status. */
  lemma {:induction false} RunKeepsValid(s: Shop, ops: seq<Op>)
    requires Valid(s)
    ensures Valid(Run(s, ops)) && UniqueRefs(Run(s, ops).orders)
  {
    if ops != [] {
      RunKeepsValid(s, ops[..|ops| - 1]);
      NextKeepsValid(Run(s, ops[..|ops| - 1]), ops[|ops| - 1]);
    }
    NumberedRefsAreUnique(Run(s, ops).orders);
  }

  // ---------- one order over a whole run ----------

  /** An order once made is never dropped, its lines and amounts never change, and once
      cancelled nothing about it does. */
  lemma {:induction false} OrderOverRun(s: Shop, ops: seq<Op>, i: nat)
    requires i < |s.orders|
    ensures i < |Run(s, ops).orders| && SameDeal(s.orders[i], Run(s, ops).orders[i])
    ensures s.orders[i].status == Cancelled ==> Run(s, ops).orders[i] == s.orders[i]
  {
    if ops != [] {
      OrderOverRun(s, ops[..|ops| - 1], i);
      NextIsOrderStep(Run(s, ops[..|ops| - 1]), ops[|ops| - 1]);
    }
  }

  /** The step that cancels order i. */
  predicate Restores(s: Shop, op: Op, i: nat) {
    && i < |s.orders| && i < |Next(s, op).orders|
    && s.orders[i].status != Cancelled && Next(s, op).orders[i].status == Cancelled
  }

  /** It puts exactly the order's lines back on the shelf; and a cancellation that cancels
      nothing changes nothing. */
  lemma CancellingRestocks(s: Shop, op: Op, i: nat)
    ensures Restores(s, op, i) ==> Next(s, op).products == Restocked(s.products, s.orders[i].tenant, s.orders[i].lines)
    ensures (op.CustomerCancels? || op.AdminCancels?) && (forall j: nat :: !Restores(s, op, j)) ==> Next(s, op) == s
  {
    if op.CustomerCancels? || op.AdminCancels? {
      var k := FindOrder(s.orders, op.tenant, op.ref);
      if k.Some? && Next(s, op) != s {
        assert Restores(s, op, k.value);
      }
    }
  }

  function TimesRestored(s: Shop, ops: seq<Op>, i: nat): nat {
    if ops == [] then 0
    else
      var before := ops[..|ops| - 1];
      TimesRestored(s, before, i) + (if Restores(Run(s, before), ops[|ops| - 1], i) then 1 else 0)
  }

  /** The n-th step of the run cancels order i. */
  predicate RestoresAt(s: Shop, ops: seq<Op>, i: nat, n: nat) {
    n < |ops| && Restores(Run(s, ops[..n]), ops[n], i)
  }

  lemma RestoresAtSnoc(s: Shop, ops: seq<Op>, i: nat, n: nat)
    requires ops != []
    ensures n < |ops| - 1 ==> (RestoresAt(s, ops[..|ops| - 1], i, n) <==> RestoresAt(s, ops, i, n))
  {
    if n < |ops| - 1 {
      assert ops[..|ops| - 1][..n] == ops[..n];
    }
  }

  lemma TimesRestoredSnoc(s: Shop, ops: seq<Op>, i: nat)
    requires ops != []
    ensures TimesRestored(s, ops, i)
         == TimesRestored(s, ops[..|ops| - 1], i) + (if RestoresAt(s, ops, i, |ops| - 1) then 1 else 0)
  {
  }

  lemma {:induction false} TimesRestoredIsNumber(s: Shop, ops: seq<Op>, i: nat, counted: nat -> bool)
    requires forall n: nat :: n < |ops| ==> (counted(n) <==> RestoresAt(s, ops, i, n))
    ensures TimesRestored(s, ops, i) == |set n: nat | n < |ops| && counted(n)|
  {
    if ops != [] {
      forall n: nat | n < |ops| - 1
        ensures counted(n) <==> RestoresAt(s, ops[..|ops| - 1], i, n)
      {
        RestoresAtSnoc(s, ops, i, n);
      }
      TimesRestoredIsNumber(s, ops[..|ops| - 1], i, counted);
      TimesRestoredSnoc(s, ops, i);
      OneMoreCounted(|ops| - 1, counted);
    }
  }

  /** Over any run, the stock of an order is put back at most once, and exactly once if it ends
      up cancelled without having started so. */
  lemma {:induction false} RestoredOnce(s: Shop, ops: seq<Op>, i: nat)
    requires i < |s.orders| && s.orders[i].status != Cancelled
    ensures i < |Run(s, ops).orders|
    ensures TimesRestored(s, ops, i) == if Run(s, ops).orders[i].status == Cancelled then 1 else 0
  {
    OrderOverRun(s, ops, i);
    if ops != [] {
      var before := ops[..|ops| - 1];
      RestoredOnce(s, before, i);
      NextIsOrderStep(Run(s, before), ops[|ops| - 1]);
    }
  }

  // ---------- the stock ledger ----------

  function Outstanding(o: Order, tenant: nat, sku: string): nat {
    if o.tenant == tenant && o.status != Cancelled then Units(o.lines, sku) else 0
  }

  /** The units of a SKU on a tenant's orders that are not cancelled. */
  function UnitsOut(os: seq<Order>, tenant: nat, sku: string): nat {
    if os == [] then 0 else UnitsOut(os[..|os| - 1], tenant, sku) + Outstanding(os[|os| - 1], tenant, sku)
  }

  /** What is on the shelf plus what is on open or paid orders. */
  function Ledger(s: Shop, i: nat): int
    requires i < |s.products|
  {
    s.products[i].stock + UnitsOut(s.orders, s.products[i].tenant, s.products[i].sku)
  }

  /** Units an operation puts on an order without taking them off the shelf: what a cart asks
      for beyond the stock when its lines for one product are added up, and everything on an
      order kept for the Shopify backend. */
  function Uncovered(s: Shop, op: Op, i: nat): nat
    requires i < |s.products|
  {
    var p := s.products[i];
    match op
    case Place(rq) =>
      if Accepted(s.products, rq) && rq.tenant == p.tenant
      then Short(Units(LinesOf(Picks(s.products, rq)), p.sku), p.stock) else 0
    case Shopify(tenant, _, lines, _, _, _) => if tenant == p.tenant then Units(lines, p.sku) else 0
    case _ => 0
  }

  function Short(units: nat, stock: int): nat {
    if units == 0 || units <= stock then 0 else units - stock
  }

  lemma {:induction false} UnitsOutUpdate(os: seq<Order>, k: nat, o: Order, tenant: nat, sku: string)
    requires k < |os|
    ensures UnitsOut(os[k := o], tenant, sku)
         == UnitsOut(os, tenant, sku) - Outstanding(os[k], tenant, sku) + Outstanding(o, tenant, sku)
  {
    var init := os[..|os| - 1];
    if k == |init| {
      assert os[k := o][..|init|] == init;
    } else {
      UnitsOutUpdate(init, k, o, tenant, sku);
      assert os[k := o][..|init|] == init[k := o];
    }
  }

  lemma UnitsOutAppend(os: seq<Order>, o: Order, tenant: nat, sku: string)
    ensures UnitsOut(os + [o], tenant, sku) == UnitsOut(os, tenant, sku) + Outstanding(o, tenant, sku)
  {
  }

  lemma CancellingKeepsLedger(s: Shop, k: nat, i: nat)
    requires k < |s.orders| && s.orders[k].status != Cancelled && i < |s.products|
    ensures |Cancelling(s, k).products| == |s.products| && Ledger(Cancelling(s, k), i) == Ledger(s, i)
  {
    var p, o := s.products[i], s.orders[k];
    UnitsOutUpdate(s.orders, k, o.(status := Cancelled), p.tenant, p.sku);
  }

  lemma PlacingMovesLedger(s: Shop, rq: Request, i: nat)
    requires ValidProducts(s.products) && Accepted(s.products, rq) && i < |s.products|
    ensures |Placed(s, rq).products| == |s.products|
    ensures Ledger(Placed(s, rq), i) == Ledger(s, i) + Uncovered(s, Place(rq), i)
  {
    var p, o := s.products[i], NewOrder(s, rq);
    UnitsOutAppend(s.orders, o, p.tenant, p.sku);
  }

  lemma PaymentKeepsLedger(s: Shop, k: nat, o: Order, i: nat)
    requires k < |s.orders| && i < |s.products|
    requires o.tenant == s.orders[k].tenant && o.lines == s.orders[k].lines
    requires o.status == Cancelled <==> s.orders[k].status == Cancelled
    ensures Ledger(s.(orders := s.orders[k := o]), i) == Ledger(s, i)
  {
    UnitsOutUpdate(s.orders, k, o, s.products[i].tenant, s.products[i].sku);
  }

  lemma CancelStepKeepsLedger(s: Shop, op: Op, i: nat)
    requires i < |s.products| && (op.CustomerCancels? || op.AdminCancels?)
    ensures |Next(s, op).products| == |s.products|
    ensures SameButStock(s.products[i], Next(s, op).products[i])
    ensures Ledger(Next(s, op), i) == Ledger(s, i)
  {
    var k := FindOrder(s.orders, op.tenant, op.ref);
    if k.Some? && s.orders[k.value].status != Cancelled {
      CancellingKeepsLedger(s, k.value, i);
    }
  }

  lemma PaymentStepKeepsLedger(s: Shop, op: Op, i: nat)
    requires i < |s.products| && (op.ChangePayment? || op.Approve?)
    ensures Next(s, op).products == s.products
    ensures Ledger(Next(s, op), i) == Ledger(s, i)
  {
    var k := FindOrder(s.orders, op.tenant, op.ref);
    if k.Some? && Next(s, op) != s {
      PaymentKeepsLedger(s, k.value, Next(s, op).orders[k.value], i);
    }
  }

  /** Selling and cancelling move the ledger of a product by exactly the uncovered units. */
  lemma LedgerStep(s: Shop, op: Op, i: nat)
    requires ValidProducts(s.products) && Trading(op) && i < |s.products|
    ensures |Next(s, op).products| == |s.products|
    ensures SameButStock(s.products[i], Next(s, op).products[i])
    ensures Ledger(Next(s, op), i) == Ledger(s, i) + Uncovered(s, op, i)
  {
    if op.Place? {
      if Accepted(s.products, op.rq) {
        PlacingMovesLedger(s, op.rq, i);
      }
    } else if op.Shopify? {
      UnitsOutAppend(s.orders, Next(s, op).orders[|s.orders|], s.products[i].tenant, s.products[i].sku);
    } else if op.CustomerCancels? || op.AdminCancels? {
      CancelStepKeepsLedger(s, op, i);
    } else {
      PaymentStepKeepsLedger(s, op, i);
    }
  }

  /** The uncovered units of the n-th operation of a run. */
  function UncoveredAt(s: Shop, ops: seq<Op>, n: nat, i: nat): nat
    requires n < |ops|
  {
    var now := Run(s, ops[..n]);
    if i < |now.products| then Uncovered(now, ops[n], i) else 0
  }

  function SumTo(f: nat -> nat, n: nat): nat {
    if n == 0 then 0 else SumTo(f, n - 1) + f(n - 1)
  }

  lemma {:induction false} SumIsZero(f: nat -> nat, n: nat)
    ensures SumTo(f, n) == 0 <==> forall m: nat :: m < n ==> f(m) == 0
  {
    if n > 0 {
      SumIsZero(f, n - 1);
    }
  }

  function UncoveredOf(s: Shop, ops: seq<Op>, i: nat): nat -> nat {
    (n: nat) => if n < |ops| then UncoveredAt(s, ops, n, i) else 0
  }

  function UncoveredOver(s: Shop, ops: seq<Op>, n: nat, i: nat): nat {
    SumTo(UncoveredOf(s, ops, i), n)
  }

  lemma RunTo(s: Shop, ops: seq<Op>, n: nat)
    requires 0 < n <= |ops|
    ensures Run(s, ops[..n]) == Next(Run(s, ops[..n - 1]), ops[n - 1])
  {
    assert ops[..n][..n - 1] == ops[..n - 1];
  }

  lemma UncoveredTo(s: Shop, ops: seq<Op>, n: nat, i: nat)
    requires 0 < n <= |ops|
    ensures UncoveredOver(s, ops, n, i) == UncoveredOver(s, ops, n - 1, i) + UncoveredAt(s, ops, n - 1, i)
  {
  }

  /** Over every run of sales, cancellations and payments, stock plus units on orders that are
      not cancelled never falls, and grows by exactly the units that were never covered. */
  lemma {:induction false} LedgerOverPrefix(s: Shop, ops: seq<Op>, n: nat, i: nat)
    requires Valid(s) && i < |s.products| && n <= |ops|
    requires forall m :: 0 <= m < |ops| ==> Trading(ops[m])
    ensures |Run(s, ops[..n]).products| == |s.products|
    ensures Ledger(Run(s, ops[..n]), i) == Ledger(s, i) + UncoveredOver(s, ops, n, i)
  {
    if n > 0 {
      LedgerOverPrefix(s, ops, n - 1, i);
      RunKeepsValid(s, ops[..n - 1]);
      LedgerStep(Run(s, ops[..n - 1]), ops[n - 1], i);
      RunTo(s, ops, n);
      UncoveredTo(s, ops, n, i);
    }
  }

  lemma LedgerOverRun(s: Shop, ops: seq<Op>, i: nat)
    requires Valid(s) && i < |s.products|
    requires forall n :: 0 <= n < |ops| ==> Trading(ops[n])
    ensures |Run(s, ops).products| == |s.products|
    ensures Ledger(Run(s, ops), i) == Ledger(s, i) + UncoveredOver(s, ops, |ops|, i)
  {
    LedgerOverPrefix(s, ops, |ops|, i);
    assert ops[..|ops|] == ops;
  }

  /** No order of the run asks for more of a product than there is when it is placed, adding up
      the lines for that product, and none is a Shopify order for it. */
  ghost predicate AllCovered(s: Shop, ops: seq<Op>, i: nat) {
    forall n: nat :: n < |ops| ==> UncoveredOf(s, ops, i)(n) == 0
  }

  /** So stock plus outstanding units is constant exactly when every order was covered. */
  lemma LedgerConstant(s: Shop, ops: seq<Op>, i: nat)
    requires Valid(s) && i < |s.products|
    requires forall n :: 0 <= n < |ops| ==> Trading(ops[n])
    ensures |Run(s, ops).products| == |s.products|
    ensures Ledger(Run(s, ops), i) == Ledger(s, i) <==> AllCovered(s, ops, i)
  {
    LedgerOverRun(s, ops, i);
    SumIsZero(UncoveredOf(s, ops, i), |ops|);
  }

  /** Two lines for all there is of one product. */
  function TwiceAll(rq: Request, p: Product): Request {
    rq.(items := [CartItem(p.sku, p.stock, ""), CartItem(p.sku, p.stock, "")])
  }

  lemma PlainItemPasses(ps: seq<Product>, rq: Request, row: nat)
    requires UniqueSkus(ps) && row < |ps| && ps[row].tenant == rq.tenant && ps[row].active
    requires ps[row].options == [] && |ps[row].variants| <= 1
    ensures ResolveItem(ps, rq, CartItem(ps[row].sku, ps[row].stock, ""))
         == Ok(Picked(row, LineFor(ps[row], Variants.Chosen(None, None), ps[row].stock)))
  {
    assert FindProduct(ps, rq.tenant, ps[row].sku) == Some(row);
  }

  lemma UnitsOfTwo(l: Line)
    requires l.sku != "" && l.quantity > 0
    ensures Units([l] + [l], l.sku) == 2 * l.quantity
  {
    assert ([l] + [l])[..1] == [l] && [l][..0] == [];
    assert Units([l], l.sku) == l.quantity;
  }

  /** Such a cart passes for every product on sale without choices, and leaves a whole stock
      uncovered: the shelf is emptied once, the order asks for twice as much. */
  lemma CartCanOvershoot(s: Shop, rq: Request, row: nat)
    requires Valid(s) && row < |s.products| && s.products[row].tenant == rq.tenant && s.products[row].active
    requires s.products[row].options == [] && |s.products[row].variants| <= 1
    requires PayMethod(rq.payment).Some? && rq.customer.Some?
    ensures var p, order := s.products[row], TwiceAll(rq, s.products[row]);
            && Accepted(s.products, order) && p.stock >= 1
            && Uncovered(s, Place(order), row) == p.stock
            && |Next(s, Place(order)).products| == |s.products|
            && Ledger(Next(s, Place(order)), row) == Ledger(s, row) + p.stock
  {
    var p, order := s.products[row], TwiceAll(rq, s.products[row]);
    PlainItemPasses(s.products, order, row);
    var line := LineFor(p, Variants.Chosen(None, None), p.stock);
    assert LinesOf(Picks(s.products, order)) == [line] + [line];
    UnitsOfTwo(line);
    LedgerStep(s, Place(order), row);
  }

  // ---------- money ----------

  /** The sum of the exact, unrounded line amounts. */
  function ExactSubtotal(lines: seq<Line>): real {
    if lines == [] then 0.0
    else
      var l := lines[|lines| - 1];
      ExactSubtotal(lines[..|lines| - 1]) + Exact(l)
  }

  function Exact(l: Line): real {
    LineAmount(l.unitPrice, l.quantity)
  }

  predicate Rounded(l: Line) {
    l.lineTotal == Quantize(Exact(l))
  }

  predicate LinesRounded(lines: seq<Line>) {
    forall i :: 0 <= i < |lines| ==> Rounded(lines[i])
  }

  lemma {:induction false} SubtotalNearExact(lines: seq<Line>)
    requires LinesRounded(lines)
    ensures WholeCents(Subtotal(lines))
    ensures -0.005 * |lines| as real <= Subtotal(lines) - ExactSubtotal(lines) <= 0.005 * |lines| as real
  {
    if lines == [] {
      assert Subtotal(lines) == Cents(0);
    } else {
      var init, l := lines[..|lines| - 1], lines[|lines| - 1];
      SubtotalNearExact(init);
      QuantizeWithinHalfCent(Exact(l));
      assert Rounded(l);
      CentsAdd(Subtotal(init), l.lineTotal);
      assert 0.005 * |lines| as real == 0.005 * |init| as real + 0.005;
    }
  }

  /** The books of an order taken in chat: each line is rounded to cents, the subtotal is their
      sum and within half a cent per line of the exact amount, and the total exceeds it by
      exactly the delivery charge. */
  ghost predicate MoneyFits(o: Order) {
    o.mode == WhatsappOnly ==>
      && LinesRounded(o.lines) && o.subtotal == Subtotal(o.lines) && WholeCents(o.subtotal)
      && -0.005 * |o.lines| as real <= o.subtotal - ExactSubtotal(o.lines) <= 0.005 * |o.lines| as real
      && o.total - o.subtotal == o.deliveryCharge && WholeCents(o.deliveryCharge)
  }

  lemma PicksRounded(ps: seq<Product>, rq: Request)
    requires CartPasses(ps, rq)
    ensures LinesRounded(LinesOf(Picks(ps, rq)))
  {
  }

  lemma ChargeIsCents(delivery: Option<real>)
    ensures WholeCents(DeliveryCharge(delivery))
  {
    if delivery.Some? {
      QuantizeWithinHalfCent(delivery.value);
    } else {
      assert DeliveryCharge(delivery) == Cents(0);
    }
  }

  lemma OrderRowMoney(rq: Request, lines: seq<Line>, ref: string)
    requires rq.customer.Some? && PayMethod(rq.payment).Some? && LinesRounded(lines)
    ensures MoneyFits(OrderRow(rq, lines, ref))
  {
    var delivery := DeliveryCharge(rq.delivery);
    SubtotalNearExact(lines);
    ChargeIsCents(rq.delivery);
    CentsAdd(Subtotal(lines), delivery);
    QuantizeKeepsCents(Subtotal(lines) + delivery);
  }

  lemma NewOrderMoney(s: Shop, rq: Request)
    requires Accepted(s.products, rq)
    ensures MoneyFits(NewOrder(s, rq))
  {
    PicksRounded(s.products, rq);
    OrderRowMoney(rq, LinesOf(Picks(s.products, rq)), NewOrder(s, rq).ref);
  }

  ghost predicate AllMoneyFits(os: seq<Order>) {
    forall i :: 0 <= i < |os| ==> MoneyFits(os[i])
  }

  lemma SameDealKeepsMoney(o: Order, p: Order)
    requires SameDeal(o, p) && MoneyFits(o)
    ensures MoneyFits(p)
  {
  }

  lemma OrderStepKeepsMoney(os: seq<Order>, op: Op, os': seq<Order>)
    requires OrderStep(os, op, os') && AllMoneyFits(os) && (|os'| > |os| ==> MoneyFits(os'[|os|]))
    ensures AllMoneyFits(os')
  {
    forall i | 0 <= i < |os'|
      ensures MoneyFits(os'[i])
    {
      if i < |os| {
        SameDealKeepsMoney(os[i], os'[i]);
      }
    }
  }

  lemma AddedMoneyFits(s: Shop, op: Op)
    requires |Next(s, op).orders| > |s.orders|
    ensures MoneyFits(Next(s, op).orders[|s.orders|])
  {
    NextIsOrderStep(s, op);
    if op.Place? {
      NewOrderMoney(s, op.rq);
    }
  }

  /** The books of every order hold in every reachable state. */
  lemma {:induction false} MoneyOverRun(s: Shop, ops: seq<Op>)
    requires AllMoneyFits(s.orders)
    ensures AllMoneyFits(Run(s, ops).orders)
  {
    if ops != [] {
      var now, op := Run(s, ops[..|ops| - 1]), ops[|ops| - 1];
      MoneyOverRun(s, ops[..|ops| - 1]);
      NextIsOrderStep(now, op);
      if |Next(now, op).orders| > |now.orders| {
        AddedMoneyFits(now, op);
      }
      OrderStepKeepsMoney(now.orders, op, Next(now, op).orders);
    }
  }
}
