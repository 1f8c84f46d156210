/** Placing, cancelling and paying for orders (app/agents/tools/orders.py, app/db/crud.py,
    app/admin/router.py). */
module Orders {
  import opened Text
  import opened Money
  import opened Variants
  import opened Store

  datatype CartItem = CartItem(sku: string, quantity: int, variant: string)

  /** One call of the order tool.  `candidates` are the rows a blank catalogue search returned,
      `delivery` the admin's delivery charge if it parses as a number. */
  datatype Request = Request(
    tenant: nat,
    customer: Option<nat>,
    items: seq<CartItem>,
    payment: string,
    delivery: Option<real>,
    candidates: seq<nat>,
    year: nat)

  datatype Refused =
    | BadPayment
    | BadItems
    | NoItems
    | UnknownSku
    | NotAvailable
    | NotEnough(inStock: int)
    | BadVariant(why: Refusal)
    | NoCustomer
    | NotFound
    | NotTheirs
    | AlreadyCancelled
    | AlreadyPaid

  function PayMethod(payment: string): Option<PayBy> {
    if payment == "bank_transfer" then Some(BankTransfer)
    else if payment == "cod" then Some(Cod)
    else None
  }

  function StatusFor(payBy: PayBy): Status {
    match payBy case Cod => PendingDelivery case BankTransfer => AwaitingPayment
  }

  // ---------- finding the product a cart item means ----------

  predicate InToken(c: char) {
    'a' <= c <= 'z' || '0' <= c <= '9'
  }

  function Tokens(s: string): seq<string> {
    Words(Lower(s), InToken)
  }

  predicate Contains(hay: string, needle: string) {
    exists i :: 0 <= i <= |hay| && needle <= hay[i..]
  }

  predicate TokensFit(requested: seq<string>, name: seq<string>) {
    forall i :: 0 <= i < |requested| ==>
      exists j :: 0 <= j < |name| && (Contains(name[j], requested[i]) || Contains(requested[i], name[j]))
  }

  /** A candidate of the tenant, on sale, whose name fits the tokens. */
  predicate Fits(ps: seq<Product>, tenant: nat, requested: seq<string>, c: nat) {
    c < |ps| && ps[c].tenant == tenant && ps[c].active && TokensFit(requested, Tokens(ps[c].name))
  }

  /** Letters and digits make up tokens. */
  predicate InTyped(c: char) {
    'A' <= c <= 'Z' || 'a' <= c <= 'z' || '0' <= c <= '9'
  }

  /** The tokens of a text are its words, in small letters, whatever stands between them. */
  lemma TokensOfWords(s: Spelled)
    requires WellSpelled(s, InTyped)
    ensures Tokens(AsText(s)) == LowerAll(WordsIn(s))
  {
    LowerText(s);
    LoweredIsSpelled(s, InTyped, InToken);
    WordsOfText(Lowered(s), InToken);
  }

  ghost predicate IsPart(part: string, whole: string) {
    exists a, b :: whole == a + part + b
  }

  lemma ContainsIs(hay: string, needle: string)
    ensures Contains(hay, needle) <==> IsPart(needle, hay)
  {
    if Contains(hay, needle) {
      var i :| 0 <= i <= |hay| && needle <= hay[i..];
      assert hay == hay[..i] + needle + hay[i..][|needle|..];
    }
    if a, b :| hay == a + needle + b {
      assert needle <= hay[|a|..];
    }
  }

  ghost predicate FitsSome(token: string, name: seq<string>) {
    exists n :: n in name && (IsPart(token, n) || IsPart(n, token))
  }

  /** A candidate fits when each token asked for is part of a token of its name, or has one as its
      part. */
  lemma FitsMeans(ps: seq<Product>, tenant: nat, requested: seq<string>, c: nat)
    ensures Fits(ps, tenant, requested, c)
       <==> && c < |ps| && ps[c].tenant == tenant && ps[c].active
            && forall token :: token in requested ==> FitsSome(token, Tokens(ps[c].name))
  {
    if c < |ps| {
      var name := Tokens(ps[c].name);
      forall i, j | 0 <= i < |requested| && 0 <= j < |name|
        ensures Contains(name[j], requested[i]) <==> IsPart(requested[i], name[j])
        ensures Contains(requested[i], name[j]) <==> IsPart(name[j], requested[i])
      {
        ContainsIs(name[j], requested[i]);
        ContainsIs(requested[i], name[j]);
      }
      TokensFitMeans(requested, name);
    }
  }

  lemma TokensFitMeans(requested: seq<string>, name: seq<string>)
    requires forall i, j {:trigger name[j], requested[i]} :: 0 <= i < |requested| && 0 <= j < |name| ==>
               && (Contains(name[j], requested[i]) <==> IsPart(requested[i], name[j]))
               && (Contains(requested[i], name[j]) <==> IsPart(name[j], requested[i]))
    ensures TokensFit(requested, name) <==> forall token :: token in requested ==> FitsSome(token, name)
  {
    if TokensFit(requested, name) {
      forall token | token in requested
        ensures FitsSome(token, name)
      {
        var i :| 0 <= i < |requested| && requested[i] == token;
        var j :| 0 <= j < |name| && (Contains(name[j], requested[i]) || Contains(requested[i], name[j]));
        assert name[j] in name;
      }
    }
    if forall token :: token in requested ==> FitsSome(token, name) {
      forall i | 0 <= i < |requested|
        ensures exists j :: 0 <= j < |name| && (Contains(name[j], requested[i]) || Contains(requested[i], name[j]))
      {
        assert FitsSome(requested[i], name);
        var n :| n in name && (IsPart(requested[i], n) || IsPart(n, requested[i]));
        var j :| 0 <= j < |name| && name[j] == n;
      }
    }
  }

  function FuzzyMatches(ps: seq<Product>, tenant: nat, requested: seq<string>, candidates: seq<nat>): (rows: seq<nat>)
    ensures forall r :: r in rows ==> Fits(ps, tenant, requested, r)
  {
    if candidates == [] then []
    else
      var rest := FuzzyMatches(ps, tenant, requested, candidates[..|candidates| - 1]);
      var c := candidates[|candidates| - 1];
      if Fits(ps, tenant, requested, c) then rest + [c] else rest
  }

  /** The one candidate whose name fits every token of a made-up SKU; none if several do. */
  function FuzzyMatch(ps: seq<Product>, tenant: nat, sku: string, candidates: seq<nat>): (row: Option<nat>)
    ensures row.Some? ==> row.value < |ps| && ps[row.value].tenant == tenant && ps[row.value].active
  {
    var tokens := Tokens(sku);
    if tokens == [] then None
    else
      var rows := FuzzyMatches(ps, tenant, tokens, candidates);
      if |rows| == 1 then
        assert rows[0] in rows;
        Some(rows[0])
      else None
  }

  ghost predicate Distinct(rows: seq<nat>) {
    forall i, j :: 0 <= i < j < |rows| ==> rows[i] != rows[j]
  }

  lemma {:induction false} FuzzyMatchesAre(ps: seq<Product>, tenant: nat, requested: seq<string>, candidates: seq<nat>)
    requires Distinct(candidates)
    ensures forall c :: c in FuzzyMatches(ps, tenant, requested, candidates)
                   <==> c in candidates && Fits(ps, tenant, requested, c)
    ensures Distinct(FuzzyMatches(ps, tenant, requested, candidates))
  {
    if candidates != [] {
      var init, last := candidates[..|candidates| - 1], candidates[|candidates| - 1];
      FuzzyMatchesAre(ps, tenant, requested, init);
      assert candidates == init + [last];
      assert last !in init;
      MatchesSnoc(ps, tenant, requested, init, last);
    }
  }

  lemma MatchesSnoc(ps: seq<Product>, tenant: nat, requested: seq<string>, init: seq<nat>, last: nat)
    ensures FuzzyMatches(ps, tenant, requested, init + [last])
         == FuzzyMatches(ps, tenant, requested, init) + (if Fits(ps, tenant, requested, last) then [last] else [])
  {
  }

  /** A made-up SKU is recovered exactly when one candidate, and only one, fits it. */
  lemma RecoveredOnlyIfUnique(ps: seq<Product>, tenant: nat, sku: string, candidates: seq<nat>, row: nat)
    requires Distinct(candidates)
    requires FindProduct(ps, tenant, sku).None?
    ensures ResolveProduct(ps, tenant, sku, candidates) == Some(row)
       <==> && Tokens(sku) != [] && row in candidates && Fits(ps, tenant, Tokens(sku), row)
            && forall c :: c in candidates && Fits(ps, tenant, Tokens(sku), c) ==> c == row
  {
    var rows := FuzzyMatches(ps, tenant, Tokens(sku), candidates);
    FuzzyMatchesAre(ps, tenant, Tokens(sku), candidates);
    if |rows| >= 2 {
      assert rows[0] in rows && rows[1] in rows && rows[0] != rows[1];
    } else if |rows| == 1 {
      assert rows[0] in rows;
    }
  }

  function ResolveProduct(ps: seq<Product>, tenant: nat, sku: string, candidates: seq<nat>): (row: Option<nat>)
    ensures row.Some? ==> row.value < |ps| && ps[row.value].tenant == tenant
  {
    match FindProduct(ps, tenant, sku)
    case Some(row) => Some(row)
    case None => FuzzyMatch(ps, tenant, sku, candidates)
  }

  // ---------- pricing and checking one item ----------

  datatype Picked = Picked(row: nat, line: Line)

  /** The variant's price, unless it has none or it is zero. */
  function UnitPrice(chosen: Chosen, p: Product): real {
    if chosen.price.Some? && chosen.price.value.units != 0 then Amount(chosen.price.value) else Amount(p.price)
  }

  function LineAmount(unitPrice: real, quantity: int): real {
    unitPrice * quantity as real
  }

  function LineFor(p: Product, chosen: Chosen, quantity: int): Line {
    var unit := UnitPrice(chosen, p);
    var name := match chosen.name
                case Some(v) => if v != "" then p.name + " (" + v + ")" else p.name
                case None => p.name;
    Line(p.sku, name, quantity, unit, Quantize(LineAmount(unit, quantity)))
  }

  function ResolveItem(ps: seq<Product>, rq: Request, item: CartItem): (r: Result<Picked, Refused>)
    ensures r.Ok? ==>
      && r.value.row < |ps| && ps[r.value.row].tenant == rq.tenant
      && ps[r.value.row].active && item.quantity <= ps[r.value.row].stock
      && r.value.line.sku == ps[r.value.row].sku && r.value.line.quantity == item.quantity
  {
    match ResolveProduct(ps, rq.tenant, item.sku, rq.candidates)
    case None => Err(UnknownSku)
    case Some(row) =>
      var p := ps[row];
      if !p.active then Err(NotAvailable)
      else if p.stock < item.quantity then Err(NotEnough(p.stock))
      else
        match ResolveVariant(p.variants, p.options, item.variant)
        case Err(why) => Err(BadVariant(why))
        case Ok(chosen) => Ok(Picked(row, LineFor(p, chosen, item.quantity)))
  }

  /** Whatever way variant k has been named, the order line carries its price. */
  lemma CarriedPriceIsCharged(ps: seq<Product>, rq: Request, row: nat, k: nat, quantity: int, requested: string)
    requires UniqueSkus(ps) && row < |ps| && ps[row].tenant == rq.tenant
    requires ps[row].active && quantity <= ps[row].stock && k < |ps[row].variants|
    requires ResolveVariant(ps[row].variants, ps[row].options, requested) == Ok(Carries(ps[row].variants[k], requested))
    ensures OrdersVariant(ResolveItem(ps, rq, CartItem(ps[row].sku, quantity, requested)), ps[row], row, k, quantity)
    // and the line is labelled with it, or with the request where the variant has no name
    ensures var shown := if ps[row].variants[k].name != "" then ps[row].variants[k].name else Strip(requested);
            shown != "" ==>
              ResolveItem(ps, rq, CartItem(ps[row].sku, quantity, requested)).value.line.name
              == ps[row].name + " (" + shown + ")"
  {
    assert FindProduct(ps, rq.tenant, ps[row].sku) == Some(row);
  }

  /** Why an item is refused: nothing is found for its SKU, or what is found is off sale, or there is
      too little of it, or the choice does not do. */
  lemma ItemRefused(ps: seq<Product>, rq: Request, item: CartItem)
    ensures var found, r := ResolveProduct(ps, rq.tenant, item.sku, rq.candidates), ResolveItem(ps, rq, item);
            && (r == Err(UnknownSku) <==> found.None?)
            && (r == Err(NotAvailable) <==> found.Some? && !ps[found.value].active)
            && (r.Err? && r.error.NotEnough? <==>
                  found.Some? && ps[found.value].active && ps[found.value].stock < item.quantity)
            && (r.Err? && r.error.NotEnough? ==> r.error.inStock == ps[found.value].stock)
            && (r.Err? && r.error.BadVariant? ==>
                  ResolveVariant(ps[found.value].variants, ps[found.value].options, item.variant) == Err(r.error.why))
  {
  }

  /** A choice the catalogue shows for a product on sale can be ordered as it is printed: the
      item passes, for that product, at the price of an in-stock variant of that name. */
  lemma ShownCanBeOrdered(ps: seq<Product>, rq: Request, row: nat, choice: string, quantity: int)
    requires UniqueSkus(ps) && row < |ps| && ps[row].tenant == rq.tenant
    requires ps[row].active && quantity <= ps[row].stock
    requires forall k :: 0 <= k < |ps[row].variants| ==> OnlyOneNamed(ps[row].variants, k)
    requires choice in ChoicesShown(ps[row].variants) && Strip(choice) != ""
    ensures exists k :: && 0 <= k < |ps[row].variants|
                        && ps[row].variants[k].available && ps[row].variants[k].name == choice
                        && OrdersVariant(ResolveItem(ps, rq, CartItem(ps[row].sku, quantity, choice)),
                                         ps[row], row, k, quantity)
  {
    var p := ps[row];
    ShownMeansOrderable(p.variants, p.options, choice);
    var k :| && 0 <= k < |p.variants| && p.variants[k].available && p.variants[k].name == choice
             && ResolveVariant(p.variants, p.options, choice) == Ok(Chosen(Some(choice), p.variants[k].price));
    assert FindProduct(ps, rq.tenant, p.sku) == Some(row);
    assert OrdersVariant(ResolveItem(ps, rq, CartItem(p.sku, quantity, choice)), p, row, k, quantity);
  }

  /** The item became a line for that row at the price of variant k, or the product's own price
      where the variant has none. */
  predicate OrdersVariant(r: Result<Picked, Refused>, p: Product, row: nat, k: nat, quantity: int)
    requires k < |p.variants|
  {
    && r.Ok? && r.value.row == row
    && r.value.line.sku == p.sku && r.value.line.quantity == quantity
    && r.value.line.unitPrice == (match p.variants[k].price
                                  case Some(price) => if price.units != 0 then Amount(price) else Amount(p.price)
                                  case None => Amount(p.price))
    && r.value.line.lineTotal == Quantize(LineAmount(r.value.line.unitPrice, quantity))
  }

  /** What the customer is charged per piece: the product's price, or the price of an in-stock
      variant that has one; where there is nothing to choose, the product's price. */
  ghost predicate PricedLike(p: Product, line: Line) {
    || line.unitPrice == Amount(p.price)
    || (&& HasChoice(p.variants, p.options)
        && exists k :: && 0 <= k < |p.variants| && p.variants[k].available && p.variants[k].price.Some?
                       && p.variants[k].price.value.units != 0 && line.unitPrice == Amount(p.variants[k].price.value))
  }

  /** The line of an item: the product's SKU, the quantity asked for, its price, and that price
      times the quantity, rounded to cents. */
  ghost predicate LineOfItem(ps: seq<Product>, rq: Request, item: CartItem, row: nat, line: Line) {
    && row < |ps| && ps[row].tenant == rq.tenant && ps[row].active && item.quantity <= ps[row].stock
    && line.sku == ps[row].sku && line.quantity == item.quantity && PricedLike(ps[row], line)
    && line.lineTotal == Quantize(LineAmount(line.unitPrice, item.quantity))
    && (!HasChoice(ps[row].variants, ps[row].options) ==> line.name == ps[row].name)
    && (ps[row].sku == item.sku || FindProduct(ps, rq.tenant, item.sku).None?)
  }

  lemma ChosenIsInStock(variants: seq<Variant>, options: seq<OptionGroup>, requested: string)
    ensures var r := ResolveVariant(variants, options, requested);
            r.Ok? ==>
              && (r.value.name.Some? ==> HasChoice(variants, options))
              && (r.value.price.Some? ==>
                    && HasChoice(variants, options)
                    && exists k :: 0 <= k < |variants| && variants[k].available && variants[k].price == r.value.price)
  {
    var r, matches := ResolveVariant(variants, options, requested), MatchVariants(variants, requested);
    if r.Ok? && r.value.price.Some? {
      assert matches[0] in matches;
      var k :| 0 <= k < |variants| && variants[k] == matches[0];
    }
  }

  /** Every item that passes becomes such a line. */
  lemma ItemBecomesLine(ps: seq<Product>, rq: Request, item: CartItem)
    requires ResolveItem(ps, rq, item).Ok?
    ensures var picked := ResolveItem(ps, rq, item).value; LineOfItem(ps, rq, item, picked.row, picked.line)
  {
    var p := ps[ResolveProduct(ps, rq.tenant, item.sku, rq.candidates).value];
    ChosenIsInStock(p.variants, p.options, item.variant);
  }

  /** The amount is the price once for each piece. */
  lemma AmountAddsUp(unitPrice: real, quantity: int)
    ensures LineAmount(unitPrice, 0) == 0.0
    ensures LineAmount(unitPrice, quantity + 1) == LineAmount(unitPrice, quantity) + unitPrice
  {
    assert unitPrice * (quantity as real + 1.0) == unitPrice * quantity as real + unitPrice;
  }

  ghost predicate HasLine(ps: seq<Product>, rq: Request, item: CartItem, line: Line) {
    exists row: nat :: LineOfItem(ps, rq, item, row, line)
  }

  // ---------- the whole cart ----------

  /** Every item passes on its own; the items are not added up. */
  predicate CartPasses(ps: seq<Product>, rq: Request) {
    forall i :: 0 <= i < |rq.items| ==> ResolveItem(ps, rq, rq.items[i]).Ok?
  }

  function Picks(ps: seq<Product>, rq: Request): (picks: seq<Picked>)
    requires CartPasses(ps, rq)
    ensures |picks| == |rq.items|
  {
    seq(|rq.items|, i requires 0 <= i < |rq.items| => ResolveItem(ps, rq, rq.items[i]).value)
  }

  function LinesOf(picks: seq<Picked>): (lines: seq<Line>)
    ensures |lines| == |picks|
  {
    seq(|picks|, i requires 0 <= i < |picks| => picks[i].line)
  }

  function Subtotal(lines: seq<Line>): real {
    if lines == [] then 0.0 else Subtotal(lines[..|lines| - 1]) + lines[|lines| - 1].lineTotal
  }

  lemma SubtotalSnoc(lines: seq<Line>, l: Line)
    ensures Subtotal(lines + [l]) == Subtotal(lines) + l.lineTotal
  {
  }

  predicate GoodItems(items: seq<CartItem>) {
    forall i :: 0 <= i < |items| ==> items[i].quantity >= 1
  }

  lemma BadItem(items: seq<CartItem>)
    ensures GoodItems(items) <==> !exists item :: item in items && item.quantity <= 0
  {
  }

  predicate Accepted(ps: seq<Product>, rq: Request) {
    && PayMethod(rq.payment).Some? && GoodItems(rq.items) && rq.items != []
    && CartPasses(ps, rq) && rq.customer.Some?
  }

  function DeliveryCharge(delivery: Option<real>): real {
    match delivery case Some(x) => Quantize(x) case None => 0.0
  }

  function OrderRow(rq: Request, lines: seq<Line>, ref: string): Order
    requires rq.customer.Some? && PayMethod(rq.payment).Some?
  {
    var delivery, payBy := DeliveryCharge(rq.delivery), PayMethod(rq.payment).value;
    Order(rq.tenant, ref, rq.year, rq.customer.value, WhatsappOnly, lines, Subtotal(lines), delivery,
          Quantize(Subtotal(lines) + delivery), StatusFor(payBy), payBy)
  }

  function NewOrder(s: Shop, rq: Request): Order
    requires Accepted(s.products, rq)
  {
    OrderRow(rq, LinesOf(Picks(s.products, rq)), OrderRef(rq.year, CountOrders(s.orders, rq.tenant) + 1))
  }

  /** The lines of an order are those of the items, one each, in order. */
  ghost predicate LinesOfItems(ps: seq<Product>, rq: Request, lines: seq<Line>) {
    |lines| == |rq.items| && forall i :: 0 <= i < |lines| ==> HasLine(ps, rq, rq.items[i], lines[i])
  }

  lemma PicksBecomeLines(ps: seq<Product>, rq: Request)
    requires CartPasses(ps, rq)
    ensures LinesOfItems(ps, rq, LinesOf(Picks(ps, rq)))
  {
    var picks := Picks(ps, rq);
    forall i | 0 <= i < |picks|
      ensures HasLine(ps, rq, rq.items[i], LinesOf(picks)[i])
    {
      ItemBecomesLine(ps, rq, rq.items[i]);
      assert LineOfItem(ps, rq, rq.items[i], picks[i].row, LinesOf(picks)[i]);
    }
  }

  /** The order says what was asked for and by whom, and waits for the money or for the courier, as
      the payment was named. */
  ghost predicate AsRequested(ps: seq<Product>, rq: Request, o: Order) {
    && rq.customer == Some(o.customer) && o.tenant == rq.tenant && o.mode == WhatsappOnly
    && LinesOfItems(ps, rq, o.lines)
    && WaitsAsNamed(o, rq.payment) && ChargedFor(rq.delivery, o.deliveryCharge) && o.year == rq.year
  }

  /** The charge in whole cents, halves away from zero; none if there is no such setting. */
  ghost predicate ChargedFor(delivery: Option<real>, charge: real) {
    match delivery
    case None => charge == 0.0
    case Some(x) => && WholeCents(charge) && -0.005 <= charge - x <= 0.005
                    && if x >= 0.0 then charge - x > -0.005 else charge - x < 0.005
  }

  /** Cash on delivery waits for the courier, a bank transfer for the money. */
  predicate WaitsAsNamed(o: Order, payment: string) {
    || (payment == "cod" && o.payBy == Cod && o.status == PendingDelivery)
    || (payment == "bank_transfer" && o.payBy == BankTransfer && o.status == AwaitingPayment)
  }

  lemma NewOrderAsRequested(s: Shop, rq: Request)
    requires Accepted(s.products, rq)
    ensures AsRequested(s.products, rq, NewOrder(s, rq))
  {
    PicksBecomeLines(s.products, rq);
    if rq.delivery.Some? {
      QuantizeWithinHalfCent(rq.delivery.value);
    }
  }

  // ---------- stock, in closed form ----------

  /** The units of a SKU on some order lines, as cancelling counts them: a line without SKU or
      with no positive quantity restores nothing. */
  function Units(lines: seq<Line>, sku: string): (n: nat) {
    if lines == [] then 0
    else
      var l := lines[|lines| - 1];
      Units(lines[..|lines| - 1], sku) + (if l.sku != "" && l.sku == sku && l.quantity > 0 then l.quantity else 0)
  }

  function TakeOut(p: Product, units: nat): Product {
    if units == 0 then p
    else
      var left := if p.stock < units then 0 else p.stock - units;
      p.(stock := left, active := p.active && left != 0)
  }

  function PutBack(p: Product, units: nat): Product {
    if units == 0 then p else p.(stock := p.stock + units, active := true)
  }

  /** All the units on the lines leave the shelf at once. */
  function Shipped(ps: seq<Product>, tenant: nat, lines: seq<Line>): (qs: seq<Product>)
    ensures |qs| == |ps|
  {
    seq(|ps|, i requires 0 <= i < |ps| =>
      if ps[i].tenant == tenant then TakeOut(ps[i], Units(lines, ps[i].sku)) else ps[i])
  }

  /** All the units on the lines come back at once. */
  function Restocked(ps: seq<Product>, tenant: nat, lines: seq<Line>): (qs: seq<Product>)
    ensures |qs| == |ps|
  {
    seq(|ps|, i requires 0 <= i < |ps| =>
      if ps[i].tenant == tenant then PutBack(ps[i], Units(lines, ps[i].sku)) else ps[i])
  }

  function AfterSale(p: Product, quantity: int): Product {
    var left := if p.stock - quantity < 0 then 0 else p.stock - quantity;
    p.(stock := left, active := if left == 0 then false else p.active)
  }

  /** Taking one more line out of a shelf that lines have been taken out of. */
  lemma ShipOneMore(ps: seq<Product>, tenant: nat, lines: seq<Line>, l: Line, row: nat)
    requires UniqueSkus(ps) && row < |ps| && HasSku(ps[row], tenant, l.sku) && l.sku != ""
    requires l.quantity >= 1 && ps[row].stock >= 0
    ensures var qs := Shipped(ps, tenant, lines);
            Shipped(ps, tenant, lines + [l]) == qs[row := AfterSale(qs[row], l.quantity)]
  {
  }

  function WithLineBack(ps: seq<Product>, tenant: nat, l: Line): seq<Product> {
    var row := FindProduct(ps, tenant, l.sku);
    if l.sku != "" && l.quantity > 0 && row.Some?
    then ps[row.value := ps[row.value].(stock := ps[row.value].stock + l.quantity, active := true)]
    else ps
  }

  /** Putting one more line back on a shelf that lines have been put back on. */
  lemma RestockOneMore(ps: seq<Product>, tenant: nat, lines: seq<Line>, l: Line)
    requires UniqueSkus(ps)
    ensures Restocked(ps, tenant, lines + [l]) == WithLineBack(Restocked(ps, tenant, lines), tenant, l)
  {
  }

  // ---------- order creation ----------

  function Placed(s: Shop, rq: Request): Shop {
    if Accepted(s.products, rq) then
      Shop(Shipped(s.products, rq.tenant, LinesOf(Picks(s.products, rq))), s.orders + [NewOrder(s, rq)])
    else s
  }

  /** Item k is the first the cart fails at, and why is its reason. */
  predicate FailsFirst(ps: seq<Product>, rq: Request, k: nat, why: Refused) {
    && k < |rq.items| && ResolveItem(ps, rq, rq.items[k]) == Err(why)
    && forall j :: 0 <= j < k ==> ResolveItem(ps, rq, rq.items[j]).Ok?
  }

  /** The reason a request is refused with: the first thing wrong with it. */
  predicate Explains(ps: seq<Product>, rq: Request, why: Refused) {
    if rq.payment !in {"cod", "bank_transfer"} then why == BadPayment
    else if exists item :: item in rq.items && item.quantity <= 0 then why == BadItems
    else if rq.items == [] then why == NoItems
    else if !CartPasses(ps, rq) then exists k: nat :: k < |rq.items| && FailsFirst(ps, rq, k, why)
    else why == NoCustomer
  }

  /** First pass: each item is looked up, checked and priced on its own. */
  method CheckCart(products: seq<Product>, rq: Request) returns (r: Result<seq<Picked>, Refused>, subtotal: real)
    ensures r.Ok? <==> CartPasses(products, rq)
    ensures r.Ok? ==> r.value == Picks(products, rq) && subtotal == Subtotal(LinesOf(r.value))
    ensures r.Err? ==> exists k: nat :: k < |rq.items| && FailsFirst(products, rq, k, r.error)
  {
    r, subtotal := CheckItems(rq.items, item => ResolveItem(products, rq, item));
    if r.Err? {
      ghost var k: nat :| && k < |rq.items| && ResolveItem(products, rq, rq.items[k]) == Err(r.error)
                          && forall j :: 0 <= j < k ==> ResolveItem(products, rq, rq.items[j]).Ok?;
      assert FailsFirst(products, rq, k, r.error);
    }
  }

  method CheckItems(items: seq<CartItem>, resolve: CartItem -> Result<Picked, Refused>)
      returns (r: Result<seq<Picked>, Refused>, subtotal: real)
    ensures r.Ok? ==> |r.value| == |items| && forall i :: 0 <= i < |items| ==> resolve(items[i]) == Ok(r.value[i])
    ensures r.Ok? ==> subtotal == Subtotal(LinesOf(r.value))
    ensures r.Err? ==> exists k :: && 0 <= k < |items| && resolve(items[k]) == Err(r.error)
                                   && forall j :: 0 <= j < k ==> resolve(items[j]).Ok?
  {
    var resolved := [];
    subtotal := 0.0;
    for n := 0 to |items|
      invariant |resolved| == n
      invariant forall i :: 0 <= i < n ==> resolve(items[i]) == Ok(resolved[i])
      invariant subtotal == Subtotal(LinesOf(resolved))
    {
      var item := resolve(items[n]);
      if item.Err? {
        return Err(item.error), subtotal;
      }
      SubtotalSnoc(LinesOf(resolved), item.value.line);
      assert LinesOf(resolved + [item.value]) == LinesOf(resolved) + [item.value.line];
      subtotal := subtotal + item.value.line.lineTotal;
      resolved := resolved + [item.value];
    }
    r := Ok(resolved);
  }

  /** Reduce stock, never below zero; at zero the product goes off sale. */
  method DecrementProductStock(db: Db, row: nat, quantity: int)
    requires row < |db.products|
    modifies db`products
    ensures db.products == old(db.products)[row := AfterSale(old(db.products)[row], quantity)]
  {
    var stock := db.products[row].stock - quantity;
    db.products := db.products[row := db.products[row].(stock := if stock < 0 then 0 else stock)];
    if db.products[row].stock == 0 {
      db.products := db.products[row := db.products[row].(active := false)];
    }
  }

  /** Every resolved line is one for a row of the tenant's products. */
  ghost predicate GoodPicks(ps: seq<Product>, tenant: nat, picks: seq<Picked>) {
    forall i :: 0 <= i < |picks| ==>
      && picks[i].row < |ps| && HasSku(ps[picks[i].row], tenant, picks[i].line.sku)
      && picks[i].line.sku != "" && picks[i].line.quantity >= 1 && ps[picks[i].row].stock >= 0
  }

  /** Second pass: line after line leaves the shelf. */
  method TakeStock(db: Db, tenant: nat, resolved: seq<Picked>)
    requires UniqueSkus(db.products) && GoodPicks(db.products, tenant, resolved)
    modifies db`products
    ensures db.products == Shipped(old(db.products), tenant, LinesOf(resolved))
  {
    ghost var before := db.products;
    for n := 0 to |resolved|
      invariant db.products == Shipped(before, tenant, LinesOf(resolved[..n]))
    {
      ShipOneMore(before, tenant, LinesOf(resolved[..n]), resolved[n].line, resolved[n].row);
      assert LinesOf(resolved[..n + 1]) == LinesOf(resolved[..n]) + [resolved[n].line];
      DecrementProductStock(db, resolved[n].row, resolved[n].line.quantity);
    }
    assert resolved[..|resolved|] == resolved;
  }

  lemma PicksAreGood(ps: seq<Product>, rq: Request)
    requires ValidProducts(ps) && CartPasses(ps, rq) && GoodItems(rq.items)
    ensures GoodPicks(ps, rq.tenant, Picks(ps, rq))
  {
  }

  /** The order tool in whatsapp_only mode.  A refused cart changes nothing. */
  method PlaceOrder(db: Db, rq: Request) returns (r: Result<string, Refused>)
    requires Valid(db.State())
    modifies db
    ensures db.State() == Placed(old(db.State()), rq)
    ensures r.Ok? <==> Accepted(old(db.products), rq)
    ensures r.Ok? ==> r.value == OrderRef(rq.year, CountOrders(old(db.orders), rq.tenant) + 1)
    ensures r.Err? ==> Explains(old(db.products), rq, r.error)
    ensures r.Ok? ==> |db.orders| == |old(db.orders)| + 1
    ensures r.Ok? ==> AsRequested(old(db.products), rq, db.orders[|old(db.orders)|])
  {
    if PayMethod(rq.payment).None? {
      return Err(BadPayment);
    }
    BadItem(rq.items);
    if !GoodItems(rq.items) {
      return Err(BadItems);
    }
    if rq.items == [] {
      return Err(NoItems);
    }
    ghost var before := Shop(db.products, db.orders);
    r := LocalOrder(db, rq);
    if r.Ok? {
      NewOrderAsRequested(before, rq);
    }
  }

  /** The payment is known and the items are good: the cart is checked, and the order made. */
  method LocalOrder(db: Db, rq: Request) returns (r: Result<string, Refused>)
    requires ValidProducts(db.products) && PayMethod(rq.payment).Some? && GoodItems(rq.items) && rq.items != []
    modifies db
    ensures db.State() == Placed(old(db.State()), rq)
    ensures r.Ok? <==> CartPasses(old(db.products), rq) && rq.customer.Some?
    ensures r.Ok? ==> r.value == OrderRef(rq.year, CountOrders(old(db.orders), rq.tenant) + 1)
    ensures r.Err? ==> if CartPasses(old(db.products), rq) then r.error == NoCustomer
                       else exists k: nat :: k < |rq.items| && FailsFirst(old(db.products), rq, k, r.error)
  {
    var checked, subtotal := CheckCart(db.products, rq);
    if checked.Err? {
      return Err(checked.error);
    }
    if rq.customer.None? {
      return Err(NoCustomer);
    }
    PicksAreGood(db.products, rq);
    var ref := Confirm(db, rq, checked.value, subtotal);
    r := Ok(ref);
  }

  /** All checks passed: stock leaves the shelf and the order is written. */
  method Confirm(db: Db, rq: Request, resolved: seq<Picked>, subtotal: real) returns (ref: string)
    requires UniqueSkus(db.products) && GoodPicks(db.products, rq.tenant, resolved)
    requires rq.customer.Some? && PayMethod(rq.payment).Some? && subtotal == Subtotal(LinesOf(resolved))
    modifies db
    ensures ref == OrderRef(rq.year, CountOrders(old(db.orders), rq.tenant) + 1)
    ensures db.products == Shipped(old(db.products), rq.tenant, LinesOf(resolved))
    ensures db.orders == old(db.orders) + [OrderRow(rq, LinesOf(resolved), ref)]
  {
    TakeStock(db, rq.tenant, resolved);
    ref := CreateOrder(db, rq, LinesOf(resolved), subtotal);
  }

  /** Inserts the order row.  Cash-on-delivery orders skip the receipt step. */
  method CreateOrder(db: Db, rq: Request, lines: seq<Line>, subtotal: real) returns (ref: string)
    requires rq.customer.Some? && PayMethod(rq.payment).Some? && subtotal == Subtotal(lines)
    modifies db`orders
    ensures ref == OrderRef(rq.year, CountOrders(old(db.orders), rq.tenant) + 1)
    ensures db.orders == old(db.orders) + [OrderRow(rq, lines, ref)]
  {
    var delivery := DeliveryCharge(rq.delivery);
    var total := Quantize(subtotal + delivery);
    ref := OrderRef(rq.year, CountOrders(db.orders, rq.tenant) + 1);
    var payBy := PayMethod(rq.payment).value;
    var status := if payBy == Cod then PendingDelivery else AwaitingPayment;
    db.orders := db.orders + [Order(rq.tenant, ref, rq.year, rq.customer.value, WhatsappOnly, lines,
                                    subtotal, delivery, total, status, payBy)];
  }

  /** What the Shopify backend returned, kept for the books: no stock moves. */
  function Recorded(s: Shop, tenant: nat, customer: nat, lines: seq<Line>, subtotal: real, total: real,
                    year: nat): Shop
  {
    s.(orders := s.orders + [Order(tenant, OrderRef(year, CountOrders(s.orders, tenant) + 1), year, customer, Website,
                                   lines, subtotal, 0.0, total, AwaitingPayment, BankTransfer)])
  }

  method RecordShopifyOrder(db: Db, tenant: nat, customer: nat, lines: seq<Line>, subtotal: real, total: real,
                            year: nat)
    modifies db
    ensures db.State() == Recorded(old(db.State()), tenant, customer, lines, subtotal, total, year)
  {
    var ref := OrderRef(year, CountOrders(db.orders, tenant) + 1);
    db.orders := db.orders + [Order(tenant, ref, year, customer, Website, lines, subtotal, 0.0, total,
                                    AwaitingPayment, BankTransfer)];
  }

  // ---------- cancellation ----------

  function Cancelling(s: Shop, k: nat): Shop
    requires k < |s.orders|
  {
    var o := s.orders[k];
    Shop(Restocked(s.products, o.tenant, o.lines), s.orders[k := o.(status := Cancelled)])
  }

  /** The stock of one line comes back; a product that has been deleted is passed over. */
  method RestockLine(db: Db, tenant: nat, line: Line)
    modifies db`products
    ensures db.products == WithLineBack(old(db.products), tenant, line)
  {
    if line.sku != "" && line.quantity > 0 {
      var row := FindProduct(db.products, tenant, line.sku);
      if row.Some? {
        var product := db.products[row.value];
        product := product.(stock := product.stock + line.quantity);
        if !product.active {
          product := product.(active := true);
        }
        db.products := db.products[row.value := product];
      }
    }
  }

  /** Stock comes back line by line. */
  method CancelOrder(db: Db, k: nat, force: bool) returns (r: Result<(), Refused>)
    requires k < |db.orders| && UniqueSkus(db.products)
    modifies db
    ensures r == Err(AlreadyPaid) <==> old(db.orders)[k].status == Paid && !force
    ensures r.Err? ==> r.error == AlreadyPaid && db.State() == old(db.State())
    ensures r.Ok? ==> db.State() == if old(db.orders)[k].status == Cancelled then old(db.State())
                                    else Cancelling(old(db.State()), k)
  {
    var order := db.orders[k];
    if order.status == Cancelled {
      return Ok(());
    }
    if order.status == Paid && !force {
      return Err(AlreadyPaid);
    }
    ghost var before := db.products;
    for n := 0 to |order.lines|
      invariant db.products == Restocked(before, order.tenant, order.lines[..n])
      invariant db.orders == old(db.orders)
    {
      var line := order.lines[n];
      RestockOneMore(before, order.tenant, order.lines[..n], line);
      assert order.lines[..n + 1] == order.lines[..n] + [line];
      RestockLine(db, order.tenant, line);
    }
    assert order.lines[..|order.lines|] == order.lines;
    db.orders := db.orders[k := order.(status := Cancelled)];
    return Ok(());
  }

  predicate NotOwner(o: Order, customer: Option<nat>) {
    customer.Some? && o.customer != customer.value
  }

  /** Why a customer may not cancel or change an order, if so. */
  function Objection(os: seq<Order>, tenant: nat, ref: string, customer: Option<nat>): Option<Refused> {
    match FindOrder(os, tenant, ref)
    case None => Some(NotFound)
    case Some(k) =>
      if NotOwner(os[k], customer) then Some(NotTheirs)
      else if os[k].status == Cancelled then Some(AlreadyCancelled)
      else if os[k].status == Paid then Some(AlreadyPaid)
      else None
  }

  /** Every order that changes is this customer's. */
  ghost predicate OnlyTheirsChange(before: seq<Order>, after: seq<Order>, customer: nat) {
    |after| == |before| && forall i :: 0 <= i < |before| && after[i] != before[i] ==> before[i].customer == customer
  }

  /** The reference names an order, and that order is another customer's. */
  ghost predicate IsOfAnother(os: seq<Order>, tenant: nat, ref: string, customer: nat) {
    FindOrder(os, tenant, ref).Some? && os[FindOrder(os, tenant, ref).value].customer != customer
  }

  /** The objections, one by one. */
  lemma ObjectionMeans(os: seq<Order>, tenant: nat, ref: string, customer: Option<nat>)
    ensures var k, why := FindOrder(os, tenant, ref), Objection(os, tenant, ref, customer);
            && (why == Some(NotFound) <==> k.None?)
            && (why == Some(NotTheirs) <==> customer.Some? && IsOfAnother(os, tenant, ref, customer.value))
            && (why == Some(AlreadyCancelled) ==> k.Some? && os[k.value].status == Cancelled)
            && (why == Some(AlreadyPaid) ==> k.Some? && os[k.value].status == Paid)
            && (why.None? ==> && k.Some? && os[k.value].status in {AwaitingPayment, PendingDelivery}
                              && (customer.Some? ==> os[k.value].customer == customer.value))
  {
  }

  function CancelledByCustomer(s: Shop, tenant: nat, ref: string, customer: Option<nat>): Shop {
    match FindOrder(s.orders, tenant, ref)
    case None => s
    case Some(k) =>
      if NotOwner(s.orders[k], customer) || s.orders[k].status in {Cancelled, Paid} then s else Cancelling(s, k)
  }

  /** The customer's cancellation: their own order, while it is open. */
  method CancelOrderTool(db: Db, tenant: nat, ref: string, customer: Option<nat>) returns (r: Result<(), Refused>)
    requires UniqueSkus(db.products)
    modifies db
    ensures db.State() == CancelledByCustomer(old(db.State()), tenant, ref, customer)
    ensures r.Ok? ==> exists k :: && 0 <= k < |db.orders| && HasRef(db.orders[k], tenant, ref)
                                  && old(db.orders[k].status) in {AwaitingPayment, PendingDelivery}
                                  && db.orders[k].status == Cancelled
    ensures r.Err? <==> Objection(old(db.orders), tenant, ref, customer).Some?
    ensures r.Err? ==> Objection(old(db.orders), tenant, ref, customer) == Some(r.error)
    // a customer's cancellation touches no other customer's order, and is refused as not theirs
    // exactly for an order that is another's
    ensures customer.Some? ==> OnlyTheirsChange(old(db.orders), db.orders, customer.value)
    ensures r == Err(NotTheirs) <==> customer.Some? && IsOfAnother(old(db.orders), tenant, ref, customer.value)
  {
    ObjectionMeans(db.orders, tenant, ref, customer);
    var k := FindOrder(db.orders, tenant, ref);
    if k.None? {
      return Err(NotFound);
    }
    var order := db.orders[k.value];
    if NotOwner(order, customer) {
      return Err(NotTheirs);
    }
    if order.status == Cancelled {
      return Err(AlreadyCancelled);
    }
    if order.status == Paid {
      return Err(AlreadyPaid);
    }
    r := CancelOrder(db, k.value, false);
    assert HasRef(db.orders[k.value], tenant, ref);
  }

  function CancelledByAdmin(s: Shop, tenant: nat, ref: string): Shop {
    match FindOrder(s.orders, tenant, ref)
    case None => s
    case Some(k) => if s.orders[k].status == Cancelled then s else Cancelling(s, k)
  }

  /** The admin's cancellation works on paid orders as well. */
  method AdminCancelOrder(db: Db, tenant: nat, ref: string) returns (r: Result<(), Refused>)
    requires UniqueSkus(db.products)
    modifies db
    ensures db.State() == CancelledByAdmin(old(db.State()), tenant, ref)
    ensures r.Err? <==> FindOrder(old(db.orders), tenant, ref).None?
    ensures r.Err? ==> r.error == NotFound
  {
    var k := FindOrder(db.orders, tenant, ref);
    if k.None? {
      return Err(NotFound);
    }
    r := CancelOrder(db, k.value, true);
  }

  // ---------- payment ----------

  function MethodChanged(s: Shop, tenant: nat, ref: string, customer: Option<nat>, payment: string): Shop {
    match (PayMethod(payment), FindOrder(s.orders, tenant, ref))
    case (Some(payBy), Some(k)) =>
      var o := s.orders[k];
      if NotOwner(o, customer) || o.status in {Cancelled, Paid} then s
      else s.(orders := s.orders[k := o.(payBy := payBy, status := StatusFor(payBy))])
    case _ => s
  }

  method UpdatePaymentMethod(db: Db, tenant: nat, ref: string, customer: Option<nat>, payment: string)
      returns (r: Result<(), Refused>)
    modifies db`orders
    ensures db.State() == MethodChanged(old(db.State()), tenant, ref, customer, payment)
    ensures r.Err? ==> db.orders == old(db.orders)
    ensures r.Ok? <==> PayMethod(payment).Some? && Objection(old(db.orders), tenant, ref, customer).None?
    ensures r.Err? ==> if PayMethod(payment).None? then r.error == BadPayment
                       else Objection(old(db.orders), tenant, ref, customer) == Some(r.error)
    ensures customer.Some? ==> OnlyTheirsChange(old(db.orders), db.orders, customer.value)
    ensures r == Err(NotTheirs) <==>
              PayMethod(payment).Some? && customer.Some? && IsOfAnother(old(db.orders), tenant, ref, customer.value)
    ensures r.Ok? ==> FindOrder(old(db.orders), tenant, ref).Some?
    ensures r.Ok? ==> WaitsAsNamed(db.orders[FindOrder(old(db.orders), tenant, ref).value], payment)
  {
    ObjectionMeans(db.orders, tenant, ref, customer);
    var payBy := PayMethod(payment);
    if payBy.None? {
      return Err(BadPayment);
    }
    var k := FindOrder(db.orders, tenant, ref);
    if k.None? {
      return Err(NotFound);
    }
    var order := db.orders[k.value];
    if NotOwner(order, customer) {
      return Err(NotTheirs);
    }
    if order.status == Cancelled {
      return Err(AlreadyCancelled);
    }
    if order.status == Paid {
      return Err(AlreadyPaid);
    }
    order := order.(payBy := payBy.value);
    if payBy.value == Cod {
      order := order.(status := PendingDelivery);
    } else {
      order := order.(status := AwaitingPayment);
    }
    db.orders := db.orders[k.value := order];
    r := Ok(());
  }

  function PaymentApproved(s: Shop, tenant: nat, ref: string): Shop {
    match FindOrder(s.orders, tenant, ref)
    case Some(k) => if s.orders[k].status == AwaitingPayment
                    then s.(orders := s.orders[k := s.orders[k].(status := Paid)]) else s
    case None => s
  }

  /** An admin approves a pending receipt: only an order still awaiting payment becomes paid. */
  method ApprovePaymentVerification(db: Db, tenant: nat, ref: string)
    modifies db`orders
    ensures db.State() == PaymentApproved(old(db.State()), tenant, ref)
  {
    var k := FindOrder(db.orders, tenant, ref);
    if k.Some? && db.orders[k.value].status == AwaitingPayment {
      db.orders := db.orders[k.value := db.orders[k.value].(status := Paid)];
    }
  }
}
