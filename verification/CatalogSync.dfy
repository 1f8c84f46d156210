/** Applying what was read from a source to the product table: `_apply_fields`, `_fingerprint`,
    `apply_scraped_products` and the filter in `sync_source` (app/catalog_sync/service.py). */
module CatalogSync {
  import opened Text
  import opened Money
  import opened Variants
  import opened Store
  import opened Skus

  /** One scraped product.  `digest` is the short hash of its source and external id. */
  datatype Scraped = Scraped(
    externalId: string,
    name: string,
    price: Option<Dec>,
    url: string,
    description: string,
    compareAt: Option<Dec>,
    currency: string,
    images: seq<string>,
    options: seq<OptionGroup>,
    variants: seq<Variant>,
    available: bool,
    sku: string,
    tags: seq<string>,
    stock: Option<int>,
    pageHash: string,
    samePage: bool,   // `unchanged` in the program: the page is as it was at the last sync
    digest: string)

  /** A sync about to be applied: every entry but a same-page one has a price. */
  datatype Batch = Batch(tenant: nat, source: nat, scraped: seq<Scraped>, now: int)

  const DEFAULT_STOCK := 100

  predicate Readable(sp: Scraped) {
    !sp.samePage
  }

  predicate Priced(scraped: seq<Scraped>) {
    forall i :: 0 <= i < |scraped| && Readable(scraped[i]) ==> scraped[i].price.Some?
  }

  // ---------- writing one row ----------

  /** Stripped, cut to 60 characters, without blanks and repeats, in order of first mention. */
  function TidyTags(tags: seq<string>): (tidy: seq<string>) {
    if tags == [] then []
    else
      var before, tag := TidyTags(tags[..|tags| - 1]), Take(Strip(tags[|tags| - 1]), 60);
      if tag == "" || tag in before then before else before + [tag]
  }

  function StockAfter(stock: int, sp: Scraped): int {
    match sp.stock
    case Some(n) => if n < 0 then 0 else n
    case None => if !sp.available then 0 else if stock > 0 then stock else DEFAULT_STOCK
  }

  function Applied(row: Product, sp: Scraped, now: int): Product
    requires sp.price.Some?
  {
    var stock := StockAfter(row.stock, sp);
    row.(name := Take(Strip(sp.name), 255),
         description := Take(sp.description, 2000),
         price := sp.price.value,
         compareAt := sp.compareAt,
         currency := Take(Upper(sp.currency), 10),
         images := if sp.images != [] then Take(sp.images, 20) else row.images,
         imageUrl := if sp.images != [] then sp.images[0] else row.imageUrl,
         options := sp.options,
         variants := sp.variants,
         tags := Take(TidyTags(sp.tags), 15),
         sourceUrl := Take(sp.url, 1000),
         pageHash := sp.pageHash,
         lastSynced := now,
         stock := stock,
         active := sp.available && stock > 0)
  }

  /** What the row is after it has been to the database and back. */
  function Persisted(row: Product): Product {
    row.(price := Stored(row.price),
         compareAt := match row.compareAt case Some(d) => Some(Stored(d)) case None => None)
  }

  /** The fields an update is reported for.  Prices count by their text, so 2.5 differs from
      2.5000. */
  function Fingerprint(p: Product): Product {
    p.(tenant := 0, sku := "", stock := 0, source := None, externalId := "", pageHash := "", lastSynced := 0)
  }

  function BlankRow(b: Batch, externalId: string, sku: string): Product {
    Product(b.tenant, sku, "", "", Dec(0, 0), None, "", [], "", [], [], [], "", 0, true,
            Some(b.source), externalId, "", 0)
  }

  function NewRow(b: Batch, sp: Scraped, sku: string): Product
    requires sp.price.Some?
  {
    Persisted(Applied(BlankRow(b, sp.externalId, sku), sp, b.now))
  }

  // ---------- the specification: what a whole batch does ----------

  predicate OfSource(p: Product, source: nat) {
    p.source == Some(source)
  }

  function Known(ps: seq<Product>, source: nat): set<string> {
    set i | 0 <= i < |ps| && OfSource(ps[i], source) :: ps[i].externalId
  }

  /** The first entry for an external id: the one that decides for a row that exists. */
  function First(scraped: seq<Scraped>, externalId: string): (sp: Option<Scraped>)
    ensures sp.Some? ==> sp.value in scraped && sp.value.externalId == externalId
    ensures sp.None? ==> forall i :: 0 <= i < |scraped| ==> scraped[i].externalId != externalId
  {
    if scraped == [] then None
    else
      match First(scraped[..|scraped| - 1], externalId)
      case Some(sp) => Some(sp)
      case None => if scraped[|scraped| - 1].externalId == externalId then Some(scraped[|scraped| - 1]) else None
  }

  /** The external ids the batch vouches for: all it mentions, but of ids without a row only
      those it has a readable entry for. */
  function Seen(scraped: seq<Scraped>, known: set<string>): set<string> {
    set i | 0 <= i < |scraped| && (scraped[i].externalId in known || Readable(scraped[i])) :: scraped[i].externalId
  }

  /** For each external id without a row, its first readable entry. */
  function Fresh(scraped: seq<Scraped>, known: set<string>): seq<Scraped> {
    if scraped == [] then []
    else
      var init, sp := scraped[..|scraped| - 1], scraped[|scraped| - 1];
      var before := Fresh(init, known);
      if Readable(sp) && sp.externalId !in known && sp.externalId !in Seen(init, known) then before + [sp] else before
  }

  function TakenSkus(ps: seq<Product>, tenant: nat): set<string> {
    set i | 0 <= i < |ps| && ps[i].tenant == tenant :: ps[i].sku
  }

  function NewRows(b: Batch, readables: seq<Scraped>, taken: set<string>): (rows: seq<Product>)
    requires forall i :: 0 <= i < |readables| ==> readables[i].price.Some?
    ensures |rows| == |readables|
  {
    if readables == [] then []
    else
      var before, sp := NewRows(b, readables[..|readables| - 1], taken), readables[|readables| - 1];
      before + [NewRow(b, sp, SkuFor(sp.sku, sp.digest, taken + TakenSkus(before, b.tenant)))]
  }

  /** A row that was there before: the first entry for it rewrites it, or only stamps it when
      the page has not changed. */
  function Merged(b: Batch, scraped: seq<Scraped>, row: Product): Product
    requires Priced(scraped)
  {
    if !OfSource(row, b.source) then row
    else
      match First(scraped, row.externalId)
      case None => row
      case Some(sp) => if sp.samePage then row.(lastSynced := b.now) else Persisted(Applied(row, sp, b.now))
  }

  /** A row of the source that the batch does not vouch for goes off sale. */
  function Retired(b: Batch, seen: set<string>, row: Product): Product {
    if OfSource(row, b.source) && row.externalId !in seen && row.active then row.(active := false, stock := 0) else row
  }

  /** Old rows as merged, and the new ones after them. */
  function Upserted(b: Batch, ps: seq<Product>, scraped: seq<Scraped>): (qs: seq<Product>)
    requires Priced(scraped)
    ensures |qs| >= |ps|
  {
    FreshPriced(scraped, Known(ps, b.source));
    seq(|ps|, i requires 0 <= i < |ps| => Merged(b, scraped, ps[i])) +
    NewRows(b, Fresh(scraped, Known(ps, b.source)), TakenSkus(ps, b.tenant))
  }

  function Synced(b: Batch, ps: seq<Product>): (qs: seq<Product>)
    requires Priced(b.scraped)
    ensures |qs| >= |ps|
  {
    var mid := Upserted(b, ps, b.scraped);
    var seen := Seen(b.scraped, Known(ps, b.source));
    seq(|mid|, i requires 0 <= i < |mid| => if i < |ps| then Retired(b, seen, mid[i]) else mid[i])
  }

  /** The rows whose fingerprint an entry changes. */
  function UpdatedRows(b: Batch, ps: seq<Product>, scraped: seq<Scraped>): set<nat>
    requires Priced(scraped)
  {
    set i | 0 <= i < |ps| && Updates(b, ps[i], scraped)
  }

  predicate Updates(b: Batch, row: Product, scraped: seq<Scraped>)
    requires Priced(scraped)
  {
    && OfSource(row, b.source)
    && var sp := First(scraped, row.externalId);
       && sp.Some? && Readable(sp.value)
       && Fingerprint(Applied(row, sp.value, b.now)) != Fingerprint(row)
  }

  /** The rows that go off sale because the source no longer has them. */
  function RemovedRows(b: Batch, ps: seq<Product>, seen: set<string>): set<nat> {
    set i | 0 <= i < |ps| && Retired(b, seen, ps[i]) != ps[i]
  }

  datatype Counts = Counts(added: nat, updated: nat, removed: nat, total: nat)

  // ---------- the entries one by one ----------

  lemma {:induction false} FreshPriced(scraped: seq<Scraped>, known: set<string>)
    requires Priced(scraped)
    ensures forall i :: 0 <= i < |Fresh(scraped, known)| ==> Fresh(scraped, known)[i].price.Some?
  {
    if scraped != [] {
      FreshPriced(scraped[..|scraped| - 1], known);
    }
  }

  lemma FirstSnoc(scraped: seq<Scraped>, sp: Scraped, externalId: string)
    ensures First(scraped + [sp], externalId) ==
            if First(scraped, externalId).Some? then First(scraped, externalId)
            else if sp.externalId == externalId then Some(sp) else None
  {
  }

  lemma SeenSnoc(scraped: seq<Scraped>, sp: Scraped, known: set<string>)
    ensures Seen(scraped + [sp], known) ==
            Seen(scraped, known) + (if sp.externalId in known || Readable(sp) then {sp.externalId} else {})
  {
    var all := scraped + [sp];
    assert all[|scraped|] == sp;
    forall e | e in Seen(scraped, known)
      ensures e in Seen(all, known)
    {
      var i :| && 0 <= i < |scraped| && e == scraped[i].externalId
               && (scraped[i].externalId in known || Readable(scraped[i]));
      assert all[i] == scraped[i];
    }
    forall e | e in Seen(all, known) && e != sp.externalId
      ensures e in Seen(scraped, known)
    {
      var i :| 0 <= i < |all| && (all[i].externalId in known || Readable(all[i])) && e == all[i].externalId;
      assert all[i] == scraped[i];
    }
  }

  lemma FreshSnoc(scraped: seq<Scraped>, sp: Scraped, known: set<string>)
    ensures Fresh(scraped + [sp], known) ==
            if Readable(sp) && sp.externalId !in known && sp.externalId !in Seen(scraped, known)
            then Fresh(scraped, known) + [sp] else Fresh(scraped, known)
  {
  }

  /** For an id that has a row, being vouched for is being mentioned. */
  lemma SeenIsMentioned(scraped: seq<Scraped>, known: set<string>, externalId: string)
    requires externalId in known
    ensures externalId in Seen(scraped, known) <==> First(scraped, externalId).Some?
  {
  }

  lemma KnownRow(ps: seq<Product>, source: nat, i: nat)
    requires i < |ps| && OfSource(ps[i], source)
    ensures ps[i].externalId in Known(ps, source)
  {
  }

  function FindExternal(ps: seq<Product>, source: nat, externalId: string): (row: Option<nat>)
    ensures row.Some? ==> row.value < |ps| && OfSource(ps[row.value], source) && ps[row.value].externalId == externalId
    ensures row.None? ==> externalId !in Known(ps, source)
  {
    if ps == [] then None
    else
      match FindExternal(ps[..|ps| - 1], source, externalId)
      case Some(i) => Some(i)
      case None =>
        assert forall i :: 0 <= i < |ps| - 1 && OfSource(ps[i], source) ==>
                 ps[i].externalId in Known(ps[..|ps| - 1], source) by {
          forall i | 0 <= i < |ps| - 1 && OfSource(ps[i], source)
            ensures ps[i].externalId in Known(ps[..|ps| - 1], source)
          {
            KnownRow(ps[..|ps| - 1], source, i);
          }
        }
        if OfSource(ps[|ps| - 1], source) && ps[|ps| - 1].externalId == externalId then Some(|ps| - 1) else None
  }
}
