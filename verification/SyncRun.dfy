/** Running a batch over the product table, entry by entry, and what the result guarantees
    (app/catalog_sync/service.py). */
module SyncRun {
  import opened Text
  import opened Money
  import opened Store
  import opened Skus
  import opened CatalogSync

  // ---------- one more entry ----------

  /** The row an entry acts on, given what the entries before it did. */
  predicate Decides(b: Batch, scraped: seq<Scraped>, sp: Scraped, row: Product) {
    OfSource(row, b.source) && row.externalId == sp.externalId && First(scraped, row.externalId).None?
  }

  lemma MergedSnoc(b: Batch, scraped: seq<Scraped>, sp: Scraped, row: Product)
    requires Priced(scraped) && Priced(scraped + [sp])
    ensures Readable(sp) ==> sp.price.Some?
    ensures Merged(b, scraped + [sp], row) ==
            if !Decides(b, scraped, sp, row) then Merged(b, scraped, row)
            else if sp.samePage then row.(lastSynced := b.now) else Persisted(Applied(row, sp, b.now))
    ensures Decides(b, scraped, sp, row) ==> Merged(b, scraped, row) == row
    ensures Updates(b, row, scraped + [sp]) <==>
            || Updates(b, row, scraped)
            || (&& Decides(b, scraped, sp, row) && Readable(sp)
                && Fingerprint(Applied(row, sp, b.now)) != Fingerprint(row))
  {
  }

  /** Which old row that is: the one with the entry's id, and only if the id is not seen yet. */
  lemma DecidedRow(b: Batch, ps: seq<Product>, scraped: seq<Scraped>, sp: Scraped, i: nat)
    requires UniqueExternalIds(ps) && i < |ps|
    ensures Decides(b, scraped, sp, ps[i])
       <==> && sp.externalId !in Seen(scraped, Known(ps, b.source))
            && FindExternal(ps, b.source, sp.externalId) == Some(i)
  {
    if OfSource(ps[i], b.source) && ps[i].externalId == sp.externalId {
      KnownRow(ps, b.source, i);
      SeenIsMentioned(scraped, Known(ps, b.source), sp.externalId);
      TheRow(ps, b.source, i);
    }
  }

  lemma TheRow(ps: seq<Product>, source: nat, i: nat)
    requires UniqueExternalIds(ps) && i < |ps| && OfSource(ps[i], source)
    ensures FindExternal(ps, source, ps[i].externalId) == Some(i)
  {
    KnownRow(ps, source, i);
  }

  lemma TakenSnoc(ps: seq<Product>, p: Product, tenant: nat)
    ensures TakenSkus(ps + [p], tenant) == TakenSkus(ps, tenant) + (if p.tenant == tenant then {p.sku} else {})
  {
    var all := ps + [p];
    assert all[|ps|] == p;
    forall s | s in TakenSkus(ps, tenant)
      ensures s in TakenSkus(all, tenant)
    {
      var i :| 0 <= i < |ps| && ps[i].tenant == tenant && ps[i].sku == s;
      assert all[i] == ps[i];
    }
    forall s | s in TakenSkus(all, tenant) && !(p.tenant == tenant && s == p.sku)
      ensures s in TakenSkus(ps, tenant)
    {
      var i :| 0 <= i < |all| && all[i].tenant == tenant && all[i].sku == s;
      assert all[i] == ps[i];
    }
  }

  function Added(b: Batch, ps: seq<Product>, scraped: seq<Scraped>): seq<Product>
    requires Priced(scraped)
  {
    FreshPriced(scraped, Known(ps, b.source));
    NewRows(b, Fresh(scraped, Known(ps, b.source)), TakenSkus(ps, b.tenant))
  }

  /** What the table looks like after the entries so far, given its old rows and the added ones. */
  lemma UpsertedIs(b: Batch, ps: seq<Product>, scraped: seq<Scraped>)
    requires Priced(scraped)
    ensures Upserted(b, ps, scraped)[|ps|..] == Added(b, ps, scraped)
    ensures forall i :: 0 <= i < |ps| ==> Upserted(b, ps, scraped)[i] == Merged(b, scraped, ps[i])
    ensures |Upserted(b, ps, scraped)| == |ps| + |Fresh(scraped, Known(ps, b.source))|
  {
  }

  lemma NoneMerges(b: Batch, ps: seq<Product>, scraped: seq<Scraped>, sp: Scraped)
    requires UniqueExternalIds(ps) && Priced(scraped) && Priced(scraped + [sp])
    requires sp.externalId in Seen(scraped, Known(ps, b.source)) || FindExternal(ps, b.source, sp.externalId).None?
    ensures forall i :: 0 <= i < |ps| ==> Merged(b, scraped + [sp], ps[i]) == Merged(b, scraped, ps[i])
    ensures UpdatedRows(b, ps, scraped + [sp]) == UpdatedRows(b, ps, scraped)
  {
    forall i | 0 <= i < |ps|
      ensures Merged(b, scraped + [sp], ps[i]) == Merged(b, scraped, ps[i])
      ensures Updates(b, ps[i], scraped + [sp]) == Updates(b, ps[i], scraped)
    {
      MergedSnoc(b, scraped, sp, ps[i]);
      DecidedRow(b, ps, scraped, sp, i);
    }
  }

  /** An entry whose id is seen already, or that is a same-page entry for no row, does nothing. */
  lemma SkipEntry(b: Batch, ps: seq<Product>, scraped: seq<Scraped>, sp: Scraped)
    requires UniqueExternalIds(ps) && Priced(scraped) && Priced(scraped + [sp])
    requires var known := Known(ps, b.source);
             || sp.externalId in Seen(scraped, known)
             || (sp.samePage && FindExternal(ps, b.source, sp.externalId).None?)
    ensures Upserted(b, ps, scraped + [sp]) == Upserted(b, ps, scraped)
    ensures Seen(scraped + [sp], Known(ps, b.source)) == Seen(scraped, Known(ps, b.source))
    ensures UpdatedRows(b, ps, scraped + [sp]) == UpdatedRows(b, ps, scraped)
  {
    var known := Known(ps, b.source);
    SeenSnoc(scraped, sp, known);
    FreshSnoc(scraped, sp, known);
    NoneMerges(b, ps, scraped, sp);
    UpsertedIs(b, ps, scraped);
    UpsertedIs(b, ps, scraped + [sp]);
  }

  lemma OnlyThisRow(b: Batch, ps: seq<Product>, scraped: seq<Scraped>, sp: Scraped, i: nat)
    requires UniqueExternalIds(ps)
    requires FindExternal(ps, b.source, sp.externalId) == Some(i)
    requires sp.externalId !in Seen(scraped, Known(ps, b.source))
    ensures forall j :: 0 <= j < |ps| ==> (Decides(b, scraped, sp, ps[j]) <==> j == i)
  {
    forall j | 0 <= j < |ps|
      ensures Decides(b, scraped, sp, ps[j]) <==> j == i
    {
      DecidedRow(b, ps, scraped, sp, j);
    }
  }

  /** What an entry makes of the row it decides for. */
  function Touched(b: Batch, sp: Scraped, row: Product): Product
    requires Readable(sp) ==> sp.price.Some?
  {
    if sp.samePage then row.(lastSynced := b.now) else Persisted(Applied(row, sp, b.now))
  }

  /** Whether that counts as an update. */
  predicate Shows(b: Batch, sp: Scraped, row: Product)
    requires Readable(sp) ==> sp.price.Some?
  {
    Readable(sp) && Fingerprint(Applied(row, sp, b.now)) != Fingerprint(row)
  }

  lemma OnlyThisMerges(b: Batch, ps: seq<Product>, scraped: seq<Scraped>, sp: Scraped, i: nat)
    requires UniqueExternalIds(ps) && Priced(scraped) && Priced(scraped + [sp])
    requires FindExternal(ps, b.source, sp.externalId) == Some(i)
    requires sp.externalId !in Seen(scraped, Known(ps, b.source))
    ensures Readable(sp) ==> sp.price.Some?
    ensures Merged(b, scraped, ps[i]) == ps[i]
    ensures Merged(b, scraped + [sp], ps[i]) == Touched(b, sp, ps[i])
    ensures forall j :: 0 <= j < |ps| && j != i ==> Merged(b, scraped + [sp], ps[j]) == Merged(b, scraped, ps[j])
  {
    OnlyThisRow(b, ps, scraped, sp, i);
    MergedSnoc(b, scraped, sp, ps[i]);
    forall j | 0 <= j < |ps| && j != i
      ensures Merged(b, scraped + [sp], ps[j]) == Merged(b, scraped, ps[j])
    {
      MergedSnoc(b, scraped, sp, ps[j]);
    }
  }

  /** The first entry for the id of row i rewrites or stamps that row, and no other. */
  lemma TouchEntry(b: Batch, ps: seq<Product>, scraped: seq<Scraped>, sp: Scraped, i: nat)
    requires UniqueExternalIds(ps) && Priced(scraped) && Priced(scraped + [sp])
    requires FindExternal(ps, b.source, sp.externalId) == Some(i)
    requires sp.externalId !in Seen(scraped, Known(ps, b.source))
    ensures Readable(sp) ==> sp.price.Some?
    ensures Upserted(b, ps, scraped)[i] == ps[i]
    ensures Upserted(b, ps, scraped + [sp]) == Upserted(b, ps, scraped)[i := Touched(b, sp, ps[i])]
    ensures Seen(scraped + [sp], Known(ps, b.source)) == Seen(scraped, Known(ps, b.source)) + {sp.externalId}
  {
    var known := Known(ps, b.source);
    KnownRow(ps, b.source, i);
    SeenSnoc(scraped, sp, known);
    OnlyThisMerges(b, ps, scraped, sp, i);
    TouchAddsNone(b, ps, scraped, sp, i);
    UpsertedIs(b, ps, scraped);
    UpsertedIs(b, ps, scraped + [sp]);
  }

  lemma TouchCounts(b: Batch, ps: seq<Product>, scraped: seq<Scraped>, sp: Scraped, i: nat)
    requires UniqueExternalIds(ps) && Priced(scraped) && Priced(scraped + [sp])
    requires FindExternal(ps, b.source, sp.externalId) == Some(i)
    requires sp.externalId !in Seen(scraped, Known(ps, b.source))
    ensures Readable(sp) ==> sp.price.Some?
    ensures i !in UpdatedRows(b, ps, scraped)
    ensures UpdatedRows(b, ps, scraped + [sp]) == UpdatedRows(b, ps, scraped) +
              (if Shows(b, sp, ps[i]) then {i} else {})
  {
    OnlyThisRow(b, ps, scraped, sp, i);
    forall j | 0 <= j < |ps| && j != i
      ensures Updates(b, ps[j], scraped + [sp]) == Updates(b, ps[j], scraped)
    {
      MergedSnoc(b, scraped, sp, ps[j]);
    }
    MergedSnoc(b, scraped, sp, ps[i]);
    assert Decides(b, scraped, sp, ps[i]);
  }

  lemma TouchCountsOne(b: Batch, ps: seq<Product>, scraped: seq<Scraped>, sp: Scraped, i: nat)
    requires UniqueExternalIds(ps) && Priced(scraped) && Priced(scraped + [sp])
    requires FindExternal(ps, b.source, sp.externalId) == Some(i)
    requires sp.externalId !in Seen(scraped, Known(ps, b.source))
    ensures Readable(sp) ==> sp.price.Some?
    ensures |UpdatedRows(b, ps, scraped + [sp])| == |UpdatedRows(b, ps, scraped)| + if Shows(b, sp, ps[i]) then 1 else 0
  {
    TouchCounts(b, ps, scraped, sp, i);
  }

  lemma TouchAddsNone(b: Batch, ps: seq<Product>, scraped: seq<Scraped>, sp: Scraped, i: nat)
    requires Priced(scraped) && Priced(scraped + [sp])
    requires FindExternal(ps, b.source, sp.externalId) == Some(i)
    ensures Fresh(scraped + [sp], Known(ps, b.source)) == Fresh(scraped, Known(ps, b.source))
    ensures Added(b, ps, scraped + [sp]) == Added(b, ps, scraped)
  {
  }

  /** The first readable entry for an id without a row adds one. */
  lemma AddEntry(b: Batch, ps: seq<Product>, scraped: seq<Scraped>, sp: Scraped)
    requires UniqueExternalIds(ps) && Priced(scraped) && Priced(scraped + [sp])
    requires Readable(sp) && FindExternal(ps, b.source, sp.externalId).None?
    requires sp.externalId !in Seen(scraped, Known(ps, b.source))
    ensures sp.price.Some?
    ensures var sku := SkuFor(sp.sku, sp.digest, TakenSkus(ps, b.tenant) + TakenSkus(Added(b, ps, scraped), b.tenant));
            && Upserted(b, ps, scraped + [sp]) == Upserted(b, ps, scraped) + [NewRow(b, sp, sku)]
            && Added(b, ps, scraped + [sp]) == Added(b, ps, scraped) + [NewRow(b, sp, sku)]
    ensures Seen(scraped + [sp], Known(ps, b.source)) == Seen(scraped, Known(ps, b.source)) + {sp.externalId}
    ensures UpdatedRows(b, ps, scraped + [sp]) == UpdatedRows(b, ps, scraped)
  {
    var known := Known(ps, b.source);
    SeenSnoc(scraped, sp, known);
    FreshSnoc(scraped, sp, known);
    assert (scraped + [sp])[|scraped|] == sp;
    assert (Fresh(scraped, known) + [sp])[..|Fresh(scraped, known)|] == Fresh(scraped, known);
    NoneMerges(b, ps, scraped, sp);
    UpsertedIs(b, ps, scraped);
    UpsertedIs(b, ps, scraped + [sp]);
  }

  // ---------- the loop over the entries ----------

  /** What the loop has gathered after some entries. */
  ghost predicate Progress(b: Batch, ps: seq<Product>, scraped: seq<Scraped>,
                           products: seq<Product>, taken: set<string>, seen: set<string>, added: nat, updated: nat)
    requires Priced(scraped)
  {
    && products == Upserted(b, ps, scraped)
    && taken == TakenSkus(ps, b.tenant) + TakenSkus(Added(b, ps, scraped), b.tenant)
    && seen == Seen(scraped, Known(ps, b.source))
    && added == |Added(b, ps, scraped)|
    && updated == |UpdatedRows(b, ps, scraped)|
  }

  /** One entry of the scrape. */
  method ApplyEntry(db: Db, b: Batch, existing: seq<Product>, ghost scraped: seq<Scraped>, sp: Scraped,
                    taken: set<string>, seen: set<string>, added: nat, updated: nat)
      returns (taken': set<string>, seen': set<string>, added': nat, updated': nat)
    requires UniqueExternalIds(existing) && Priced(scraped) && Priced(scraped + [sp])
    requires Progress(b, existing, scraped, db.products, taken, seen, added, updated)
    modifies db`products
    ensures Progress(b, existing, scraped + [sp], db.products, taken', seen', added', updated')
  {
    taken', seen', added', updated' := taken, seen, added, updated;
    var row := FindExternal(existing, b.source, sp.externalId);
    if sp.externalId in seen || (sp.samePage && row.None?) {
      SkipProgress(b, existing, scraped, sp, db.products, taken, seen, added, updated);
    } else if row.None? {
      seen' := seen + {sp.externalId};
      taken' := InsertRow(db, b, existing, scraped, sp, taken, seen, added, updated);
      added' := added + 1;
    } else {
      seen' := seen + {sp.externalId};
      updated' := TouchRow(db, b, existing, scraped, sp, row.value, taken, seen, added, updated);
    }
  }

  lemma SkipProgress(b: Batch, ps: seq<Product>, scraped: seq<Scraped>, sp: Scraped,
                     products: seq<Product>, taken: set<string>, seen: set<string>, added: nat, updated: nat)
    requires UniqueExternalIds(ps) && Priced(scraped) && Priced(scraped + [sp])
    requires Progress(b, ps, scraped, products, taken, seen, added, updated)
    requires sp.externalId in seen || (sp.samePage && FindExternal(ps, b.source, sp.externalId).None?)
    ensures Progress(b, ps, scraped + [sp], products, taken, seen, added, updated)
  {
    SkipEntry(b, ps, scraped, sp);
    UpsertedIs(b, ps, scraped);
    UpsertedIs(b, ps, scraped + [sp]);
  }

  method InsertRow(db: Db, b: Batch, ghost existing: seq<Product>, ghost scraped: seq<Scraped>, sp: Scraped,
                   taken: set<string>, ghost seen: set<string>, ghost added: nat, ghost updated: nat)
      returns (taken': set<string>)
    requires UniqueExternalIds(existing) && Priced(scraped) && Priced(scraped + [sp])
    requires Progress(b, existing, scraped, db.products, taken, seen, added, updated)
    requires Readable(sp) && FindExternal(existing, b.source, sp.externalId).None? && sp.externalId !in seen
    modifies db`products
    ensures Progress(b, existing, scraped + [sp], db.products, taken', seen + {sp.externalId}, added + 1, updated)
  {
    AddEntry(b, existing, scraped, sp);
    var sku := MakeSku(sp.sku, sp.digest, taken);
    TakenSnoc(Added(b, existing, scraped), NewRow(b, sp, sku), b.tenant);
    taken' := taken + {sku};
    db.products := db.products + [NewRow(b, sp, sku)];
  }

  lemma TouchProgress(b: Batch, ps: seq<Product>, scraped: seq<Scraped>, sp: Scraped, row: nat, products: seq<Product>,
                      taken: set<string>, seen: set<string>, added: nat, updated: nat)
    requires UniqueExternalIds(ps) && Priced(scraped) && Priced(scraped + [sp])
    requires Progress(b, ps, scraped, products, taken, seen, added, updated)
    requires FindExternal(ps, b.source, sp.externalId) == Some(row) && sp.externalId !in seen
    ensures Readable(sp) ==> sp.price.Some?
    ensures products[row] == ps[row]
    ensures Progress(b, ps, scraped + [sp], products[row := Touched(b, sp, ps[row])], taken, seen + {sp.externalId},
                     added, updated + if Shows(b, sp, ps[row]) then 1 else 0)
  {
    TouchEntry(b, ps, scraped, sp, row);
    TouchCountsOne(b, ps, scraped, sp, row);
    TouchAddsNone(b, ps, scraped, sp, row);
  }

  /** A row that exists is stamped, or rewritten and counted if that shows. */
  method TouchRow(db: Db, b: Batch, ghost existing: seq<Product>, ghost scraped: seq<Scraped>, sp: Scraped, row: nat,
                  ghost taken: set<string>, ghost seen: set<string>, ghost added: nat, updated: nat)
      returns (updated': nat)
    requires UniqueExternalIds(existing) && Priced(scraped) && Priced(scraped + [sp])
    requires Progress(b, existing, scraped, db.products, taken, seen, added, updated)
    requires FindExternal(existing, b.source, sp.externalId) == Some(row) && sp.externalId !in seen
    modifies db`products
    ensures Progress(b, existing, scraped + [sp], db.products, taken, seen + {sp.externalId}, added, updated')
  {
    updated' := updated;
    TouchProgress(b, existing, scraped, sp, row, db.products, taken, seen, added, updated);
    if sp.samePage {
      db.products := db.products[row := db.products[row].(lastSynced := b.now)];
    } else {
      var applied := Applied(db.products[row], sp, b.now);
      if Fingerprint(applied) != Fingerprint(db.products[row]) {
        updated' := updated + 1;
      }
      db.products := db.products[row := Persisted(applied)];
    }
  }

  /** The rows the source no longer has go off sale. */
  method RetireMissing(db: Db, b: Batch, existing: nat, seen: set<string>) returns (removed: nat)
    requires existing <= |db.products|
    modifies db`products
    ensures |db.products| == |old(db.products)|
    ensures forall i :: 0 <= i < existing ==> db.products[i] == Retired(b, seen, old(db.products)[i])
    ensures db.products[existing..] == old(db.products)[existing..]
    ensures removed == |RemovedRows(b, old(db.products)[..existing], seen)|
  {
    ghost var before := db.products;
    removed := 0;
    for n := 0 to existing
      invariant |db.products| == |before|
      invariant forall i :: 0 <= i < |before| ==>
                  db.products[i] == if i < n then Retired(b, seen, before[i]) else before[i]
      invariant removed == |RemovedRows(b, before[..n], seen)|
    {
      RemovedSnoc(b, before[..n], before[n], seen);
      assert before[..n + 1] == before[..n] + [before[n]];
      var row := db.products[n];
      if OfSource(row, b.source) && row.externalId !in seen && row.active {
        db.products := db.products[n := row.(active := false, stock := 0)];
        removed := removed + 1;
      }
    }
  }

  lemma RemovedSnoc(b: Batch, ps: seq<Product>, p: Product, seen: set<string>)
    ensures |RemovedRows(b, ps + [p], seen)| == |RemovedRows(b, ps, seen)| + (if Retired(b, seen, p) != p then 1 else 0)
  {
    var all := ps + [p];
    var rest := RemovedRows(b, ps, seen);
    forall i | i in RemovedRows(b, all, seen)
      ensures i == |ps| || i in rest
    {
      assert i < |ps| ==> all[i] == ps[i];
    }
    forall i | i in rest
      ensures i in RemovedRows(b, all, seen)
    {
      assert all[i] == ps[i];
    }
    assert all[|ps|] == p;
    assert RemovedRows(b, all, seen) == if Retired(b, seen, p) != p then rest + {|ps|} else rest;
  }

  /** The entries one after the other. */
  method ApplyEntries(db: Db, b: Batch) returns (taken: set<string>, seen: set<string>, added: nat, updated: nat)
    requires UniqueExternalIds(db.products) && Priced(b.scraped)
    modifies db`products
    ensures Progress(b, old(db.products), b.scraped, db.products, taken, seen, added, updated)
  {
    var existing := db.products;
    taken, seen, added, updated := TakenSkus(db.products, b.tenant), {}, 0, 0;
    StartsProgress(b, existing);
    for n := 0 to |b.scraped|
      invariant Progress(b, existing, b.scraped[..n], db.products, taken, seen, added, updated)
    {
      ghost var before := b.scraped[..n];
      PricedPrefix(b.scraped, n);
      taken, seen, added, updated := ApplyEntry(db, b, existing, before, b.scraped[n], taken, seen, added, updated);
    }
    assert b.scraped[..|b.scraped|] == b.scraped;
  }

  lemma PricedPrefix(scraped: seq<Scraped>, n: nat)
    requires Priced(scraped) && n < |scraped|
    ensures Priced(scraped[..n]) && Priced(scraped[..n] + [scraped[n]])
    ensures scraped[..n] + [scraped[n]] == scraped[..n + 1]
  {
  }

  /** Upserts a batch and takes off sale what disappeared.  The counts are the numbers of rows
      added, of old rows whose fingerprint an entry changed, of rows that went off sale, and of
      external ids vouched for. */
  method ApplyScrapedProducts(db: Db, b: Batch) returns (counts: Counts)
    requires UniqueExternalIds(db.products) && Priced(b.scraped)
    modifies db`products
    ensures db.products == Synced(b, old(db.products))
    ensures counts == CountsOf(b, old(db.products))
  {
    ghost var ps := db.products;
    var existing := |db.products|;
    var taken, seen, added, updated := ApplyEntries(db, b);
    ghost var mid := db.products;
    var removed := RetireMissing(db, b, existing, seen);
    RetiredAsBefore(b, ps, mid);
    SyncedIs(b, ps, mid, db.products);
    counts := Counts(added, updated, removed, |seen|);
  }

  lemma SyncedIs(b: Batch, ps: seq<Product>, mid: seq<Product>, out: seq<Product>)
    requires Priced(b.scraped) && mid == Upserted(b, ps, b.scraped)
    requires |out| == |mid| && out[|ps|..] == mid[|ps|..]
    requires forall i :: 0 <= i < |ps| ==> out[i] == Retired(b, Seen(b.scraped, Known(ps, b.source)), mid[i])
    ensures out == Synced(b, ps)
  {
  }

  lemma StartsProgress(b: Batch, ps: seq<Product>)
    ensures Progress(b, ps, [], ps, TakenSkus(ps, b.tenant), {}, 0, 0)
  {
  }

  function CountsOf(b: Batch, ps: seq<Product>): Counts
    requires Priced(b.scraped)
  {
    Counts(|Added(b, ps, b.scraped)|, |UpdatedRows(b, ps, b.scraped)|,
           |RemovedRows(b, ps, Seen(b.scraped, Known(ps, b.source)))|, |Seen(b.scraped, Known(ps, b.source))|)
  }

  /** Entries do not touch the rows that will be retired. */
  lemma RetiredAsBefore(b: Batch, ps: seq<Product>, mid: seq<Product>)
    requires Priced(b.scraped) && mid == Upserted(b, ps, b.scraped)
    ensures var seen := Seen(b.scraped, Known(ps, b.source));
            RemovedRows(b, mid[..|ps|], seen) == RemovedRows(b, ps, seen)
  {
  }

  // ---------- one sync, once the source has been read ----------

  /** An entry worth applying: its page has not changed, or it has a name and a price. */
  predicate IsUsable(sp: Scraped) {
    sp.samePage || (sp.name != "" && sp.price.Some? && sp.price.value.units > 0)
  }

  /** An entry that was read, and says nothing that could be sold: no name, or no price above zero. */
  predicate IsDropped(sp: Scraped) {
    !sp.samePage && (sp.name == "" || sp.price.None? || Amount(sp.price.value) <= 0.0)
  }

  lemma UsableOrDropped(sp: Scraped)
    ensures IsUsable(sp) <==> !IsDropped(sp)
  {
    if sp.price.Some? {
      AmountSign(sp.price.value);
    }
  }

  function Usable(found: seq<Scraped>): (usable: seq<Scraped>)
    ensures Priced(usable)
    ensures forall sp :: sp in usable <==> sp in found && IsUsable(sp)
  {
    if found == [] then []
    else
      var rest, last := Usable(found[..|found| - 1]), found[|found| - 1];
      if IsUsable(last) then rest + [last] else rest
  }

  datatype Finished = Done(counts: Counts) | NothingUsable

  function AfterSync(ps: seq<Product>, tenant: nat, source: nat, found: seq<Scraped>, now: int): seq<Product> {
    if Usable(found) == [] then ps else Synced(Batch(tenant, source, Usable(found), now), ps)
  }

  /** A source that yields nothing usable is an error, and leaves the catalogue alone. */
  method FinishSync(db: Db, tenant: nat, source: nat, found: seq<Scraped>, now: int) returns (r: Finished)
    requires UniqueExternalIds(db.products)
    modifies db`products
    ensures db.products == AfterSync(old(db.products), tenant, source, found, now)
    ensures r.NothingUsable? <==> forall sp :: sp in found ==> IsDropped(sp)
    ensures r.NothingUsable? ==> db.products == old(db.products)
    ensures r.Done? ==> r.counts == CountsOf(Batch(tenant, source, Usable(found), now), old(db.products))
  {
    var usable := Usable(found);
    forall sp | sp in found
      ensures IsUsable(sp) <==> !IsDropped(sp)
    {
      UsableOrDropped(sp);
    }
    if usable == [] {
      return NothingUsable;
    }
    assert usable[0] in usable;
    var counts := ApplyScrapedProducts(db, Batch(tenant, source, usable, now));
    r := Done(counts);
  }
}
