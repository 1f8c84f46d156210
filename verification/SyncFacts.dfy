/** What a sync guarantees about the product table, and what a second one changes. */
module SyncFacts {
  import opened Text
  import opened Money
  import opened Store
  import opened Skus
  import opened CatalogSync
  import opened SyncRun

  // ---------- row by row ----------

  /** An old row after the sync. */
  function Final(b: Batch, ps: seq<Product>, row: Product): Product
    requires Priced(b.scraped)
  {
    Retired(b, Seen(b.scraped, Known(ps, b.source)), Merged(b, b.scraped, row))
  }

  lemma SyncedRows(b: Batch, ps: seq<Product>)
    requires Priced(b.scraped)
    ensures |Synced(b, ps)| == |ps| + |Added(b, ps, b.scraped)|
    ensures forall i :: 0 <= i < |ps| ==> Synced(b, ps)[i] == Final(b, ps, ps[i])
    ensures Synced(b, ps)[|ps|..] == Added(b, ps, b.scraped)
  {
    UpsertedIs(b, ps, b.scraped);
  }

  lemma SyncedOld(b: Batch, ps: seq<Product>, i: nat)
    requires Priced(b.scraped) && i < |ps|
    ensures Synced(b, ps)[i] == Final(b, ps, ps[i]) && SameKeys(ps[i], Synced(b, ps)[i])
  {
  }

  lemma SyncedNew(b: Batch, ps: seq<Product>, i: nat)
    requires Priced(b.scraped) && |ps| <= i < |Synced(b, ps)|
    ensures i - |ps| < |Added(b, ps, b.scraped)|
    ensures Synced(b, ps)[i] == Added(b, ps, b.scraped)[i - |ps|]
  {
    SyncedRows(b, ps);
    assert Synced(b, ps)[i] == Synced(b, ps)[|ps|..][i - |ps|];
  }

  predicate SameKeys(p: Product, q: Product) {
    p.tenant == q.tenant && p.sku == q.sku && p.source == q.source && p.externalId == q.externalId
  }

  /** No row changes its tenant, SKU, source or external id; a row of another source, or of
      none, does not change at all. */
  lemma OldRowsKeepKeys(b: Batch, ps: seq<Product>, row: Product)
    requires Priced(b.scraped)
    ensures SameKeys(row, Final(b, ps, row))
    ensures !OfSource(row, b.source) ==> Final(b, ps, row) == row
    ensures Sellable(row) ==> Sellable(Final(b, ps, row))
  {
  }

  /** After the sync a row of the source is on sale only if the batch vouches for it; and when
      the entry that decides for it was read, exactly if that entry is available with stock. */
  lemma ActiveRows(b: Batch, ps: seq<Product>, i: nat)
    requires Priced(b.scraped) && i < |ps| && OfSource(ps[i], b.source)
    ensures Final(b, ps, ps[i]).active ==> ps[i].externalId in Seen(b.scraped, Known(ps, b.source))
    ensures var sp := First(b.scraped, ps[i].externalId);
            sp.Some? && Readable(sp.value) ==>
              (Final(b, ps, ps[i]).active <==> sp.value.available && StockAfter(ps[i].stock, sp.value) > 0)
    ensures var sp := First(b.scraped, ps[i].externalId);
            sp.Some? && sp.value.samePage ==> Final(b, ps, ps[i]) == ps[i].(lastSynced := b.now)
  {
  }

  // ---------- the new rows ----------

  predicate IsNewRow(b: Batch, sp: Scraped, row: Product, taken: set<string>) {
    sp.price.Some? && row == NewRow(b, sp, row.sku) && row.sku != "" && row.sku !in taken
  }

  /** The new rows stand for the ids that had no row, in the order the batch first reads them. */
  ghost predicate AllNew(b: Batch, readables: seq<Scraped>, rows: seq<Product>, taken: set<string>) {
    if readables == [] then rows == []
    else
      && rows != []
      && AllNew(b, readables[..|readables| - 1], rows[..|rows| - 1], taken)
      && IsNewRow(b, readables[|readables| - 1], rows[|rows| - 1], taken)
  }

  lemma {:induction false} AllNewAt(b: Batch, readables: seq<Scraped>, rows: seq<Product>, taken: set<string>, i: nat)
    requires AllNew(b, readables, rows, taken) && i < |rows|
    ensures i < |readables| && IsNewRow(b, readables[i], rows[i], taken)
    decreases |rows|
  {
    AllNewLength(b, readables, rows, taken);
    if i < |rows| - 1 {
      AllNewAt(b, readables[..|readables| - 1], rows[..|rows| - 1], taken, i);
    }
  }

  lemma {:induction false} AllNewLength(b: Batch, readables: seq<Scraped>, rows: seq<Product>, taken: set<string>)
    requires AllNew(b, readables, rows, taken)
    ensures |rows| == |readables|
    decreases |rows|
  {
    if readables != [] {
      AllNewLength(b, readables[..|readables| - 1], rows[..|rows| - 1], taken);
    }
  }

  lemma {:induction false} NewRowsAre(b: Batch, readables: seq<Scraped>, taken: set<string>)
    requires forall i :: 0 <= i < |readables| ==> readables[i].price.Some?
    ensures AllNew(b, readables, NewRows(b, readables, taken), taken)
  {
    if readables != [] {
      var init, sp := readables[..|readables| - 1], readables[|readables| - 1];
      assert readables == init + [sp];
      NewRowsAre(b, init, taken);
      var before := NewRows(b, init, taken);
      var row := NewRowsSnoc(b, init, sp, taken);
      assert (before + [row])[..|before|] == before;
    }
  }

  lemma NewRowsSnoc(b: Batch, readables: seq<Scraped>, sp: Scraped, taken: set<string>) returns (row: Product)
    requires forall i :: 0 <= i < |readables| ==> readables[i].price.Some?
    requires sp.price.Some?
    ensures NewRows(b, readables + [sp], taken) == NewRows(b, readables, taken) + [row]
    ensures IsNewRow(b, sp, row, taken)
  {
    assert (readables + [sp])[..|readables|] == readables;
    var sku := SkuFor(sp.sku, sp.digest, taken + TakenSkus(NewRows(b, readables, taken), b.tenant));
    row := NewRow(b, sp, sku);
    LastIsNew(b, sp, sku, taken);
  }

  lemma LastIsNew(b: Batch, sp: Scraped, sku: string, taken: set<string>)
    requires sp.price.Some? && sku != "" && sku !in taken
    ensures IsNewRow(b, sp, NewRow(b, sp, sku), taken)
  {
  }

  lemma NewRowKeys(b: Batch, sp: Scraped, sku: string)
    requires sp.price.Some?
    ensures var row := NewRow(b, sp, sku);
            && row.tenant == b.tenant && row.sku == sku && row.source == Some(b.source)
            && row.externalId == sp.externalId && Sellable(row)
  {
  }

  lemma {:induction false} NewSkusAreUnique(b: Batch, readables: seq<Scraped>, taken: set<string>)
    requires forall i :: 0 <= i < |readables| ==> readables[i].price.Some?
    ensures UniqueSkus(NewRows(b, readables, taken))
  {
    if readables != [] {
      var init := readables[..|readables| - 1];
      NewSkusAreUnique(b, init, taken);
      NewRowsAre(b, init, taken);
      var before, rows := NewRows(b, init, taken), NewRows(b, readables, taken);
      forall i | 0 <= i < |before|
        ensures before[i].sku != rows[|before|].sku
      {
        AllNewAt(b, init, before, taken, i);
        NewRowKeys(b, init[i], before[i].sku);
        assert before[i].sku in TakenSkus(before, b.tenant);
      }
    }
  }

  /** Fresh entries: readable, without a row, seen, and one per external id. */
  lemma {:induction false} FreshAre(scraped: seq<Scraped>, known: set<string>)
    ensures forall i :: 0 <= i < |Fresh(scraped, known)| ==>
              var sp := Fresh(scraped, known)[i];
              && sp in scraped && Readable(sp) && sp.externalId !in known && sp.externalId in Seen(scraped, known)
    ensures forall i, j :: 0 <= i < j < |Fresh(scraped, known)| ==>
              Fresh(scraped, known)[i].externalId != Fresh(scraped, known)[j].externalId
  {
    if scraped != [] {
      var init, sp := scraped[..|scraped| - 1], scraped[|scraped| - 1];
      FreshAre(init, known);
      SeenSnoc(init, sp, known);
      assert scraped == init + [sp];
      forall i | 0 <= i < |Fresh(init, known)|
        ensures Fresh(init, known)[i] in scraped
      {
        assert Fresh(init, known)[i] in init;
      }
    }
  }

  /** Every id the batch has a readable entry for, and no row, gets a row. */
  lemma {:induction false} ReadableGetsRow(scraped: seq<Scraped>, known: set<string>, externalId: string)
    requires externalId in Seen(scraped, known) && externalId !in known
    ensures exists i :: 0 <= i < |Fresh(scraped, known)| && Fresh(scraped, known)[i].externalId == externalId
  {
    var init, sp := scraped[..|scraped| - 1], scraped[|scraped| - 1];
    assert scraped == init + [sp];
    SeenSnoc(init, sp, known);
    FreshSnoc(init, sp, known);
    var before := Fresh(init, known);
    if externalId in Seen(init, known) {
      ReadableGetsRow(init, known, externalId);
      var i :| 0 <= i < |before| && before[i].externalId == externalId;
      assert Fresh(scraped, known)[i] == before[i];
    } else {
      assert Fresh(scraped, known)[|before|] == sp;
    }
  }

  // ---------- main results ----------

  lemma AddedRows(b: Batch, ps: seq<Product>, i: nat)
    requires Priced(b.scraped) && i < |Added(b, ps, b.scraped)|
    ensures i < |Fresh(b.scraped, Known(ps, b.source))|
    ensures var row, sp := Added(b, ps, b.scraped)[i], Fresh(b.scraped, Known(ps, b.source))[i];
            && sp.price.Some? && row == NewRow(b, sp, row.sku)
            && row.sku != "" && row.sku !in TakenSkus(ps, b.tenant)
            && row.tenant == b.tenant && row.source == Some(b.source) && row.externalId == sp.externalId
            && row.externalId !in Known(ps, b.source) && Sellable(row)
  {
    var readables := Fresh(b.scraped, Known(ps, b.source));
    FreshPriced(b.scraped, Known(ps, b.source));
    NewRowsAre(b, readables, TakenSkus(ps, b.tenant));
    AllNewAt(b, readables, Added(b, ps, b.scraped), TakenSkus(ps, b.tenant), i);
    FreshAre(b.scraped, Known(ps, b.source));
    NewRowKeys(b, readables[i], Added(b, ps, b.scraped)[i].sku);
  }

  lemma AddedUnique(b: Batch, ps: seq<Product>)
    requires Priced(b.scraped)
    ensures UniqueSkus(Added(b, ps, b.scraped)) && UniqueExternalIds(Added(b, ps, b.scraped))
  {
    var readables := Fresh(b.scraped, Known(ps, b.source));
    FreshPriced(b.scraped, Known(ps, b.source));
    FreshAre(b.scraped, Known(ps, b.source));
    NewSkusAreUnique(b, readables, TakenSkus(ps, b.tenant));
    forall i | 0 <= i < |Added(b, ps, b.scraped)|
      ensures Added(b, ps, b.scraped)[i].externalId == readables[i].externalId
    {
      AddedRows(b, ps, i);
    }
  }

  /** A sync keeps the table's rules: tenant SKUs and per-source external ids stay distinct,
      stock is never negative and nothing is on sale without stock. */
  lemma SyncKeepsValid(b: Batch, ps: seq<Product>)
    requires Priced(b.scraped) && ValidProducts(ps)
    ensures ValidProducts(Synced(b, ps))
  {
    var qs, rows := Synced(b, ps), Added(b, ps, b.scraped);
    SyncedRows(b, ps);
    AddedUnique(b, ps);
    forall i | 0 <= i < |ps|
      ensures SameKeys(ps[i], qs[i]) && Sellable(qs[i])
    {
      OldRowsKeepKeys(b, ps, ps[i]);
    }
    forall j | |ps| <= j < |qs|
      ensures qs[j] == rows[j - |ps|]
    {
      assert qs[j] == qs[|ps|..][j - |ps|];
    }
    OldAndNewDiffer(b, ps);
    forall i | 0 <= i < |rows|
      ensures rows[i].sku != "" && Sellable(rows[i])
    {
      AddedRows(b, ps, i);
    }
  }

  lemma OldAndNewDiffer(b: Batch, ps: seq<Product>)
    requires Priced(b.scraped)
    ensures forall i, j :: 0 <= i < |ps| && 0 <= j < |Added(b, ps, b.scraped)| ==>
              var row := Added(b, ps, b.scraped)[j];
              && !(ps[i].tenant == row.tenant && ps[i].sku == row.sku)
              && !(ps[i].source.Some? && ps[i].source == row.source && ps[i].externalId == row.externalId)
  {
    forall i, j | 0 <= i < |ps| && 0 <= j < |Added(b, ps, b.scraped)|
      ensures var row := Added(b, ps, b.scraped)[j];
              && !(ps[i].tenant == row.tenant && ps[i].sku == row.sku)
              && !(ps[i].source.Some? && ps[i].source == row.source && ps[i].externalId == row.externalId)
    {
      AddedRows(b, ps, j);
      if OfSource(ps[i], b.source) {
        KnownRow(ps, b.source, i);
      }
      assert ps[i].tenant == b.tenant ==> ps[i].sku in TakenSkus(ps, b.tenant);
    }
  }

  lemma AddedRowSeen(b: Batch, ps: seq<Product>, i: nat)
    requires Priced(b.scraped) && i < |Added(b, ps, b.scraped)|
    ensures Added(b, ps, b.scraped)[i].externalId in Seen(b.scraped, Known(ps, b.source))
  {
    AddedRows(b, ps, i);
    FreshAre(b.scraped, Known(ps, b.source));
  }

  lemma OldRowSeen(b: Batch, ps: seq<Product>, i: nat)
    requires Priced(b.scraped) && i < |ps| && OfSource(Final(b, ps, ps[i]), b.source)
    ensures Final(b, ps, ps[i]).externalId in Known(ps, b.source)
    ensures Final(b, ps, ps[i]).active ==> Final(b, ps, ps[i]).externalId in Seen(b.scraped, Known(ps, b.source))
  {
  }

  lemma RowAfter(b: Batch, ps: seq<Product>, i: nat)
    requires Priced(b.scraped) && i < |Synced(b, ps)|
    ensures var q, known := Synced(b, ps)[i], Known(ps, b.source);
            && (OfSource(q, b.source) ==> q.externalId in known + Seen(b.scraped, known))
            && (OfSource(q, b.source) && q.active ==> q.externalId in Seen(b.scraped, known))
  {
    if i < |ps| {
      SyncedOld(b, ps, i);
      if OfSource(ps[i], b.source) {
        OldRowSeen(b, ps, i);
      }
    } else {
      SyncedNew(b, ps, i);
      AddedRowSeen(b, ps, i - |ps|);
    }
  }

  /** After the sync, every row of the source that is on sale is one the batch vouches for, and
      the ids with a row are those that had one and those the batch vouches for. */
  lemma SyncMirrorsSource(b: Batch, ps: seq<Product>)
    requires Priced(b.scraped)
    ensures var seen := Seen(b.scraped, Known(ps, b.source));
            && (forall p :: p in Synced(b, ps) && OfSource(p, b.source) && p.active ==> p.externalId in seen)
            && Known(Synced(b, ps), b.source) == Known(ps, b.source) + seen
  {
    var qs, known := Synced(b, ps), Known(ps, b.source);
    forall i: nat | i < |qs| && OfSource(qs[i], b.source)
      ensures qs[i].externalId in known + Seen(b.scraped, known)
      ensures qs[i].active ==> qs[i].externalId in Seen(b.scraped, known)
    {
      RowAfter(b, ps, i);
    }
    forall e | e in known + Seen(b.scraped, known)
      ensures e in Known(qs, b.source)
    {
      SeenHasRow(b, ps, e);
    }
  }

  lemma SeenHasRow(b: Batch, ps: seq<Product>, e: string)
    requires Priced(b.scraped) && e in Known(ps, b.source) + Seen(b.scraped, Known(ps, b.source))
    ensures e in Known(Synced(b, ps), b.source)
  {
    if e in Known(ps, b.source) {
      var i := RowKnown(ps, b.source, e);
      SyncedOld(b, ps, i);
      KnownRow(Synced(b, ps), b.source, i);
    } else {
      ReadableGetsRow(b.scraped, Known(ps, b.source), e);
      var added := Fresh(b.scraped, Known(ps, b.source));
      var i :| 0 <= i < |added| && added[i].externalId == e;
      FreshIsKnown(b, ps, i);
    }
  }

  lemma FreshIsKnown(b: Batch, ps: seq<Product>, i: nat)
    requires Priced(b.scraped) && i < |Fresh(b.scraped, Known(ps, b.source))|
    ensures Fresh(b.scraped, Known(ps, b.source))[i].externalId in Known(Synced(b, ps), b.source)
  {
    SyncedRows(b, ps);
    UpsertedIs(b, ps, b.scraped);
    AddedRows(b, ps, i);
    SyncedNew(b, ps, |ps| + i);
    KnownRow(Synced(b, ps), b.source, |ps| + i);
  }

  // ---------- a second sync of the same list ----------

  predicate SameButStamp(p: Product, q: Product) {
    q == p.(lastSynced := q.lastSynced)
  }

  /** Prices as the columns keep them, with four decimals. */
  predicate Canonical(sp: Scraped) {
    && (sp.price.Some? ==> sp.price.value.scale == COLUMN_SCALE)
    && (sp.compareAt.Some? ==> sp.compareAt.value.scale == COLUMN_SCALE)
  }

  /** Writing an entry twice leaves what writing it once left, but for the time; and the second
      time shows in the fingerprint exactly if a price is not in the columns' form. */
  lemma ApplyTwice(row: Product, sp: Scraped, now: int, later: int)
    requires sp.price.Some?
    ensures var once := Persisted(Applied(row, sp, now));
            && SameButStamp(once, Persisted(Applied(once, sp, later)))
            && (Fingerprint(Applied(once, sp, later)) == Fingerprint(once) <==> Canonical(sp))
  {
  }

  /** The same list, read again later. */
  function Again(b: Batch, later: int): Batch {
    b.(now := later)
  }

  lemma SeenFrom(scraped: seq<Scraped>, known: set<string>, externalId: string) returns (i: nat)
    requires externalId in Seen(scraped, known)
    ensures i < |scraped| && scraped[i].externalId == externalId
    ensures externalId in known || Readable(scraped[i])
  {
    i :| && i < |scraped| && externalId == scraped[i].externalId
         && (scraped[i].externalId in known || Readable(scraped[i]));
  }

  lemma SeenAgain(b: Batch, ps: seq<Product>)
    requires Priced(b.scraped)
    ensures var known := Known(ps, b.source);
            Seen(b.scraped, Known(Synced(b, ps), b.source)) == Seen(b.scraped, known)
  {
    SyncMirrorsSource(b, ps);
    var known, known' := Known(ps, b.source), Known(Synced(b, ps), b.source);
    forall e | e in Seen(b.scraped, known')
      ensures e in Seen(b.scraped, known)
    {
      var i := SeenFrom(b.scraped, known', e);
      assert b.scraped[i].externalId in known ==> e in Seen(b.scraped, known);
    }
    forall e | e in Seen(b.scraped, known)
      ensures e in Seen(b.scraped, known')
    {
      var i := SeenFrom(b.scraped, known, e);
      assert e in known ==> e in known';
    }
  }

  lemma {:induction false} NothingFresh(scraped: seq<Scraped>, known: set<string>)
    requires Seen(scraped, known) <= known
    ensures Fresh(scraped, known) == []
  {
    if scraped != [] {
      var init, sp := scraped[..|scraped| - 1], scraped[|scraped| - 1];
      assert scraped == init + [sp];
      SeenSnoc(init, sp, known);
      NothingFresh(init, known);
    }
  }

  /** What the second sync does to one row of the first one's result. */
  lemma RowAgain(b: Batch, ps: seq<Product>, later: int, i: nat)
    requires Priced(b.scraped) && i < |Synced(b, ps)|
    ensures var q := Synced(b, ps)[i];
            && SameButStamp(q, Final(Again(b, later), Synced(b, ps), q))
            && Retired(b, Seen(b.scraped, Known(ps, b.source)), q) == q
            && (OfSource(q, b.source) ==>
                  var sp := First(b.scraped, q.externalId);
                  sp.Some? && Readable(sp.value) ==>
                    (Updates(Again(b, later), q, b.scraped) <==> !Canonical(sp.value)))
  {
    SyncedRows(b, ps);
    SeenAgain(b, ps);
    RowAfter(b, ps, i);
    var q, known := Synced(b, ps)[i], Known(ps, b.source);
    if OfSource(q, b.source) {
      var sp := First(b.scraped, q.externalId);
      if sp.Some? && Readable(sp.value) {
        var base := RowCameFrom(b, ps, i, sp.value);
        ApplyTwice(base, sp.value, b.now, later);
      }
      KnownRow(Synced(b, ps), b.source, i);
      SeenIsMentioned(b.scraped, Known(Synced(b, ps), b.source), q.externalId);
    }
  }

  /** A row with a readable first entry is that entry, written over some earlier row. */
  lemma RowCameFrom(b: Batch, ps: seq<Product>, i: nat, sp: Scraped) returns (base: Product)
    requires Priced(b.scraped) && i < |Synced(b, ps)|
    requires OfSource(Synced(b, ps)[i], b.source)
    requires First(b.scraped, Synced(b, ps)[i].externalId) == Some(sp) && Readable(sp)
    ensures sp.price.Some?
    ensures Synced(b, ps)[i] == Persisted(Applied(base, sp, b.now))
  {
    if i < |ps| {
      SyncedOld(b, ps, i);
      RewrittenRow(b, ps, i, sp);
      base := ps[i];
    } else {
      SyncedNew(b, ps, i);
      base := AddedRowCameFrom(b, ps, i - |ps|, sp);
    }
  }

  lemma RewrittenRow(b: Batch, ps: seq<Product>, i: nat, sp: Scraped)
    requires Priced(b.scraped) && i < |ps| && OfSource(ps[i], b.source)
    requires First(b.scraped, ps[i].externalId) == Some(sp) && Readable(sp)
    ensures sp.price.Some? && Final(b, ps, ps[i]) == Persisted(Applied(ps[i], sp, b.now))
  {
  }

  lemma AddedRowCameFrom(b: Batch, ps: seq<Product>, i: nat, sp: Scraped) returns (base: Product)
    requires Priced(b.scraped) && i < |Added(b, ps, b.scraped)|
    requires First(b.scraped, Added(b, ps, b.scraped)[i].externalId) == Some(sp) && Readable(sp)
    ensures sp.price.Some? && Added(b, ps, b.scraped)[i] == Persisted(Applied(base, sp, b.now))
    ensures base.images == [] && base.imageUrl == "" && base.stock == 0
  {
    AddedRows(b, ps, i);
    FreshIsFirst(b.scraped, Known(ps, b.source), Fresh(b.scraped, Known(ps, b.source))[i]);
    base := BlankRow(b, sp.externalId, Added(b, ps, b.scraped)[i].sku);
  }

  /** An id's fresh entry is its first readable one, so its first one if that is readable. */
  lemma {:induction false} FreshIsFirst(scraped: seq<Scraped>, known: set<string>, sp: Scraped)
    requires sp in Fresh(scraped, known)
    ensures First(scraped, sp.externalId).Some?
    ensures Readable(First(scraped, sp.externalId).value) ==> First(scraped, sp.externalId).value == sp
  {
    var init, last := scraped[..|scraped| - 1], scraped[|scraped| - 1];
    assert scraped == init + [last];
    FirstSnoc(init, last, sp.externalId);
    if sp in Fresh(init, known) {
      FreshIsFirst(init, known, sp);
    } else {
      ReadableFirstIsSeen(init, known, sp.externalId);
    }
  }

  lemma ReadableFirstIsSeen(scraped: seq<Scraped>, known: set<string>, externalId: string)
    ensures var first := First(scraped, externalId);
            first.Some? && Readable(first.value) ==> externalId in Seen(scraped, known)
  {
  }

  /** Syncing the same list a second time adds nothing, removes nothing, vouches for the same
      ids, and leaves every row as it was but for the time of the sync. */
  lemma SecondSyncChangesNothing(b: Batch, ps: seq<Product>, later: int)
    requires Priced(b.scraped)
    ensures var once, twice := Synced(b, ps), Synced(Again(b, later), Synced(b, ps));
            |twice| == |once| && forall i :: 0 <= i < |once| ==> SameButStamp(once[i], twice[i])
    ensures var counts, first := CountsOf(Again(b, later), Synced(b, ps)), CountsOf(b, ps);
            counts.added == 0 && counts.removed == 0 && counts.total == first.total
  {
    var once := Synced(b, ps);
    SyncMirrorsSource(b, ps);
    SeenAgain(b, ps);
    NothingFresh(b.scraped, Known(once, b.source));
    SyncedRows(Again(b, later), once);
    forall i: nat | i < |once|
      ensures SameButStamp(once[i], Final(Again(b, later), once, once[i]))
      ensures Retired(b, Seen(b.scraped, Known(ps, b.source)), once[i]) == once[i]
    {
      RowAgain(b, ps, later, i);
    }
    assert RemovedRows(Again(b, later), once, Seen(b.scraped, Known(once, b.source))) == {};
  }

  /** Entry k is the first of its external id, and was read. */
  predicate Leads(scraped: seq<Scraped>, k: nat)
    requires k < |scraped|
  {
    !scraped[k].samePage && forall j :: 0 <= j < k ==> scraped[j].externalId != scraped[k].externalId
  }

  lemma {:induction false} LeaderIsFirst(scraped: seq<Scraped>, k: nat)
    requires k < |scraped| && Leads(scraped, k)
    ensures First(scraped, scraped[k].externalId) == Some(scraped[k])
  {
    var init := scraped[..|scraped| - 1];
    if k < |init| {
      LeaderIsFirst(init, k);
    } else {
      assert forall j :: 0 <= j < |init| ==> init[j] == scraped[j];
    }
  }

  lemma {:induction false} FirstLeads(scraped: seq<Scraped>, externalId: string) returns (k: nat)
    requires First(scraped, externalId).Some? && Readable(First(scraped, externalId).value)
    ensures k < |scraped| && Leads(scraped, k) && scraped[k] == First(scraped, externalId).value
  {
    var init := scraped[..|scraped| - 1];
    if First(init, externalId).Some? {
      k := FirstLeads(init, externalId);
    } else {
      k := |init|;
    }
  }

  /** r is s, cut after n elements. */
  predicate CutTo<T(==)>(r: seq<T>, s: seq<T>, n: nat) {
    |r| <= n && r <= s && (|r| < n ==> r == s)
  }

  /** The row says what the entry says: name and texts, links and pictures, prices as the columns have
      them, choices and tags, stock and availability. */
  predicate ShownBy(row: Product, sp: Scraped)
    requires sp.price.Some?
  {
    && CutTo(row.name, Strip(sp.name), 255)
    && CutTo(row.description, sp.description, 2000)
    && CutTo(row.sourceUrl, sp.url, 1000)
    && CutTo(row.currency, Upper(sp.currency), 10)
    && (sp.images != [] ==> CutTo(row.images, sp.images, 20) && row.imageUrl == sp.images[0])
    && CutTo(row.tags, TidyTags(sp.tags), 15)
    && row.price == Stored(sp.price.value)
    && (row.compareAt.Some? <==> sp.compareAt.Some?)
    && (sp.compareAt.Some? ==> row.compareAt.value == Stored(sp.compareAt.value))
    && row.options == sp.options && row.variants == sp.variants && row.pageHash == sp.pageHash
    && StockFits(row.stock, sp) && (row.active <==> sp.available && row.stock > 0)
  }

  /** A stock the source gives is taken over, never below zero; otherwise there is some exactly if
      the entry is available. */
  predicate StockFits(stock: int, sp: Scraped) {
    match sp.stock
    case Some(n) => stock >= 0 && stock >= n && (stock == n || stock == 0)
    case None => stock >= 0 && (stock > 0 <==> sp.available)
  }

  lemma WrittenIsShown(base: Product, sp: Scraped, now: int)
    requires sp.price.Some?
    ensures ShownBy(Persisted(Applied(base, sp, now)), sp)
  {
  }

  /** t is one of the tags, stripped and cut to sixty characters. */
  ghost predicate IsTidied(t: string, tags: seq<string>) {
    exists i :: 0 <= i < |tags| && CutTo(t, Strip(tags[i]), 60)
  }

  lemma TidiedSnoc(t: string, init: seq<string>, last: string)
    ensures IsTidied(t, init + [last]) <==> IsTidied(t, init) || t == Take(Strip(last), 60)
  {
    var tags := init + [last];
    CutIsTake(t, Strip(last), 60);
    if IsTidied(t, init) {
      var i :| 0 <= i < |init| && CutTo(t, Strip(init[i]), 60);
      assert tags[i] == init[i];
    }
    if IsTidied(t, tags) {
      var i :| 0 <= i < |tags| && CutTo(t, Strip(tags[i]), 60);
      assert i < |init| ==> tags[i] == init[i];
    }
    assert tags[|init|] == last;
  }

  /** Tags are stripped and cut to sixty characters; the empty ones go, and repeats. */
  lemma {:induction false} TidyTagsMean(tags: seq<string>)
    ensures forall i, j :: 0 <= i < j < |TidyTags(tags)| ==> TidyTags(tags)[i] != TidyTags(tags)[j]
    ensures forall t :: t in TidyTags(tags) <==> t != "" && IsTidied(t, tags)
  {
    if tags != [] {
      var init, last := tags[..|tags| - 1], tags[|tags| - 1];
      assert tags == init + [last];
      TidyTagsMean(init);
      forall t
        ensures IsTidied(t, tags) <==> IsTidied(t, init) || t == Take(Strip(last), 60)
      {
        TidiedSnoc(t, init, last);
      }
    }
  }

  lemma CutIsTake<T>(r: seq<T>, s: seq<T>, n: nat)
    ensures CutTo(r, s, n) <==> r == Take(s, n)
  {
  }

  /** They stay in the order of first mention: more tags only add behind. */
  lemma {:induction false} EarlierTagsFirst(tags: seq<string>, n: nat)
    requires n <= |tags|
    ensures TidyTags(tags[..n]) <= TidyTags(tags)
  {
    if n == |tags| {
      assert tags[..n] == tags;
    } else {
      var init := tags[..|tags| - 1];
      EarlierTagsFirst(init, n);
      assert init[..n] == tags[..n];
    }
  }

  /** Where the entry says nothing the row has these pictures, and this stock unless there was none. */
  predicate HasUnsaid(row: Product, sp: Scraped, images: seq<string>, imageUrl: string, stock: int) {
    && (sp.images == [] ==> row.images == images && row.imageUrl == imageUrl)
    && (sp.stock.None? && sp.available ==> row.stock == if stock > 0 then stock else 100)
  }

  /** What an entry does not say stays as the row had it: its pictures, and a stock that is unknown
      but available, unless there was none: then it is taken to be a hundred. */
  lemma UnsaidStays(base: Product, sp: Scraped, now: int)
    requires sp.price.Some?
    ensures var row := Persisted(Applied(base, sp, now));
            HasUnsaid(row, sp, base.images, base.imageUrl, base.stock) && row.lastSynced == now
  {
  }

  lemma AddedUnsaid(b: Batch, ps: seq<Product>, j: nat, sp: Scraped, row: Product)
    requires Priced(b.scraped) && j < |Added(b, ps, b.scraped)| && row == Added(b, ps, b.scraped)[j]
    requires First(b.scraped, row.externalId) == Some(sp) && Readable(sp)
    ensures HasUnsaid(row, sp, [], "", 0) && row.lastSynced == b.now
  {
    var base := AddedRowCameFrom(b, ps, j, sp);
    UnsaidStays(base, sp, b.now);
  }

  lemma RewrittenUnsaid(b: Batch, ps: seq<Product>, i: nat, sp: Scraped)
    requires Priced(b.scraped) && i < |ps| && OfSource(ps[i], b.source)
    requires First(b.scraped, ps[i].externalId) == Some(sp) && Readable(sp)
    ensures var row := Final(b, ps, ps[i]);
            HasUnsaid(row, sp, ps[i].images, ps[i].imageUrl, ps[i].stock) && row.lastSynced == b.now
  {
    RewrittenRow(b, ps, i, sp);
    UnsaidStays(ps[i], sp, b.now);
  }

  /** An old row is rewritten from what it was. */
  lemma RewrittenFrom(b: Batch, ps: seq<Product>, i: nat, sp: Scraped)
    requires Priced(b.scraped) && i < |ps| && OfSource(ps[i], b.source)
    requires First(b.scraped, ps[i].externalId) == Some(sp) && Readable(sp)
    ensures HasUnsaid(Synced(b, ps)[i], sp, ps[i].images, ps[i].imageUrl, ps[i].stock)
    ensures Synced(b, ps)[i].lastSynced == b.now
  {
    SyncedOld(b, ps, i);
    RewrittenUnsaid(b, ps, i, sp);
  }

  /** And a new one is written from nothing. */
  lemma WrittenFromNothing(b: Batch, ps: seq<Product>, i: nat, sp: Scraped)
    requires Priced(b.scraped) && |ps| <= i < |Synced(b, ps)|
    requires First(b.scraped, Synced(b, ps)[i].externalId) == Some(sp) && Readable(sp)
    ensures HasUnsaid(Synced(b, ps)[i], sp, [], "", 0) && Synced(b, ps)[i].lastSynced == b.now
  {
    SyncedNew(b, ps, i);
    AddedUnsaid(b, ps, i - |ps|, sp, Synced(b, ps)[i]);
  }

  /** An update is reported exactly for these fields; prices count by their text. */
  lemma FingerprintMeans(p: Product, q: Product)
    ensures Fingerprint(p) == Fingerprint(q) <==>
            && p.name == q.name && p.description == q.description && p.price == q.price && p.compareAt == q.compareAt
            && p.currency == q.currency && p.images == q.images && p.imageUrl == q.imageUrl && p.options == q.options
            && p.variants == q.variants && p.tags == q.tags && p.sourceUrl == q.sourceUrl && p.active == q.active
  {
  }

  /** Some row of the source has the entry's external id and shows the entry. */
  ghost predicate HasRowShowing(rows: seq<Product>, source: nat, sp: Scraped)
    requires sp.price.Some?
  {
    exists i :: && 0 <= i < |rows| && OfSource(rows[i], source) && rows[i].externalId == sp.externalId
                && ShownBy(rows[i], sp)
  }

  /** Every entry that leads its external id is in the table after the sync, as one row of the
      source that shows it. */
  lemma EntryIsShown(b: Batch, ps: seq<Product>, k: nat)
    requires Priced(b.scraped) && k < |b.scraped| && Leads(b.scraped, k)
    ensures b.scraped[k].price.Some?
    ensures HasRowShowing(Synced(b, ps), b.source, b.scraped[k])
  {
    var sp := b.scraped[k];
    assert sp.externalId in Seen(b.scraped, Known(ps, b.source));
    SyncMirrorsSource(b, ps);
    var i := RowKnown(Synced(b, ps), b.source, sp.externalId);
    LeaderIsFirst(b.scraped, k);
    var base := RowCameFrom(b, ps, i, sp);
    WrittenIsShown(base, sp, b.now);
  }

  lemma RowKnown(ps: seq<Product>, source: nat, externalId: string) returns (i: nat)
    requires externalId in Known(ps, source)
    ensures i < |ps| && OfSource(ps[i], source) && ps[i].externalId == externalId
  {
    i :| i < |ps| && OfSource(ps[i], source) && ps[i].externalId == externalId;
  }

  /** What a row can become without an entry that was read: it stays, is stamped, or goes off sale. */
  predicate NotRewritten(p: Product, q: Product, now: int) {
    q == p || q == p.(lastSynced := now) || q == p.(active := false, stock := 0)
  }

  /** A row of the source that shows an entry of the scrape which was read and has a name and a price
      above zero. */
  ghost predicate FromGoodEntry(found: seq<Scraped>, source: nat, row: Product) {
    exists sp :: && sp in found && !sp.samePage && sp.name != "" && sp.price.Some? && Amount(sp.price.value) > 0.0
                 && OfSource(row, source) && row.externalId == sp.externalId && ShownBy(row, sp)
  }

  /** Whatever a sync adds or rewrites comes from such an entry. */
  lemma OnlyGoodEntriesAreApplied(ps: seq<Product>, tenant: nat, source: nat, found: seq<Scraped>, now: int, i: nat)
    requires i < |AfterSync(ps, tenant, source, found, now)|
    ensures var q := AfterSync(ps, tenant, source, found, now)[i];
            (i < |ps| && NotRewritten(ps[i], q, now)) || FromGoodEntry(found, source, q)
  {
    if Usable(found) != [] {
      var b := Batch(tenant, source, Usable(found), now);
      if i < |ps| {
        OldRowRewritten(b, ps, found, i);
      } else {
        NewRowFromEntry(b, ps, found, i);
      }
    }
  }

  /** The usable entries before entry k come first among the usable ones, and then entry k. */
  lemma {:induction false} UsableInOrder(found: seq<Scraped>, k: nat)
    requires k < |found| && IsUsable(found[k])
    ensures Usable(found[..k]) + [found[k]] <= Usable(found)
  {
    var init := found[..|found| - 1];
    if k < |init| {
      UsableInOrder(init, k);
      assert init[..k] == found[..k];
    }
  }

  lemma GoodEntryLeads(found: seq<Scraped>, k: nat) returns (p: nat)
    requires k < |found| && !found[k].samePage && !IsDropped(found[k])
    requires forall j :: 0 <= j < k && !IsDropped(found[j]) ==> found[j].externalId != found[k].externalId
    ensures p < |Usable(found)| && Usable(found)[p] == found[k] && Leads(Usable(found), p)
  {
    var before := Usable(found[..k]);
    p := |before|;
    UsableOrDropped(found[k]);
    UsableInOrder(found, k);
    forall j | 0 <= j < p
      ensures Usable(found)[j].externalId != found[k].externalId
    {
      assert before[j] in before;
      UsableOrDropped(before[j]);
      var m :| 0 <= m < k && found[m] == before[j];
    }
  }

  /** And the other way round: an entry that was read, with a name and a price above zero, is in the
      table afterwards as a row that shows it, unless an earlier entry that is not dropped has its id. */
  lemma GoodEntriesAreShown(ps: seq<Product>, tenant: nat, source: nat, found: seq<Scraped>, now: int, k: nat)
    requires k < |found| && !found[k].samePage && !IsDropped(found[k])
    requires forall j :: 0 <= j < k && !IsDropped(found[j]) ==> found[j].externalId != found[k].externalId
    ensures found[k].price.Some? && HasRowShowing(AfterSync(ps, tenant, source, found, now), source, found[k])
  {
    var p := GoodEntryLeads(found, k);
    EntryIsShown(Batch(tenant, source, Usable(found), now), ps, p);
  }

  lemma GoodEntryShown(found: seq<Scraped>, source: nat, base: Product, sp: Scraped, now: int)
    requires sp in Usable(found) && Readable(sp)
    requires OfSource(base, source) && base.externalId == sp.externalId
    ensures sp.price.Some? && FromGoodEntry(found, source, Persisted(Applied(base, sp, now)))
  {
    UsableOrDropped(sp);
    WrittenIsShown(base, sp, now);
  }

  lemma OldRowRewritten(b: Batch, ps: seq<Product>, found: seq<Scraped>, i: nat)
    requires b.scraped == Usable(found) && i < |ps|
    ensures NotRewritten(ps[i], Synced(b, ps)[i], b.now) || FromGoodEntry(found, b.source, Synced(b, ps)[i])
  {
    SyncedOld(b, ps, i);
    OldRowsKeepKeys(b, ps, ps[i]);
    if OfSource(ps[i], b.source) {
      var sp := First(b.scraped, ps[i].externalId);
      if sp.Some? && Readable(sp.value) {
        RewrittenRow(b, ps, i, sp.value);
        GoodEntryShown(found, b.source, ps[i], sp.value, b.now);
      } else if sp.Some? {
        ActiveRows(b, ps, i);
      }
    }
  }

  lemma NewRowFromEntry(b: Batch, ps: seq<Product>, found: seq<Scraped>, i: nat)
    requires b.scraped == Usable(found) && |ps| <= i < |Synced(b, ps)|
    ensures FromGoodEntry(found, b.source, Synced(b, ps)[i])
  {
    SyncedNew(b, ps, i);
    AddedFromGoodEntry(b, ps, found, i - |ps|, Synced(b, ps)[i]);
  }

  lemma AddedFromGoodEntry(b: Batch, ps: seq<Product>, found: seq<Scraped>, j: nat, row: Product)
    requires b.scraped == Usable(found) && j < |Added(b, ps, b.scraped)| && row == Added(b, ps, b.scraped)[j]
    ensures FromGoodEntry(found, b.source, row)
  {
    var sp, base := AddedFromEntry(b, ps, j);
    GoodEntryShown(found, b.source, base, sp, b.now);
  }

  lemma AddedFromEntry(b: Batch, ps: seq<Product>, j: nat) returns (sp: Scraped, base: Product)
    requires Priced(b.scraped) && j < |Added(b, ps, b.scraped)|
    ensures sp in b.scraped && Readable(sp) && sp.price.Some?
    ensures OfSource(base, b.source) && base.externalId == sp.externalId
    ensures Added(b, ps, b.scraped)[j] == Persisted(Applied(base, sp, b.now))
  {
    AddedRows(b, ps, j);
    FreshAre(b.scraped, Known(ps, b.source));
    sp := Fresh(b.scraped, Known(ps, b.source))[j];
    base := BlankRow(b, sp.externalId, Added(b, ps, b.scraped)[j].sku);
  }

  /** Whether the second sync also reports no updates hangs on the text of the prices alone: it
      does exactly when every leading entry has its prices with four decimals, the form in which
      the columns hand them back. */
  lemma SecondSyncReportsNoUpdates(b: Batch, ps: seq<Product>, later: int)
    requires Priced(b.scraped)
    ensures CountsOf(Again(b, later), Synced(b, ps)).updated == 0
       <==> forall k :: 0 <= k < |b.scraped| && Leads(b.scraped, k) ==> Canonical(b.scraped[k])
  {
    var once := Synced(b, ps);
    var updated := UpdatedRows(Again(b, later), once, b.scraped);
    if forall k :: 0 <= k < |b.scraped| && Leads(b.scraped, k) ==> Canonical(b.scraped[k]) {
      forall i: nat | i < |once|
        ensures i !in updated
      {
        RowAgain(b, ps, later, i);
        var sp := First(b.scraped, once[i].externalId);
        if sp.Some? && Readable(sp.value) {
          var k := FirstLeads(b.scraped, once[i].externalId);
        }
      }
      assert updated == {};
    } else {
      var k :| 0 <= k < |b.scraped| && Leads(b.scraped, k) && !Canonical(b.scraped[k]);
      LeaderIsFirst(b.scraped, k);
      var e := b.scraped[k].externalId;
      assert e in Seen(b.scraped, Known(ps, b.source));
      SyncMirrorsSource(b, ps);
      var i: nat :| i < |once| && OfSource(once[i], b.source) && once[i].externalId == e;
      RowAgain(b, ps, later, i);
      assert i in updated;
    }
  }
}
