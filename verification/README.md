# Shop assistant: what its state machines keep

The program sells over WhatsApp: an agent shows products, places and cancels orders, and keeps a
product table in step with the shop's own website or database. This project models the parts of it
whose results can be stated exactly, and proves what they promise over every input, every run or
every interleaving.

- **One product and order table** (`Store`, `Orders`, `Inventory`, `CatalogSync`, `SyncRun`,
  `SyncFacts`, `Skus`, `ShopRuns`). Order placement, cancellation, payment changes, dashboard edits and
  catalogue syncs are methods on one mutable database object. Each is proved against a closed form
  (all units of an order leave the shelf at once; a sync is a row-by-row merge), and `ShopRuns` runs the
  closed forms in any order to prove the table rules, the stock ledger, the order machine and the books.
- **Concurrency** (`Lease`, `Debounce`, `Ingest`, `IngestRuns`). The claim of a source by several replicas, the
  timed debouncer of live changes, and concurrent message handling, as machines over every schedule.
- **The limiter** (`RateLimit`). Pruned logs against the full history.
- **Parsing and search** (`Numbers`, `Money`, `Variants`, `JsonLd`, `RobotsTxt`, `Crawl`). Number
  text, rounding, product choices, JSON-LD documents, robots.txt and the crawl frontier. `Text` holds
  options, results and string operations.

What a shared definition means (a usable entry, a due source, a unit price, the order of the queue, a
number in a text) is stated once more in plain terms beside it, so that no result hangs on a
definition alone.

Each method on `Db` stands for one transaction. Methods that change state are stated with `old`; the
lemmas beside them say what the resulting state means.

## Where the code does not do what its text says

Each of these is proved, and so is the exact condition under which the promise holds.

- A European whole amount such as "1.299" is read as 1.299: grouping points are taken for decimals.
  The reading is right if and only if the amount is below a thousand (`Numbers.WholeEUExactly`).
- A second sync of the same list changes nothing but the sync time, yet it reports every row as
  updated whose entry has a price not written with four decimals, because the comparison is by the
  price's text and the column hands back four decimals (`SyncFacts.SecondSyncReportsNoUpdates`).
- A finishing sync writes its status without looking whether it still holds the claim. Syncs of one
  source stay apart when each ends within 45 minutes (`Lease.NeverOverlap`), and the condition is
  sharp (`Lease.OverdueCanBeOverlapped`, `Lease.LateFinishFreesTheClaim`).
- At an age of exactly 45 minutes the scheduler calls a source due and the claim refuses it
  (`Lease.DueMeetsClaim`).
- The handler for a lost race on a message id also swallows a lost race on creating the customer. So
  of two first messages of a new customer one can vanish (`IngestRuns.FirstMessagesCanBeLost`), and even a
  lone one, when a dashboard notice, a campaign or an order alert commits the customer's row in between
  (`IngestRuns.LoneFirstMessageCanBeLost`). `IngestRuns.CommitIngestsExactly` says exactly when.
- robots.txt: section 2.2.2 of RFC 9309 goes by the octets of a rule and lets the allow rule win
  between equally long ones; the reader goes by the compiled pattern and takes the first.
  `RobotsTxt.AgreesExactly` gives the condition on a list of rules under which the two agree whatever
  a target matches, and `RobotsTxt.WildcardsForbid` a target that they disagree on.
- The limiter's pruning needs a clock that does not step back: that is the exact condition for no log
  to be read differently (`RateLimit.ClockConditionExactly`). On an arbitrary clock the verdicts and the
  bound are safe exactly for limits of at most one (`RateLimit.PruningIsSafeExactly`,
  `RateLimit.BoundIsSafeExactly`).
- Cart lines are checked one by one, so two lines for one product can exceed its stock, as they do for
  every product without choices (`ShopRuns.CartCanOvershoot`). The ledger then grows by the excess, and
  it is constant exactly when that never happens (`ShopRuns.LedgerConstant`).
- The documentation of `cancel_order` in app/db/crud.py says cancelling twice raises an error; the
  code returns the order unchanged, and so does `Orders.CancelOrder`.

## Model

| member | source | states |
|---|---|---|
| `RateLimit.Limiter.Prune` | app/rate_limit.py:18-21 | the key's log becomes, and the call returns, the failures less than 15 minutes old |
| `RateLimit.Limiter.IsLockedOut` | app/rate_limit.py:24-25 | locked out exactly when ten failures are left after pruning |
| `RateLimit.Limiter.RecordFailure` | app/rate_limit.py:28-31 | prunes, then appends the time; other keys are untouched |
| `RateLimit.Limiter.Allow` | app/rate_limit.py:37-47 | allowed exactly when fewer than `limit` calls are recent, and only then recorded |
| `RateLimit.RecentOfRecent` | app/rate_limit.py:41-46 | what pruning forgets no later reading can see |
| `RateLimit.PrunedLogIsEnough` | app/rate_limit.py:37-47 | from any later time, a key's pruned log shows what its full history shows, after every run on any keys |
| `RateLimit.AllowAgreesWithHistory` | app/rate_limit.py:37-47 | every verdict is the one of a limiter that remembers all admitted calls |
| `RateLimit.ForgettingShows` | app/rate_limit.py:41-46 | forgetting a log's old times leaves a later reading as it is if and only if none of them is back in the window |
| `RateLimit.ClockConditionExactly` | app/rate_limit.py:40-46 | no log at all is read differently if and only if the clock has not stepped back |
| `RateLimit.LetThroughIsAdmitted` | app/rate_limit.py:37-47 | over every run the pruned logs let through exactly the calls that the full history admits |
| `RateLimit.WindowBound` | app/rate_limit.py:37-39 | no half-open window of the policy's length, wherever it starts, holds more calls that the pruned logs let through than `limit` |
| `RateLimit.CountInIsNumber` | app/rate_limit.py:37-39 | the calls of a window are counted one by one |
| `RateLimit.ClockBackBreaksPruning` | app/rate_limit.py:40-46 | for every limit of at least two, a run on a clock that steps back where a call passes that the full history refuses |
| `RateLimit.ClockBackBreaksBound` | app/rate_limit.py:40-46 | and one where a window then holds one call more than the limit |
| `RateLimit.LowLimitNeedsNoClock` | app/rate_limit.py:37-47 | with a limit of at most one the log is the latest admitted call, and verdicts agree on any clock |
| `RateLimit.PruningIsSafeExactly` | app/rate_limit.py:37-47 | the limiter agrees with the full history on every run, whatever the clock, if and only if the limit is at most one |
| `RateLimit.BoundIsSafeExactly` | app/rate_limit.py:37-47 | and no window holds more than the limit, whatever the clock, under exactly the same condition |
| `RateLimit.PrunedFailuresAreEnough` | app/rate_limit.py:18-31 | the same refinement for the failure log, over every run of checks and failures |
| `RateLimit.LockoutAgreesWithHistory` | app/rate_limit.py:18-31 | a check locks out exactly when ten of all failures ever recorded lie in the last fifteen minutes |
| `JsonLd.Walk` | app/catalog_sync/html.py:154-162 | the explicit-stack loop ends and yields the recursive flattening, later list elements first |
| `JsonLd.IterJsonld` | app/catalog_sync/html.py:141-162 | block after block; one that does not parse yields nothing |
| `JsonLd.Graph` | app/catalog_sync/html.py:160-161 | what an object has under `@graph`: of a key written twice the last value |
| `JsonLd.YieldsExactlyTheObjectsWithin` | app/catalog_sync/html.py:142-162 | an element is yielded if and only if it is an object reachable through lists and `@graph` |
| `RobotsTxt.LineReadsBack` | app/catalog_sync/extractors.py:651-667 | each directive is read from its line in any letter case, whatever white space stands around key and value and whatever comment follows |
| `RobotsTxt.OtherKeysSayNothing` | app/catalog_sync/extractors.py:651-666 | a line with any other key says nothing |
| `RobotsTxt.NoColonSaysNothing` | app/catalog_sync/extractors.py:652-654 | nor does a line without a colon |
| `RobotsTxt.GroupDecides` | app/catalog_sync/extractors.py:659-665 | a rule's group names every crawler exactly when a `*` line lies in the run of agent lines before it |
| `RobotsTxt.KeptAt` | app/catalog_sync/extractors.py:666-667 | the rule of every counting line is kept as the line states it, allowing or forbidding, in its place |
| `RobotsTxt.KeptFrom` | app/catalog_sync/extractors.py:666-667 | and every rule kept is that of a counting line |
| `RobotsTxt.Collect` | app/catalog_sync/extractors.py:646-667 | the one pass keeps exactly the non-empty rules of groups that name `*`, in order, and all sitemaps |
| `RobotsTxt.Read` | app/catalog_sync/extractors.py:646-667 | the same from lines of text |
| `RobotsTxt.Allowed` | app/catalog_sync/extractors.py:669-676 | allowed if and only if the first of the longest matching rules allows, or none matches |
| `RobotsTxt.DecidesExists` | app/catalog_sync/extractors.py:672-675 | if any rule matches there is such a deciding rule |
| `RobotsTxt.LengthIs` | app/catalog_sync/extractors.py:666-674 | the length that rules are measured by is that of the path and one for each wildcard and each character that is escaped, except `$` |
| `RobotsTxt.TieRule` | app/catalog_sync/extractors.py:672-676 | departs from section 2.2.2 of RFC 9309 if and only if the deciding rule forbids and an equally long matching one allows |
| `RobotsTxt.AgreesExactly` | app/catalog_sync/extractors.py:666-676 | reader and section 2.2.2 of RFC 9309 agree, whatever a target matches, if and only if compiled length with the earlier rule first orders each allowing and each forbidding rule as written length with the allowing rule first |
| `RobotsTxt.MeasuresDisagree` | app/catalog_sync/extractors.py:666-674 | where compiled and written length order two matching rules differently, the reader forbids what the standard allows |
| `RobotsTxt.WildcardsForbid` | app/catalog_sync/extractors.py:666-676 | a rule with two wildcards against a longer plain one: a target matching both is refused although the standard allows it |
| `Crawl.Frontier.Enqueue` | app/catalog_sync/extractors.py:766-773 | a page is queued once, if it may be crawled, with its rank and number |
| `Crawl.Frontier.EnqueueAll` | app/catalog_sync/extractors.py:775-779 | the queue grows by exactly the new crawlable targets, each once, ranked and numbered in the order in which they are first linked |
| `Crawl.Frontier.Pop` | app/catalog_sync/extractors.py:817 | takes the entry whose rank is at most every other rank, and whose number is at most every other of its rank |
| `Crawl.NewTargetsAre` | app/catalog_sync/extractors.py:766-773 | the new targets are the crawlable pages linked and not yet queued |
| `Crawl.EarlierLinksFirst` | app/catalog_sync/extractors.py:766-773 | in the order of first mention: more links only add behind |
| `Crawl.ScanKeepsCrawling` | app/catalog_sync/extractors.py:793-813 | scanning a page keeps the invariant: everything queued is in one place, reachable, and scanned pages' links are queued |
| `Crawl.ScanNextBatch` | app/catalog_sync/extractors.py:816-819 | a batch of at most eight, in any arrival order, keeps it and stays within the limit; no page in it ranks behind one left on the queue, or was queued after one of its rank |
| `Crawl.ClosedHoldsPath` | app/catalog_sync/extractors.py:811-813 | a set closed under links holds the end of every path from the seeds |
| `Crawl.ReachableIsCrawlable` | app/catalog_sync/extractors.py:753-757 | pages the filter refuses are never reached |
| `Crawl.Run` | app/catalog_sync/extractors.py:762-821 | no page twice, never home, at most `max_pages`; only reachable and crawlable pages; all reachable ones when the queue ran empty; and exactly the first `max_pages` new crawlable seeds when links are not followed |
| `Numbers.RoundTrip` | app/catalog_sync/extractors.py:83-103 | every amount in cents comes back from plain, US and EU text, whatever surrounds it |
| `Numbers.MoneyStrRoundTrip` | app/catalog_sync/extractors.py:106-107 | what `_money_str` writes is read back as the amount rounded to cents |
| `Numbers.HalfEvenIsNearest` | app/catalog_sync/extractors.py:107 | that rounding is never more than half a cent off, and goes to the even cent in the middle |
| `Numbers.CentsAreNearest` | app/catalog_sync/extractors.py:106-107 | so the cents written are the nearest to the amount, and exact where two decimals are enough |
| `Numbers.NumbersAreKept` | app/catalog_sync/extractors.py:84-88 | a number is taken as it is, a negative one and a missing one are none |
| `Numbers.NothingToRead` | app/catalog_sync/extractors.py:90-92 | text without a digit is no number |
| `Numbers.HasFirstNumber` | app/catalog_sync/extractors.py:90-93 | and in text with a digit there is a first number, once blanks and stray marks are gone |
| `Numbers.UnmarkedReads` | app/catalog_sync/extractors.py:90-101 | a first number without marks is read as it stands |
| `Numbers.MarkedReads` | app/catalog_sync/extractors.py:90-103 | one with marks is worth its digits, those behind the last mark being decimals, unless there are only commas and not one or two digits behind the last; a mark taken for the point that comes twice makes it none |
| `Numbers.WholeUS` | app/catalog_sync/extractors.py:98-101 | whole amounts grouped by commas are read right at any size ("Rs. 1,299") |
| `Numbers.WholeEU` | app/catalog_sync/extractors.py:95-103 | whole amounts grouped by points: right below a thousand, a thousandth below a million, nothing beyond |
| `Numbers.WholeEUExactly` | app/catalog_sync/extractors.py:95-103 | so they are worth what was written if and only if they are below a thousand |
| `Numbers.GroupedRemoves` | app/catalog_sync/extractors.py:97 | dropping the marks of a grouped number gives its digits |
| `Money.QuantizeWithinHalfCent` | app/agents/tools/orders.py:298 | rounding gives whole cents at most half a cent away |
| `Money.QuantizeKeepsCents` | app/agents/tools/orders.py:312 | whole cents are not changed by rounding |
| `Money.Stored` | app/db/models.py:174-196 | the price columns hand back four decimals, the same amount for prices of at most four |
| `Money.StoredIsNearest` | app/db/models.py:174-196 | a price with more decimals is off by at most half a unit of the fourth, and halves go away from zero |
| `Variants.NameResolves` | app/agents/tools/orders.py:71-136 | asked by a name in any case and punctuation, the order takes that variant at its price if and only if the request is not blank, no other variant is named alike, and it is in stock |
| `Variants.NameRefused` | app/agents/tools/orders.py:92-134 | otherwise the refusal says which: a blank request, a name several variants have, or a sold-out variant; without a choice to make anything passes |
| `Variants.ResolvedExactly` | app/agents/tools/orders.py:79-136 | of the variants named as asked, or where none is of those with every value asked for, a single one in stock is taken, a single one sold out is refused as such, and several are too many |
| `Variants.NothingResolves` | app/agents/tools/orders.py:79-121 | and without any the request is refused as unknown |
| `Variants.ShownMeansOrderable` | app/schemas/commerce.py:42-45 | when names differ once normalised, every non-blank name on the Choices line is accepted and brings an in-stock variant of that name |
| `Variants.OrderableIsShown` | app/schemas/commerce.py:25-45 | and in-stock named variants are on the line while there are at most thirty |
| `Variants.EarlierChoicesFirst` | app/schemas/commerce.py:42-45 | the line keeps the order of the variants, and nothing is added behind once thirty are in stock |
| `Variants.ValuesShown` | app/schemas/commerce.py:33-40 | the listed values of an option are the first 25, in order, of those an in-stock variant has |
| `Variants.NormIgnoresBlanks` | app/agents/tools/orders.py:58-59 | blanks around a value do not matter |
| `Variants.NormOfWords` | app/agents/tools/orders.py:58-59 | normalising lowers the words and puts one blank wherever anything else stood between them |
| `Variants.ValuesMean` | app/agents/tools/orders.py:75-77 | a variant has the values of its options or, listing none, those between the slashes of its name |
| `Variants.RequestedValues` | app/agents/tools/orders.py:66-68 | a request that lists plain parts, with labels or without and with any separators ("Size: M, Color: black"), asks for exactly their values |
| `Variants.SlashedIsJoined` | app/agents/tools/orders.py:74 | values joined as in a variant's name ("M / Black") are such a request |
| `Variants.ValuesResolve` | app/agents/tools/orders.py:71-136 | asked by values in any order, labelled or not, the order takes variant k if and only if it is in stock and no other has all of them |
| `Variants.OptionsResolve` | app/agents/tools/orders.py:105-114 | where only options are known, a listing is accepted as written, at the product's price, if and only if each value it asks for is an option's |
| `Variants.OneKept` | app/agents/tools/orders.py:116-128 | there is exactly one match, and it is variant k, if and only if no other variant fits |
| `Store.FindProduct` | app/db/crud.py:187-193 | the product of a tenant with a SKU, or none if there is none |
| `Store.FindOrder` | app/db/crud.py:335-341 | the order of a tenant with a reference, or none if there is none |
| `Store.CountOrdersIsNumber` | app/db/crud.py:282-287 | the running number counts exactly the tenant's own orders |
| `Store.RefReads` | app/db/crud.py:290-293 | a reference reads `ORD-`, the year, and the running number with at least four digits |
| `Store.RefDeterminesNumber` | app/db/crud.py:290-293 | two references are equal only if their running numbers are, whatever the years |
| `Store.NumberedRefsAreUnique` | app/db/crud.py:282-293 | numbering by the tenant's count keeps references distinct, as the unique constraint asks |
| `Orders.RecoveredOnlyIfUnique` | app/agents/tools/orders.py:34-55 | an unknown SKU is recovered if and only if exactly one candidate fits all its tokens |
| `Orders.FitsMeans` | app/agents/tools/orders.py:49-53 | a candidate fits when each token asked for is part of a token of its name, or has one as its part |
| `Orders.TokensOfWords` | app/agents/tools/orders.py:30-31 | the tokens of a text are its words in small letters, whatever stands between them |
| `Text.WordsOfText` | app/agents/tools/orders.py:31 | splitting a text at everything but the characters of words gives the words it is spelled with |
| `Text.Spell` | app/agents/tools/orders.py:31 | and every text is spelled in some way |
| `Text.Letters` | app/agents/tools/orders.py:31 | capitals and small letters correspond letter by letter; nothing else has a case |
| `Orders.ShownCanBeOrdered` | app/agents/tools/orders.py:296-306 | under the same condition a choice as the catalogue prints it becomes an order line for that product at an in-stock variant's price |
| `Orders.ItemBecomesLine` | app/agents/tools/orders.py:288-309 | every item that passes becomes a line of its SKU and quantity: at the product's price where there is nothing to choose, otherwise at that or an in-stock variant's, times the quantity, rounded |
| `Orders.CarriedPriceIsCharged` | app/agents/tools/orders.py:296-308 | a variant named in whatever way is charged at its own price and labels the line |
| `Orders.AmountAddsUp` | app/agents/tools/orders.py:298 | the amount of a line is the price once for each piece |
| `Orders.ItemRefused` | app/agents/tools/orders.py:262-296 | each refusal of an item has its reason: nothing found, off sale, too little stock, or no such choice |
| `Orders.CheckCart` | app/agents/tools/orders.py:261-310 | passes exactly when every item passes on its own; otherwise the first failing item's reason |
| `Orders.DecrementProductStock` | app/db/crud.py:234-242 | stock falls, not below zero; at zero the product goes off sale |
| `Orders.ShipOneMore` | app/agents/tools/orders.py:319-320 | one decrement more is the closed form with one line more |
| `Orders.TakeStock` | app/agents/tools/orders.py:319-320 | line after line equals taking each product's total at once |
| `Orders.Confirm` | app/agents/tools/orders.py:312-333 | stock leaves the shelf and the order row is written |
| `Orders.CreateOrder` | app/db/crud.py:296-332 | appends the order, numbered, with the status its payment method asks for |
| `Orders.PlaceOrder` | app/agents/tools/orders.py:168-333 | accepted exactly when everything passes; a refusal changes nothing and names the first thing wrong; the new order is the customer's, has one line per item, each priced as `ItemBecomesLine` says, and waits as its payment was named |
| `Orders.LocalOrder` | app/agents/tools/orders.py:214-333 | with payment and items in order: every item passes and the customer is known, or nothing changes and the first failing item, or the missing customer, is named |
| `Orders.NewOrderAsRequested` | app/agents/tools/orders.py:296-333 | every accepted request makes such an order |
| `Orders.RecordShopifyOrder` | app/agents/tools/orders.py:396-419 | appends the order and leaves the stock alone |
| `Orders.RestockOneMore` | app/db/crud.py:356-365 | putting one line more back is the closed form with one line more |
| `Orders.RestockLine` | app/db/crud.py:357-365 | a line with SKU and quantity restocks its product and puts it on sale; a deleted product is passed over |
| `Orders.CancelOrder` | app/db/crud.py:344-370 | the loop restores every line at once; refused exactly for paid orders without force; a no-op when cancelled |
| `Orders.CancelOrderTool` | app/agents/tools/orders.py:469-481 | a customer cancels exactly their own open order; no order of another customer changes, and `NotTheirs` comes exactly for an order that is another's; each refusal has its reason |
| `Orders.ObjectionMeans` | app/agents/tools/orders.py:469-480 | what each objection to a cancellation or a change says about the order found |
| `Orders.AdminCancelOrder` | app/admin/router.py:163-188 | an admin cancels any order, paid ones included |
| `Orders.UpdatePaymentMethod` | app/agents/tools/orders.py:522-540 | method and status change together, as the method is named, for the customer's own open order; no order of another changes, and `NotTheirs` comes exactly for an order that is another's |
| `Orders.ApprovePaymentVerification` | app/admin/router.py:1135-1137 | only an order awaiting payment becomes paid |
| `Inventory.UpdateProductStock` | app/admin/router.py:511-524 | the stock is set and the product is on sale exactly when there is some |
| `Inventory.CreateProduct` | app/admin/router.py:562-589 | one row more, with what was filled in, or the reason: a blank SKU, a price not above zero, negative stock, or a taken SKU |
| `Inventory.RemoveProduct` | app/admin/router.py:625-640 | the row goes; refused exactly when there is none |
| `Inventory.StockSetKeeps` | app/db/crud.py:245-253 | stock edits keep the product table's rules |
| `Inventory.CreatedKeeps` | app/admin/router.py:572-585 | new products keep them |
| `Inventory.RemovedKeeps` | app/db/crud.py:270-274 | deletions keep them |
| `Skus.CandidateIsTidied` | app/catalog_sync/service.py:75 | a tidy SKU is kept; any other becomes at most sixty SKU characters without lower case |
| `Skus.CandidateOfWords` | app/catalog_sync/service.py:75 | words of SKU characters come out in capitals with single dashes between them and none around them, whatever stood there, cut to sixty |
| `Skus.TriesDiffer` | app/catalog_sync/service.py:79-81 | the suffixes are injective |
| `Skus.TriesBounded` | app/catalog_sync/service.py:80-81 | tries that are all taken do not outnumber the taken SKUs |
| `Skus.FirstFree` | app/catalog_sync/service.py:79-81 | the first free try lies within one more try than there are taken SKUs |
| `Skus.SkuFor` | app/catalog_sync/service.py:73-82 | the SKU is never taken and never empty |
| `Skus.MakeSku` | app/catalog_sync/service.py:73-82 | the loop ends with that SKU |
| `SyncRun.SkipEntry` | app/catalog_sync/service.py:131-138 | a repeated entry, or a same-page entry without a row, does nothing |
| `SyncRun.TouchEntry` | app/catalog_sync/service.py:133-156 | the first entry for a row rewrites or stamps that row only |
| `SyncRun.AddEntry` | app/catalog_sync/service.py:139-153 | the first readable entry without a row adds one, under a fresh SKU |
| `SyncRun.ApplyEntry` | app/catalog_sync/service.py:130-158 | one turn of the loop takes table, taken SKUs, seen ids and counters to their closed forms |
| `SyncRun.RetireMissing` | app/catalog_sync/service.py:160-164 | exactly the source's on-sale rows that were not seen go off sale, and are counted |
| `SyncRun.ApplyScrapedProducts` | app/catalog_sync/service.py:117-167 | the whole sync equals the row-by-row merge, and the four counts are what changed |
| `SyncRun.FinishSync` | app/catalog_sync/service.py:228-243 | `NothingUsable`, which changes nothing, exactly when every entry was read and has no name or no price above zero; otherwise the sync of the rest |
| `SyncFacts.OldRowsKeepKeys` | app/catalog_sync/service.py:154-164 | no row changes tenant, SKU, source or external id; other sources' rows are untouched |
| `SyncFacts.ActiveRows` | app/catalog_sync/service.py:108-114 | a row on sale was seen; a rewritten one is on sale exactly if available with stock; a same-page one is only stamped |
| `SyncFacts.NewSkusAreUnique` | app/catalog_sync/service.py:141-142 | the SKUs handed out in one sync differ |
| `SyncFacts.ReadableGetsRow` | app/catalog_sync/service.py:139-153 | every id read without a row gets one |
| `SyncFacts.SyncKeepsValid` | app/catalog_sync/service.py:117-167 | unique SKUs and external ids, stock never negative, nothing on sale without stock |
| `SyncFacts.SyncMirrorsSource` | app/catalog_sync/service.py:117-167 | every on-sale row of the source was seen, and the ids with rows are the old ones and the seen ones |
| `SyncFacts.EntryIsShown` | app/catalog_sync/service.py:92-114 | every entry that leads its id is in the table as a row showing it: name and texts cut to their columns, links, pictures, prices, choices, tags, stock and availability |
| `Text.StripMeans` | app/catalog_sync/service.py:93 | where a name or tag is stripped, white space goes off both ends, and nothing else |
| `SyncFacts.OnlyGoodEntriesAreApplied` | app/catalog_sync/service.py:92-167 | whatever a sync adds or rewrites shows an entry that was read and has a name and a price above zero; any other row stays, is stamped or goes off sale |
| `SyncFacts.GoodEntriesAreShown` | app/catalog_sync/service.py:228-243 | and each entry that was read, has a name and a price above zero, and comes first of its id among those not dropped, is in the table as a row showing it |
| `SyncFacts.RewrittenFrom` | app/catalog_sync/service.py:92-114 | what an entry does not say of an old row stays: its pictures, and a stock that is unknown but available, which is a hundred where there was none |
| `SyncFacts.WrittenFromNothing` | app/catalog_sync/service.py:139-153 | a new row has no pictures and a stock of a hundred where its entry does not say |
| `SyncFacts.TidyTagsMean` | app/catalog_sync/service.py:103-104 | tags are stripped, cut to sixty characters, and neither empty nor repeated |
| `SyncFacts.EarlierTagsFirst` | app/catalog_sync/service.py:103-104 | they stay in the order of first mention |
| `SyncFacts.FingerprintMeans` | app/catalog_sync/service.py:85-89 | an update is reported exactly when one of twelve fields changed, prices by their text |
| `SyncFacts.ApplyTwice` | app/catalog_sync/service.py:85-114 | writing an entry twice is writing it once; the second write shows in the fingerprint exactly if a price is not in the columns' form |
| `SyncFacts.SecondSyncChangesNothing` | app/catalog_sync/service.py:117-167 | a second sync of the list adds and removes nothing, reports the same total and changes only the stamps |
| `SyncFacts.SecondSyncReportsNoUpdates` | app/catalog_sync/service.py:155-158 | it reports no updates if and only if every leading entry's prices have four decimals |
| `ShopRuns.Execute` | app/db/crud.py:234-370 | every operation takes the database where the machine goes, and keeps it valid |
| `ShopRuns.NextIsOrderStep` | app/agents/tools/orders.py:537-540 | no step changes an order's lines or amounts, or a cancelled order at all; statuses move only as listed |
| `ShopRuns.NextKeepsValid` | app/catalog_sync/service.py:108-114 | every operation keeps all table rules |
| `ShopRuns.RunKeepsValid` | app/db/models.py:209-288 | so they hold in every reachable state: unique SKUs, ids and references, stock never negative, on sale means in stock, payment method fits status |
| `ShopRuns.OrderOverRun` | app/db/crud.py:344-370 | over every run an order keeps its lines and amounts, and cancelled is final |
| `ShopRuns.CancellingRestocks` | app/db/crud.py:356-367 | the step that cancels puts exactly that order's lines back; a cancellation that cancels nothing changes nothing |
| `ShopRuns.RestoredOnce` | app/db/crud.py:351-367 | over every run an order's stock comes back once if it ends up cancelled, and never otherwise |
| `ShopRuns.TimesRestoredIsNumber` | app/db/crud.py:351-367 | what is counted there are the steps of the run that cancel the order |
| `ShopRuns.LedgerStep` | app/db/crud.py:234-242 | selling and cancelling move stock plus outstanding units by exactly the uncovered units |
| `ShopRuns.LedgerOverRun` | app/db/crud.py:344-370 | over every run of sales, cancellations and payments the ledger grows by exactly those units, so it never falls |
| `ShopRuns.LedgerConstant` | app/agents/tools/orders.py:290-320 | it is constant if and only if each order was within stock, product by product |
| `ShopRuns.CartCanOvershoot` | app/agents/tools/orders.py:261-320 | for every product on sale without choices a cart of two lines for all its stock is accepted and leaves that stock uncovered |
| `ShopRuns.SubtotalNearExact` | app/agents/tools/orders.py:297-299 | the subtotal is whole cents and within half a cent per line of the exact sum |
| `ShopRuns.NewOrderMoney` | app/agents/tools/orders.py:231-312 | a new order's books fit, and total minus subtotal is the rounded delivery charge |
| `ShopRuns.MoneyOverRun` | app/db/crud.py:296-332 | the books of every order fit in every reachable state |
| `Lease.StepKeepsSafe` | app/catalog_sync/service.py:192-267 | while every working sync is prompt, each step keeps them apart and recorded as claim holders |
| `Lease.NobodyWorkingIsSafe` | app/catalog_sync/service.py:192-209 | the invariant holds to begin with, when nobody is at work |
| `Lease.NothingBlocks` | app/catalog_sync/service.py:187-267 | no step waits for another replica: which steps a sync can take hangs on its own phase alone |
| `Lease.FinishIsRecorded` | app/catalog_sync/service.py:251-267 | a finish records success or failure for its source, keeps the time of the last claim and touches no other source |
| `Lease.NeverOverlap` | app/catalog_sync/service.py:187-209 | under every interleaving of prompt syncs, two of one source never overlap |
| `Lease.OverlapExactly` | app/catalog_sync/service.py:203 | a second claim overlaps a working sync if and only if its clock reading is more than 45 minutes later |
| `Lease.OverdueCanBeOverlapped` | app/catalog_sync/service.py:192-209 | a sync can be overlapped at once if and only if it is overdue |
| `Lease.DeadClaimStands` | app/catalog_sync/service.py:195-209 | over every run after a crash the dead holder's claim stands until another is won |
| `Lease.CrashedClaimIsTakenOver` | app/catalog_sync/service.py:201-203 | over every run after a crash, however prompt the holder was, a claim is the first to be won if and only if its time is more than 45 minutes after the dead one's |
| `Lease.CrashedClaimIsFreed` | app/catalog_sync/service.py:187-209 | a replica that begins when the dead claim is older than that finds a claim won by the time it has claimed |
| `Lease.LateFinishFreesTheClaim` | app/catalog_sync/service.py:251-267 | an overdue finish frees another sync's claim, and a third can start beside it |
| `Lease.DueExactly` | app/catalog_sync/service.py:308-319 | due, in minutes since the last start: the interval (sixty if unset, at least five), after a failure at most thirty, while a sync is under way at least 45; at once if it never started; never if disabled |
| `Lease.DueMeetsClaim` | app/catalog_sync/service.py:308-319 | what is due can be claimed, except at an age of exactly 45 minutes |
| `Lease.Syncer.TriggerSync` | app/catalog_sync/service.py:288-305 | starts exactly if this process is not syncing the source |
| `Lease.SortedIsSorted` | app/catalog_sync/service.py:332 | the tick's order is by last start, never started first, with nothing dropped or added |
| `Lease.SortedIsStable` | app/catalog_sync/service.py:332 | sources that started at the same time stay in the order the database gave |
| `Lease.Syncer.SyncDueSources` | app/catalog_sync/service.py:322-337 | one tick sorts the sources, starts the due ones until the limit, and counts them |
| `Lease.AtTheLimit` | app/catalog_sync/service.py:333-334 | stopping at the limit leaves out nothing that could have started |
| `Lease.TickStartsDueSources` | app/catalog_sync/service.py:332-336 | a tick only adds due sources, never beyond the limit |
| `Lease.TickIsFair` | app/catalog_sync/service.py:332-336 | a due source waits only at the limit, behind sources that have waited at least as long |
| `Debounce.RealtimeWatcher.ScheduleSync` | app/catalog_sync/realtime.py:240-250 | a change restarts the timer unless the pending one is overdue |
| `Debounce.RealtimeWatcher.Wake` | app/catalog_sync/realtime.py:252-257 | waking forgets the first change; refused, it sleeps and tries again |
| `Debounce.TimerIs` | app/catalog_sync/realtime.py:240-257 | a change puts the attempt off by 1.5 seconds, not beyond ten after the first change nor into the past, and an overdue attempt stays; a refused one is put off by 1.5 |
| `Debounce.AlwaysSettled` | app/catalog_sync/realtime.py:240-257 | at every point of a timed run a pending timer is due within MAX_DELAY of the first change |
| `Debounce.Waiting` | app/catalog_sync/realtime.py:245-250 | from a change to the next attempt a timer is pending, however many changes follow |
| `Debounce.ChangeIsAttempted` | app/catalog_sync/realtime.py:240-257 | every change is followed by an attempt at most MAX_DELAY after it |
| `Debounce.RestsOnlyWhenDelivered` | app/catalog_sync/realtime.py:255-257 | the watcher rests only when every change was followed by an accepted attempt |
| `Debounce.PendingIsAttempted` | app/catalog_sync/realtime.py:245-257 | whenever a timer is pending an attempt follows within a DEBOUNCE and MAX_DELAY |
| `Debounce.RefusedIsRetried` | app/catalog_sync/realtime.py:256-257 | a refused attempt is followed by another within that time, even when changes replace the retry |
| `Debounce.ChangeIsDelivered` | app/catalog_sync/realtime.py:240-257 | once attempts are accepted, every change before or after that gets an accepted attempt after it, within that time |
| `Debounce.BurstHoldsBack` | app/catalog_sync/realtime.py:245-250 | while a burst goes on there is no attempt, whether it finds the watcher at rest or waiting to retry |
| `Debounce.BurstIsOneAttempt` | app/catalog_sync/realtime.py:240-257 | begun at rest or while a retry is pending, a burst followed by calm in which attempts are accepted causes exactly one attempt |
| `Debounce.AttemptsIsNumber` | app/catalog_sync/realtime.py:252-257 | what is counted there are the attempts |
| `Ingest.CustomerLocks.GetCustomerLock` | app/webhook/router.py:35-40 | a customer's lock is made once and stays theirs |
| `Ingest.StepKeepsOneOwner` | app/db/crud.py:158-169 | each step leaves at most one handler past the dedupe check per message |
| `Ingest.StepKeepsHolders` | app/webhook/router.py:264-265 | a handler is inside a lock exactly when it is recorded as its holder, after every step |
| `IngestRuns.RunIsSound` | app/webhook/router.py:153-265 | every schedule keeps ownership, counts, locks and holders consistent |
| `IngestRuns.AtMostOnce` | app/webhook/router.py:153-191 | each message is logged at most once, exactly if committed, and dispatched at most as often |
| `Ingest.CountIsNumber` | app/webhook/router.py:176 | what is counted there are the rows with the message's id |
| `IngestRuns.TurnsNeverOverlap` | app/webhook/router.py:260-265 | two agent turns for one sender, or for one customer, never overlap |
| `IngestRuns.EachToItsOwnCustomer` | app/webhook/router.py:163-165 | in every run a task's customer is its sender's, and different senders are different customers |
| `IngestRuns.RowsAreTheSenders` | app/webhook/router.py:163-176 | every log row and every agent turn is of a committed message and carries its sender's customer |
| `IngestRuns.CommitIngestsExactly` | app/webhook/router.py:236-255 | a commit ingests if and only if the customer was known or is still new; otherwise the customer was brought in from elsewhere or by another message of theirs |
| `IngestRuns.CopiesAreCommitted` | app/webhook/router.py:242-247 | a task dropped as a copy leaves its message committed once |
| `IngestRuns.QuietMessageIsHandled` | app/webhook/router.py:153-265 | in any reachable state, a new message whose steps nothing gets between is logged once and gets one agent turn, for its sender's customer, if no copy is open and no turn of the sender under way; nothing else changes |
| `IngestRuns.FailsWithoutTrace` | app/webhook/router.py:236-255 | a task can fail exactly while nothing of it is committed, and then leaves nothing behind |
| `IngestRuns.FirstMessagesCanBeLost` | app/webhook/router.py:242-247 | two first messages of a new customer: one can be dropped although no copy of it was committed |
| `IngestRuns.LoneFirstMessageCanBeLost` | app/admin/router.py:482-500 | a lone first message, the answer to a notice whose customer row is committed only afterwards, can be dropped as well |

## Left out

- SyncMirrorsSource: does not say that a seen row is on sale, because a same-page entry keeps a row as it is, even one an earlier sync took off sale (app/catalog_sync/service.py:134-138).
- ChangeIsAttempted: like the other time bounds here it counts attempts and their acceptance, not finished syncs, because acceptance means only that a background task started; each wait may be longer by `slack`, how late the event loop runs a timer.
- AtMostOnce: makes no claim that a message is answered, because a failed turn is not repeated.
- LedgerOverRun: speaks of sales, cancellations and payments; stock edits, deletions and syncs set the stock to new values. Orders kept for the Shopify backend take no stock and count as uncovered.
- OrderableIsShown: only up to thirty in-stock variants, the number the Choices line prints.
- PlaceOrder: each order is one transaction here; two orders that read the same stock at the same time are not modelled, nor is the delivery address, the delivery estimate or the customer record.
- ApprovePaymentVerification: the receipt's own status and the customer's stage are not modelled.
- AdminCancelOrder: refund requests and notifications after the cancellation are not modelled.
- Stored: digits beyond the 14 of the column and the 28 of the decimal context are not modelled, nor are positive exponents.
- AgreesExactly: which rules a target matches is a parameter, as in `Allowed`, so it speaks of every set of matching rules, also of sets that no single target may bring about.
- Run: fetching a page is a function of its address; products found on pages and their ranking by richness are not modelled.
- The hash that makes up a SKU is carried by the scraped entry, and the thirty candidates of a blank catalogue search by the order request.
- The sweep that cancels stale orders calls `has_active_orders` without its tenant (app/main.py:65), so that step raises and is rolled back.
- The website-link channel, which refuses orders before anything is read.
- Product edits other than stock, and the removal of a source while a sync of it is under way.
- Live connections: joining, heartbeats, reconnect delays and stopping a watcher. A dropped connection schedules a sync like a change (app/catalog_sync/realtime.py:160-163); nothing is claimed about changes missed before the rejoin.
- Extraction by a language model, the Shopify and WooCommerce readers, sitemap reading and HTML parsing.
- CommitIngestsExactly: the insert of a customer row counts from its commit, since only the order of commits decides who loses; other writers of the row appear as one step that commits a new customer.
- The agent's turn itself, opt-out keywords, sessions and events beside the message log.
- Text is ASCII; an empty string or list stands for a missing text or list column.
- Scripts that delete orders; bookings and analytics; and of dashboards and broadcasts everything but the customer rows they write.
