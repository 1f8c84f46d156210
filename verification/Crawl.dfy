/** The crawl of a shop's website: the frontier and scan loop of `extract_generic`
    (app/catalog_sync/extractors.py). */
module Crawl {
  import opened Text

  /** What the crawler can see of a site: `home` is where the home page really lives, `page` gives
      the links of an HTML page it could fetch, `strip` drops a fragment, `crawlable` is the site,
      file-type, robots and query filter, and `rank` orders product pages before category pages
      before the rest.  Pages are fetched once, so a fixed function is enough. */
  datatype Site = Site(
    home: string,
    page: string -> Option<seq<string>>,
    strip: string -> string,
    crawlable: string -> bool,
    rank: string -> int)

  // ---------- the link graph ----------

  /** The pages that following `links` would put on the frontier. */
  ghost function Targets(site: Site, links: seq<string>): set<string> {
    set k | 0 <= k < |links| && site.crawlable(site.strip(links[k])) :: site.strip(links[k])
  }

  ghost function Successors(site: Site, follow: bool, url: string): set<string> {
    match site.page(url)
    case Some(links) => if follow then Targets(site, links) else {}
    case None => {}
  }

  /** `path` leads from one of the seeds to its last page, link by link, never through the
      home page, whose links are seeds already. */
  ghost predicate IsPath(site: Site, follow: bool, seeds: seq<string>, path: seq<string>) {
    if |path| <= 1 then path != [] && path[0] in Targets(site, seeds)
    else
      var init := path[..|path| - 1];
      && IsPath(site, follow, seeds, init)
      && init[|init| - 1] != site.home
      && path[|path| - 1] in Successors(site, follow, init[|init| - 1])
  }

  ghost predicate Reachable(site: Site, follow: bool, seeds: seq<string>, url: string) {
    exists path :: IsPath(site, follow, seeds, path) && path[|path| - 1] == url
  }

  lemma ReachableIsCrawlable(site: Site, follow: bool, seeds: seq<string>, url: string)
    requires Reachable(site, follow, seeds, url)
    ensures site.crawlable(url)
  {
  }

  lemma ReachFurther(site: Site, follow: bool, seeds: seq<string>, url: string, next: string)
    requires Reachable(site, follow, seeds, url) && url != site.home
    requires next in Successors(site, follow, url)
    ensures Reachable(site, follow, seeds, next)
  {
    var path :| IsPath(site, follow, seeds, path) && path[|path| - 1] == url;
    assert (path + [next])[..|path|] == path;
    assert IsPath(site, follow, seeds, path + [next]);
  }

  lemma ReachSeed(site: Site, follow: bool, seeds: seq<string>, url: string)
    requires url in Targets(site, seeds)
    ensures Reachable(site, follow, seeds, url)
  {
    assert IsPath(site, follow, seeds, [url]) && [url][0] == url;
  }

  /** A set that holds the seeds and, with each of its pages but home, what that page links to,
      holds every page at the end of a path. */
  lemma {:induction false} ClosedHoldsPath(site: Site, follow: bool, seeds: seq<string>, closed: set<string>,
                                           path: seq<string>)
    requires IsPath(site, follow, seeds, path)
    requires Targets(site, seeds) <= closed
    requires forall u :: u in closed && u != site.home ==> Successors(site, follow, u) <= closed
    ensures path[|path| - 1] in closed
  {
    if |path| > 1 {
      var init := path[..|path| - 1];
      ClosedHoldsPath(site, follow, seeds, closed, init);
    }
  }

  // ---------- the frontier ----------

  datatype Entry = Entry(rank: int, order: nat, url: string)

  predicate Before(a: Entry, b: Entry) {
    a.rank < b.rank || (a.rank == b.rank && a.order <= b.order)
  }

  ghost function Urls(entries: seq<Entry>): set<string> {
    set e | e in entries :: e.url
  }

  ghost predicate DistinctUrls(entries: seq<Entry>) {
    forall i, j :: 0 <= i < j < |entries| ==> entries[i].url != entries[j].url
  }

  /** The pages that links add to the frontier, in the order in which they are first linked. */
  function NewTargets(site: Site, links: seq<string>, queued: set<string>): (urls: seq<string>)
    ensures forall i, j :: 0 <= i < j < |urls| ==> urls[i] != urls[j]
    ensures forall u :: u in urls ==> site.crawlable(u) && u !in queued
  {
    if links == [] then []
    else
      var before, url := NewTargets(site, links[..|links| - 1], queued), site.strip(links[|links| - 1]);
      if url in queued || url in before || !site.crawlable(url) then before else before + [url]
  }

  lemma {:induction false} NewTargetsAre(site: Site, links: seq<string>, queued: set<string>)
    ensures forall u :: u in NewTargets(site, links, queued) <==> u in Targets(site, links) && u !in queued
  {
    if links != [] {
      var init, last := links[..|links| - 1], links[|links| - 1];
      NewTargetsAre(site, init, queued);
      TargetsSnoc(site, init, last);
      assert links == init + [last];
    }
  }

  /** More links only add pages behind those of the first ones. */
  lemma {:induction false} EarlierLinksFirst(site: Site, links: seq<string>, queued: set<string>, n: nat)
    requires n <= |links|
    ensures NewTargets(site, links[..n], queued) <= NewTargets(site, links, queued)
  {
    if n == |links| {
      assert links[..n] == links;
    } else {
      var init := links[..|links| - 1];
      EarlierLinksFirst(site, init, queued, n);
      assert init[..n] == links[..n];
    }
  }

  function EntriesFor(site: Site, follow: bool, urls: seq<string>, counter: nat): (entries: seq<Entry>)
    ensures |entries| == |urls|
  {
    seq(|urls|, i requires 0 <= i < |urls| => Entry(if follow then site.rank(urls[i]) else 0, counter + 1 + i, urls[i]))
  }

  lemma EntriesSnoc(site: Site, follow: bool, urls: seq<string>, url: string, counter: nat)
    ensures EntriesFor(site, follow, urls + [url], counter) == EntriesFor(site, follow, urls, counter)
              + [Entry(if follow then site.rank(url) else 0, counter + 1 + |urls|, url)]
  {
  }

  class Frontier {
    const site: Site
    const follow: bool
    var queue: seq<Entry>
    var queued: set<string>
    var counter: nat

    constructor (site: Site, follow: bool)
      ensures this.site == site && this.follow == follow
      ensures queue == [] && queued == {site.home} && counter == 0
    {
      this.site, this.follow := site, follow;
      queue, queued, counter := [], {site.home}, 0;
    }

    /** A page goes on the queue once, if it may be crawled at all. */
    method Enqueue(link: string)
      modifies this
      ensures var url := site.strip(link);
              if url in old(queued) || !site.crawlable(url)
              then queue == old(queue) && queued == old(queued) && counter == old(counter)
              else && queued == old(queued) + {url}
                   && counter == old(counter) + 1
                   && queue == old(queue) + [Entry(if follow then site.rank(url) else 0, counter, url)]
    {
      var url := site.strip(link);
      if url in queued || !site.crawlable(url) {
        return;
      }
      queued := queued + {url};
      counter := counter + 1;
      queue := queue + [Entry(if follow then site.rank(url) else 0, counter, url)];
    }

    /** All the links of a page: what is queued afterwards is what was, and the new crawlable
        pages, each once. */
    method EnqueueAll(links: seq<string>)
      requires DistinctUrls(queue) && Urls(queue) <= queued
      modifies this
      ensures queued == old(queued) + Targets(site, links)
      ensures var urls := NewTargets(site, links, old(queued));
              && queue == old(queue) + EntriesFor(site, follow, urls, old(counter))
              && counter == old(counter) + |urls|
      ensures DistinctUrls(queue)
      ensures Urls(queue) == Urls(old(queue)) + (queued - old(queued))
    {
      StartsLinked(site, follow, queue, queued, counter);
      for n := 0 to |links|
        invariant Linked(site, follow, links[..n], old(queue), old(queued), old(counter), queue, queued, counter)
      {
        ghost var before := Here(queue, queued, counter);
        Enqueue(links[n]);
        assert links[..n + 1] == links[..n] + [links[n]];
        LinkedOneMore(site, follow, links[..n], links[n], old(queue), old(queued), old(counter),
                      before, Here(queue, queued, counter));
      }
      assert links[..|links|] == links;
    }

    /** Takes an entry no other entry comes before: smallest rank, then first queued. */
    method Pop() returns (url: string, ghost k: nat)
      requires queue != []
      modifies this`queue
      ensures k < |old(queue)| && url == old(queue)[k].url
      ensures queue == old(queue)[..k] + old(queue)[k + 1..]
      ensures forall j :: 0 <= j < |old(queue)| ==>
                var e, other := old(queue)[k], old(queue)[j];
                e.rank <= other.rank && (e.rank == other.rank ==> e.order <= other.order)
    {
      var first := 0;
      for n := 1 to |queue|
        invariant 0 <= first < |queue|
        invariant forall j :: 0 <= j < n ==> Before(queue[first], queue[j])
      {
        if !Before(queue[first], queue[n]) {
          first := n;
        }
      }
      url, k := queue[first].url, first;
      queue := queue[..first] + queue[first + 1..];
    }
  }

  /** A frontier's state. */
  datatype Here = Here(queue: seq<Entry>, queued: set<string>, counter: nat)

  /** What linking these pages has made of a frontier. */
  ghost predicate Linked(site: Site, follow: bool, links: seq<string>, queue0: seq<Entry>, queued0: set<string>,
                         counter0: nat, queue: seq<Entry>, queued: set<string>, counter: nat)
  {
    var urls := NewTargets(site, links, queued0);
    && queue == queue0 + EntriesFor(site, follow, urls, counter0) && counter == counter0 + |urls|
    && queued == queued0 + Targets(site, links)
    && DistinctUrls(queue) && Urls(queue) == Urls(queue0) + (queued - queued0)
  }

  lemma StartsLinked(site: Site, follow: bool, queue: seq<Entry>, queued: set<string>, counter: nat)
    requires DistinctUrls(queue)
    ensures Linked(site, follow, [], queue, queued, counter, queue, queued, counter)
  {
  }

  lemma LinkedOneMore(site: Site, follow: bool, links: seq<string>, link: string, queue0: seq<Entry>,
                      queued0: set<string>, counter0: nat, was: Here, now: Here)
    requires Urls(queue0) <= queued0
    requires Linked(site, follow, links, queue0, queued0, counter0, was.queue, was.queued, was.counter)
    requires var url := site.strip(link);
             if url in was.queued || !site.crawlable(url) then now == was
             else now == Here(was.queue + [Entry(if follow then site.rank(url) else 0, was.counter + 1, url)],
                              was.queued + {url}, was.counter + 1)
    ensures Linked(site, follow, links + [link], queue0, queued0, counter0, now.queue, now.queued, now.counter)
  {
    var url := site.strip(link);
    TargetsSnoc(site, links, link);
    NewTargetsSnoc(site, links, link, queued0);
    if !(url in was.queued || !site.crawlable(url)) {
      LinkedNew(site, follow, NewTargets(site, links, queued0), url, queue0, queued0, counter0, was, now);
    }
  }

  lemma LinkedNew(site: Site, follow: bool, urls: seq<string>, url: string, queue0: seq<Entry>,
                  queued0: set<string>, counter0: nat, was: Here, now: Here)
    requires Urls(queue0) <= queued0 <= was.queued && url !in was.queued
    requires was.queue == queue0 + EntriesFor(site, follow, urls, counter0) && was.counter == counter0 + |urls|
    requires DistinctUrls(was.queue) && Urls(was.queue) == Urls(queue0) + (was.queued - queued0)
    requires now == Here(was.queue + [Entry(if follow then site.rank(url) else 0, was.counter + 1, url)],
                         was.queued + {url}, was.counter + 1)
    ensures now.queue == queue0 + EntriesFor(site, follow, urls + [url], counter0)
    ensures now.counter == counter0 + |urls + [url]|
    ensures DistinctUrls(now.queue) && Urls(now.queue) == Urls(queue0) + (now.queued - queued0)
  {
    var e := Entry(if follow then site.rank(url) else 0, was.counter + 1, url);
    EntriesSnoc(site, follow, urls, url, counter0);
    Regroup(queue0, EntriesFor(site, follow, urls, counter0), [e]);
    UrlsSnoc(was.queue, e);
    StillDistinct(was.queue, e);
  }

  lemma NewTargetsSnoc(site: Site, links: seq<string>, link: string, queued: set<string>)
    ensures var url := site.strip(link);
            NewTargets(site, links + [link], queued) ==
            if url in queued + Targets(site, links) || !site.crawlable(url) then NewTargets(site, links, queued)
            else NewTargets(site, links, queued) + [url]
  {
    NewTargetsAre(site, links, queued);
    assert (links + [link])[..|links|] == links;
  }

  lemma TargetsSnoc(site: Site, links: seq<string>, link: string)
    ensures Targets(site, links + [link]) ==
            Targets(site, links) + (if site.crawlable(site.strip(link)) then {site.strip(link)} else {})
  {
    var all := links + [link];
    assert all[|links|] == link;
    forall u | u in Targets(site, links)
      ensures u in Targets(site, all)
    {
      var k :| 0 <= k < |links| && site.crawlable(site.strip(links[k])) && u == site.strip(links[k]);
      assert all[k] == links[k];
    }
    forall u | u in Targets(site, all)
      ensures u in Targets(site, links) || (site.crawlable(site.strip(link)) && u == site.strip(link))
    {
      var k :| 0 <= k < |all| && site.crawlable(site.strip(all[k])) && u == site.strip(all[k]);
      assert k < |links| ==> all[k] == links[k];
    }
  }

  lemma StillDistinct(entries: seq<Entry>, e: Entry)
    requires DistinctUrls(entries) && e.url !in Urls(entries)
    ensures DistinctUrls(entries + [e])
  {
    forall i | 0 <= i < |entries|
      ensures entries[i].url != e.url
    {
      assert entries[i] in entries;
    }
  }

  lemma UrlsSnoc(entries: seq<Entry>, e: Entry)
    ensures Urls(entries + [e]) == Urls(entries) + {e.url}
  {
  }

  lemma UrlsWithout(entries: seq<Entry>, k: nat)
    requires k < |entries| && DistinctUrls(entries)
    ensures DistinctUrls(entries[..k] + entries[k + 1..])
    ensures Urls(entries[..k] + entries[k + 1..]) == Urls(entries) - {entries[k].url}
  {
  }

  // ---------- the crawl ----------

  /** Everything ever queued is the home page, on the queue, in hand or scanned, each in one
      place; it is reachable; and the links of scanned pages have been queued. */
  ghost predicate Crawling(site: Site, follow: bool, seeds: seq<string>, queue: seq<Entry>, queued: set<string>,
                           batch: set<string>, scanned: seq<string>)
  {
    var done := set u | u in scanned;
    && DistinctUrls(queue)
    && (forall i, j :: 0 <= i < j < |scanned| ==> scanned[i] != scanned[j])
    && queued == {site.home} + Urls(queue) + batch + done
    && site.home !in Urls(queue) + batch + done
    && Urls(queue) !! batch !! done
    && Targets(site, seeds) <= queued
    && (forall u :: u in queued && u != site.home ==> Reachable(site, follow, seeds, u))
    && (forall u :: u in done ==> Successors(site, follow, u) <= queued)
  }

  /** Scanning u: it moves from the batch to the scanned pages, and its links are queued. */
  lemma ScanKeepsCrawling(site: Site, follow: bool, seeds: seq<string>, queue: seq<Entry>, queued: set<string>,
                          batch: set<string>, scanned: seq<string>, u: string, queue': seq<Entry>, queued': set<string>)
    requires Crawling(site, follow, seeds, queue, queued, batch, scanned) && u in batch
    requires queued' == queued + Successors(site, follow, u)
    requires DistinctUrls(queue') && Urls(queue') == Urls(queue) + (queued' - queued)
    ensures Crawling(site, follow, seeds, queue', queued', batch - {u}, scanned + [u])
  {
    var done, done' := set x | x in scanned, set x | x in scanned + [u];
    assert done' == done + {u};
    forall v | v in queued' && v != site.home
      ensures Reachable(site, follow, seeds, v)
    {
      if v !in queued {
        ReachFurther(site, follow, seeds, u, v);
      }
    }
  }

  lemma StartsCrawling(site: Site, follow: bool, seeds: seq<string>, queue: seq<Entry>, queued: set<string>)
    requires queued == {site.home} + Targets(site, seeds)
    requires DistinctUrls(queue) && Urls(queue) == queued - {site.home}
    ensures Crawling(site, follow, seeds, queue, queued, {}, [])
  {
    forall u | u in queued && u != site.home
      ensures Reachable(site, follow, seeds, u)
    {
      ReachSeed(site, follow, seeds, u);
    }
  }

  lemma EndsCrawling(site: Site, follow: bool, seeds: seq<string>, queued: set<string>, scanned: seq<string>)
    requires Crawling(site, follow, seeds, [], queued, {}, scanned)
    ensures forall u :: Reachable(site, follow, seeds, u) ==> u in scanned || u == site.home
  {
    forall u | Reachable(site, follow, seeds, u)
      ensures u in queued
    {
      var path :| IsPath(site, follow, seeds, path) && path[|path| - 1] == u;
      ClosedHoldsPath(site, follow, seeds, queued, path);
    }
  }

  /** One rank throughout, and in the order in which the entries were queued. */
  ghost predicate InLine(queue: seq<Entry>) {
    forall i, j :: 0 <= i < j < |queue| ==> queue[i].rank == queue[j].rank && queue[i].order < queue[j].order
  }

  /** Crawls from the seeds, at most `maxPages` pages, eight at a time.  Within a batch the pages
      arrive in any order.  `complete` says the queue ran empty; if not, the limit was reached. */
  method Run(site: Site, seeds: seq<string>, follow: bool, maxPages: nat)
      returns (scanned: seq<string>, complete: bool)
    // no page is scanned twice, nor is the home page, and no more than the limit
    ensures forall i, j :: 0 <= i < j < |scanned| ==> scanned[i] != scanned[j]
    ensures site.home !in scanned && |scanned| <= maxPages
    // only reachable pages are scanned, and unless the limit cut it short, all of them
    ensures forall u :: u in scanned ==> Reachable(site, follow, seeds, u) && site.crawlable(u)
    ensures complete ==> forall u :: Reachable(site, follow, seeds, u) ==> u in scanned || u == site.home
    ensures !complete ==> |scanned| == maxPages
    // where links are not followed, the pages are the first seeds
    ensures !follow ==> forall u :: u in scanned <==> u in Take(NewTargets(site, seeds, {site.home}), maxPages)
  {
    var f := Seeded(site, seeds, follow);
    ghost var first := f.queue;
    scanned := CrawlOn(f, seeds, maxPages);
    complete := f.queue == [];
    ScannedSoFar(site, follow, seeds, f.queue, f.queued, scanned);
    if complete {
      EndsCrawling(site, follow, seeds, f.queued, scanned);
    }
    if !follow {
      FirstSeeds(site, seeds, first, f.queue, scanned, maxPages);
    }
  }

  /** A frontier with the seeds on it. */
  method Seeded(site: Site, seeds: seq<string>, follow: bool) returns (f: Frontier)
    ensures fresh(f) && f.site == site && f.follow == follow
    ensures Crawling(site, follow, seeds, f.queue, f.queued, {}, [])
    ensures f.queue == EntriesFor(site, follow, NewTargets(site, seeds, {site.home}), 0)
    ensures !follow ==> InLine(f.queue)
  {
    f := new Frontier(site, follow);
    f.EnqueueAll(seeds);
    ghost var entries := EntriesFor(site, follow, NewTargets(site, seeds, {site.home}), 0);
    assert f.queue == [] + entries && [] + entries == entries;
    StartsCrawling(site, follow, seeds, f.queue, f.queued);
    EntriesInLine(site, NewTargets(site, seeds, {site.home}), 0);
  }

  lemma ScannedSoFar(site: Site, follow: bool, seeds: seq<string>, queue: seq<Entry>, queued: set<string>,
                     scanned: seq<string>)
    requires Crawling(site, follow, seeds, queue, queued, {}, scanned)
    ensures forall i, j :: 0 <= i < j < |scanned| ==> scanned[i] != scanned[j]
    ensures site.home !in scanned
    ensures forall u :: u in scanned ==> Reachable(site, follow, seeds, u) && site.crawlable(u)
  {
    var done := set u | u in scanned;
    assert site.home !in done;
    forall u | u in scanned
      ensures Reachable(site, follow, seeds, u) && site.crawlable(u)
    {
      assert u in done;
      ReachableIsCrawlable(site, follow, seeds, u);
    }
  }

  /** Batch after batch, until the queue is empty or the limit is reached. */
  method CrawlOn(f: Frontier, ghost seeds: seq<string>, maxPages: nat) returns (scanned: seq<string>)
    requires Crawling(f.site, f.follow, seeds, f.queue, f.queued, {}, [])
    modifies f
    ensures Crawling(f.site, f.follow, seeds, f.queue, f.queued, {}, scanned)
    ensures |scanned| <= maxPages && (f.queue != [] ==> |scanned| == maxPages)
    ensures !f.follow && InLine(old(f.queue)) ==> TakenInLine(old(f.queue), f.queue, scanned)
  {
    scanned := [];
    ghost var first := f.queue;
    while f.queue != [] && |scanned| < maxPages
      invariant Crawling(f.site, f.follow, seeds, f.queue, f.queued, {}, scanned)
      invariant |scanned| <= maxPages
      invariant !f.follow && InLine(first) ==> InLine(f.queue) && TakenInLine(first, f.queue, scanned)
      decreases maxPages - |scanned|
    {
      ghost var queue, before := f.queue, scanned;
      scanned := ScanNextBatch(f, seeds, scanned, maxPages);
      if !f.follow && InLine(first) {
        TakenOn(first, queue, before, f.queue, scanned);
      }
    }
  }

  /** The first entries have been scanned, in whatever order, and the others are queued. */
  ghost predicate TakenInLine(first: seq<Entry>, queue: seq<Entry>, scanned: seq<string>) {
    && |scanned| <= |first| && queue == first[|scanned|..]
    && forall u :: u in scanned <==> u in Urls(first[..|scanned|])
  }

  lemma UrlsConcat(a: seq<Entry>, b: seq<Entry>)
    ensures Urls(a + b) == Urls(a) + Urls(b)
  {
    assert forall e :: e in a + b <==> e in a || e in b;
  }

  lemma TakenOn(first: seq<Entry>, queue: seq<Entry>, before: seq<string>, queue': seq<Entry>, scanned: seq<string>)
    requires TakenInLine(first, queue, before) && |before| <= |scanned|
    requires HeadTaken(queue, queue', |scanned| - |before|, before, scanned)
    ensures TakenInLine(first, queue', scanned)
  {
    var n := |scanned| - |before|;
    assert first[..|scanned|] == first[..|before|] + queue[..n];
    UrlsConcat(first[..|before|], queue[..n]);
  }

  lemma EntriesInLine(site: Site, urls: seq<string>, counter: nat)
    ensures InLine(EntriesFor(site, false, urls, counter))
  {
  }

  lemma FirstSeeds(site: Site, seeds: seq<string>, first: seq<Entry>, queue: seq<Entry>, scanned: seq<string>,
                   maxPages: nat)
    requires first == EntriesFor(site, false, NewTargets(site, seeds, {site.home}), 0)
    requires TakenInLine(first, queue, scanned) && |scanned| <= maxPages
    requires queue != [] ==> |scanned| == maxPages
    ensures forall u :: u in scanned <==> u in Take(NewTargets(site, seeds, {site.home}), maxPages)
  {
    var wanted := NewTargets(site, seeds, {site.home});
    assert Take(wanted, maxPages) == wanted[..|scanned|];
    forall u
      ensures u in Urls(first[..|scanned|]) <==> u in wanted[..|scanned|]
    {
      if u in Urls(first[..|scanned|]) {
        var e :| e in first[..|scanned|] && e.url == u;
        var i :| 0 <= i < |scanned| && first[i] == e;
        assert wanted[..|scanned|][i] == u;
      }
      if u in wanted[..|scanned|] {
        var i :| 0 <= i < |scanned| && wanted[i] == u;
        assert first[..|scanned|][i].url == u;
      }
    }
  }

  method ScanNextBatch(f: Frontier, ghost seeds: seq<string>, before: seq<string>, maxPages: nat)
      returns (scanned: seq<string>)
    requires f.queue != [] && |before| < maxPages
    requires Crawling(f.site, f.follow, seeds, f.queue, f.queued, {}, before)
    modifies f
    ensures Crawling(f.site, f.follow, seeds, f.queue, f.queued, {}, scanned)
    ensures |before| < |scanned| <= maxPages && |scanned| <= |before| + 8
    // no page scanned now ranks behind a queued one that is not, or was queued after one of its rank
    ensures forall t, e :: t in old(f.queue) && e in old(f.queue) && t.url in scanned && e.url !in scanned ==>
              t.rank <= e.rank && (t.rank == e.rank ==> t.order <= e.order)
    // where links are not followed, the batch is the head of a queue in line
    ensures !f.follow && InLine(old(f.queue)) ==>
              HeadTaken(old(f.queue), f.queue, |scanned| - |before|, before, scanned)
  {
    var size := if |f.queue| < 8 then |f.queue| else 8;
    if maxPages - |before| < size {
      size := maxPages - |before|;
    }
    scanned := ScanSome(f, seeds, before, size);
  }

  method ScanSome(f: Frontier, ghost seeds: seq<string>, before: seq<string>, size: nat) returns (scanned: seq<string>)
    requires size <= |f.queue| && Crawling(f.site, f.follow, seeds, f.queue, f.queued, {}, before)
    modifies f
    ensures Crawling(f.site, f.follow, seeds, f.queue, f.queued, {}, scanned) && |scanned| == |before| + size
    ensures forall t, e :: t in old(f.queue) && e in old(f.queue) && t.url in scanned && e.url !in scanned ==>
              t.rank <= e.rank && (t.rank == e.rank ==> t.order <= e.order)
    ensures !f.follow && InLine(old(f.queue)) ==> HeadTaken(old(f.queue), f.queue, size, before, scanned)
  {
    ghost var queue := f.queue;
    var batch := TakeBatch(f, size);
    TakingKeepsCrawling(f.site, f.follow, seeds, queue, f.queued, before, f.queue, batch);
    scanned := ScanBatch(f, seeds, batch, before);
    BestAreScanned(queue, batch, before, scanned);
  }

  /** The first `size` entries have been scanned, and the others are queued. */
  ghost predicate HeadTaken(queue: seq<Entry>, queue': seq<Entry>, size: nat, before: seq<string>,
                            scanned: seq<string>)
  {
    && size <= |queue| && queue' == queue[size..] && |scanned| == |before| + size
    && forall u :: u in scanned <==> u in before || u in Urls(queue[..size])
  }

  lemma TakingKeepsCrawling(site: Site, follow: bool, seeds: seq<string>, queue: seq<Entry>, queued: set<string>,
                            scanned: seq<string>, queue': seq<Entry>, batch: set<string>)
    requires Crawling(site, follow, seeds, queue, queued, {}, scanned)
    requires batch <= Urls(queue) && DistinctUrls(queue') && Urls(queue') == Urls(queue) - batch
    ensures Crawling(site, follow, seeds, queue', queued, batch, scanned)
    ensures forall e :: e in queue ==> e.url !in scanned
  {
    assert forall e :: e in queue ==> e.url in Urls(queue);
  }

  /** Of what was queued, the batch has been scanned, and nothing else. */
  lemma BestAreScanned(queue: seq<Entry>, batch: set<string>, before: seq<string>, scanned: seq<string>)
    requires NoneBehind(queue, batch) && NowScanned(before, batch, scanned)
    requires forall e :: e in queue ==> e.url !in before
    ensures forall t, e :: t in queue && e in queue && t.url in scanned && e.url !in scanned ==>
              t.rank <= e.rank && (t.rank == e.rank ==> t.order <= e.order)
  {
  }

  /** No entry in the batch ranks behind one that is not, or was queued after one of its rank. */
  ghost predicate NoneBehind(queue: seq<Entry>, batch: set<string>) {
    forall t, e :: t in queue && e in queue && t.url in batch && e.url !in batch ==>
      t.rank <= e.rank && (t.rank == e.rank ==> t.order <= e.order)
  }

  /** Takes the next entries off the queue. */
  method TakeBatch(f: Frontier, size: nat) returns (batch: set<string>)
    requires size <= |f.queue| && DistinctUrls(f.queue)
    modifies f`queue
    ensures |batch| == size && batch <= Urls(old(f.queue))
    ensures DistinctUrls(f.queue) && Urls(f.queue) == Urls(old(f.queue)) - batch
    ensures NoneBehind(old(f.queue), batch)
    ensures InLine(old(f.queue)) ==> LineTaken(old(f.queue), f.queue, batch, size)
  {
    batch := {};
    ghost var whole := f.queue;
    for n := 0 to size
      invariant |batch| == n && |f.queue| == |whole| - n
      invariant Taken(whole, f.queue, batch)
      invariant InLine(whole) ==> LineTaken(whole, f.queue, batch, n)
    {
      ghost var queue := f.queue;
      var url, k := f.Pop();
      TakenOne(whole, queue, batch, k);
      if InLine(whole) {
        HeadOfLine(whole, queue, batch, n, k);
      }
      batch := batch + {url};
    }
    TakenAreBest(whole, f.queue, batch);
  }

  ghost predicate LineTaken(whole: seq<Entry>, queue: seq<Entry>, batch: set<string>, n: nat) {
    n <= |whole| && queue == whole[n..] && batch == Urls(whole[..n])
  }

  lemma TakenAreBest(whole: seq<Entry>, queue: seq<Entry>, batch: set<string>)
    requires Taken(whole, queue, batch)
    ensures NoneBehind(whole, batch)
  {
  }

  /** Taken entries are no later than those left, which with them make up the whole. */
  ghost predicate Taken(whole: seq<Entry>, queue: seq<Entry>, batch: set<string>) {
    && DistinctUrls(whole) && DistinctUrls(queue)
    && batch <= Urls(whole) && Urls(queue) == Urls(whole) - batch
    && (forall e :: e in whole && e.url !in batch ==> e in queue)
    && (forall e :: e in queue ==> e in whole)
    && forall t, e :: t in whole && t.url in batch && e in queue ==>
         t.rank <= e.rank && (t.rank == e.rank ==> t.order <= e.order)
  }

  lemma OnlyOneWithUrl(entries: seq<Entry>, a: Entry, b: Entry)
    requires DistinctUrls(entries) && a in entries && b in entries && a.url == b.url
    ensures a == b
  {
  }

  lemma Without(queue: seq<Entry>, k: nat)
    requires k < |queue|
    ensures forall e :: e in queue[..k] + queue[k + 1..] ==> e in queue
    ensures forall e :: e in queue && e != queue[k] ==> e in queue[..k] + queue[k + 1..]
  {
    var rest := queue[..k] + queue[k + 1..];
    forall e | e in queue && e != queue[k]
      ensures e in rest
    {
      var i :| 0 <= i < |queue| && queue[i] == e;
      assert rest[if i < k then i else i - 1] == e;
    }
  }

  lemma TakenOne(whole: seq<Entry>, queue: seq<Entry>, batch: set<string>, k: nat)
    requires Taken(whole, queue, batch) && k < |queue|
    requires forall j :: 0 <= j < |queue| ==>
               queue[k].rank <= queue[j].rank && (queue[k].rank == queue[j].rank ==> queue[k].order <= queue[j].order)
    ensures queue[k].url !in batch
    ensures Taken(whole, queue[..k] + queue[k + 1..], batch + {queue[k].url})
  {
    var rest := queue[..k] + queue[k + 1..];
    UrlsWithout(queue, k);
    Without(queue, k);
    assert queue[k] in queue;
    forall t, e | t in whole && t.url in batch + {queue[k].url} && e in rest
      ensures t.rank <= e.rank && (t.rank == e.rank ==> t.order <= e.order)
    {
      if t.url == queue[k].url {
        OnlyOneWithUrl(whole, t, queue[k]);
        var j :| 0 <= j < |queue| && queue[j] == e;
      }
    }
  }

  lemma HeadOfLine(whole: seq<Entry>, queue: seq<Entry>, batch: set<string>, n: nat, k: nat)
    requires InLine(whole) && LineTaken(whole, queue, batch, n) && k < |queue|
    requires queue[k].rank == queue[0].rank ==> queue[k].order <= queue[0].order
    ensures k == 0 && LineTaken(whole, queue[..k] + queue[k + 1..], batch + {queue[k].url}, n + 1)
  {
    UrlsSnoc(whole[..n], whole[n]);
    assert whole[..n + 1] == whole[..n] + [whole[n]];
  }

  /** Scanned now are the pages scanned before and these. */
  ghost predicate NowScanned(before: seq<string>, batch: set<string>, scanned: seq<string>) {
    |scanned| == |before| + |batch| && forall u :: u in scanned <==> u in before || u in batch
  }

  lemma ScannedOneMore(before: seq<string>, batch: set<string>, u: string, scanned: seq<string>)
    requires u in batch && NowScanned(before + [u], batch - {u}, scanned)
    ensures NowScanned(before, batch, scanned)
  {
  }

  /** Scans a batch; its pages arrive in any order. */
  method ScanBatch(f: Frontier, ghost seeds: seq<string>, batch: set<string>, before: seq<string>)
      returns (scanned: seq<string>)
    requires Crawling(f.site, f.follow, seeds, f.queue, f.queued, batch, before)
    modifies f
    ensures Crawling(f.site, f.follow, seeds, f.queue, f.queued, {}, scanned)
    ensures NowScanned(before, batch, scanned)
    ensures !f.follow ==> f.queue == old(f.queue)
    decreases |batch|
  {
    if batch == {} {
      return before;
    }
    var u :| u in batch;
    ScanOne(f, seeds, batch, before, u);
    scanned := ScanBatch(f, seeds, batch - {u}, before + [u]);
    ScannedOneMore(before, batch, u, scanned);
  }

  method ScanOne(f: Frontier, ghost seeds: seq<string>, ghost batch: set<string>, ghost scanned: seq<string>, u: string)
    requires Crawling(f.site, f.follow, seeds, f.queue, f.queued, batch, scanned) && u in batch
    modifies f
    ensures Crawling(f.site, f.follow, seeds, f.queue, f.queued, batch - {u}, scanned + [u])
    ensures !f.follow ==> f.queue == old(f.queue)
  {
    ghost var queue, queued := f.queue, f.queued;
    Scan(f, u);
    ScanKeepsCrawling(f.site, f.follow, seeds, queue, queued, batch, scanned, u, f.queue, f.queued);
  }

  /** Reads one page and queues its links, when links are followed at all. */
  method Scan(f: Frontier, url: string)
    requires DistinctUrls(f.queue) && Urls(f.queue) <= f.queued
    modifies f
    ensures f.queued == old(f.queued) + Successors(f.site, f.follow, url)
    ensures DistinctUrls(f.queue) && Urls(f.queue) == Urls(old(f.queue)) + (f.queued - old(f.queued))
    ensures !f.follow ==> f.queue == old(f.queue)
  {
    var page := f.site.page(url);
    if page.Some? && f.follow {
      f.EnqueueAll(page.value);
    }
  }
}
