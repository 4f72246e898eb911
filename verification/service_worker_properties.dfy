/**
 * Properties of the offline cache manager that relate several handler calls:
 * repeated requests, write-through followed by a hit, install followed by
 * activation, and offline behaviour afterwards.
 */
module ServiceWorkerProperties {
  import opened ServiceWorker

  /** The current generation holds an entry for `url`. */
  predicate Cached(store: Store, url: Url) {
    CacheName in store && url in store[CacheName]
  }

  /** A cache hit does not depend on what the network would have answered. */
  lemma CacheHitIgnoresNetwork(store: Store, req: Request, n1: NetOutcome, n2: NetOutcome)
    requires req.httpMethod == "GET" && Cached(store, req.url)
    ensures HandleFetch(store, req, n1) == HandleFetch(store, req, n2)
    ensures !HandleFetch(store, req, n1).consultedNetwork
  {
  }

  /** Repeating a request that hits serves the same response again and changes nothing. */
  lemma RepeatedHitIsStable(store: Store, req: Request, n1: NetOutcome, n2: NetOutcome)
    requires req.httpMethod == "GET" && Cached(store, req.url)
    ensures HandleFetch(HandleFetch(store, req, n1).store, req, n2) == HandleFetch(store, req, n1)
  {
  }

  /**
   * A 200 "basic" network response written through on a miss is what the next
   * identical request is served, from the cache, whatever the network does then.
   */
  lemma WriteThroughThenHit(store: Store, req: Request, res: Response, later: NetOutcome)
    requires req.httpMethod == "GET" && !Cached(store, req.url)
    requires res.status == 200 && res.kind == Basic
    ensures var first := HandleFetch(store, req, Delivered(res));
      && first.handling == Responded(Served(res))
      && HandleFetch(first.store, req, later) == FetchStep(first.store, Responded(Served(res)), false)
  {
  }

  /**
   * A response that is not a 200 "basic" one (a 404, or an opaque or cross-origin 200)
   * is handed to the caller but the next identical request misses again.
   */
  lemma UncacheableIsNotStored(store: Store, req: Request, res: Response, later: NetOutcome)
    requires req.httpMethod == "GET" && !Cached(store, req.url)
    requires res.status != 200 || res.kind != Basic
    ensures var first := HandleFetch(store, req, Delivered(res));
      && first.handling == Responded(Served(res))
      && !Cached(first.store, req.url)
      && HandleFetch(first.store, req, later).consultedNetwork
  {
  }

  /**
   * Offline, a navigation to an uncached page falls back to the cached index
   * page, while any other request to it propagates the network failure.
   */
  lemma NavigationFallback(store: Store, url: Url, mode: string)
    requires Cached(store, IndexUrl) && !Cached(store, url)
    ensures HandleFetch(store, Request(url, "GET", "navigate"), NetworkError).handling
      == Responded(Served(store[CacheName][IndexUrl]))
    ensures mode != "navigate" ==>
      HandleFetch(store, Request(url, "GET", mode), NetworkError).handling == Responded(Propagated)
  {
  }

  /** A POST, or any other non-GET request, is never intercepted, whatever the cache holds. */
  lemma NonGetNeverIntercepted(store: Store, req: Request, net: NetOutcome)
    requires req.httpMethod != "GET"
    ensures HandleFetch(store, req, net) == FetchStep(store, PassThrough, false)
  {
  }

  /** When every deletion resolves, activation leaves at most the current generation and claims. */
  lemma ActivateRetiresEveryStaleGeneration(store: Store)
    ensures var r := Activate(store, n => true);
      && r.claimed
      && r.store.Keys == store.Keys * {CacheName}
      && |r.store| <= 1
      && (CacheName in store ==> r.store == map[CacheName := store[CacheName]])
  {
    var r := Activate(store, n => true);
    if CacheName in store {
      assert r.store.Keys == {CacheName};
      assert r.store == map[CacheName := store[CacheName]];
    } else {
      assert r.store.Keys == {};
    }
  }

  /** A second activation after a fully successful one changes nothing. */
  lemma ActivateIdempotent(store: Store, deleteSucceeds: string -> bool)
    requires Activate(store, deleteSucceeds).claimed
    ensures var once := Activate(store, deleteSucceeds).store;
      Activate(once, deleteSucceeds) == ActivateStep(once, true)
  {
  }

  /** Adding the same manifest twice with the same answers leaves what adding it once left. */
  lemma PopulateTwiceIsPopulateOnce(store: Store, urls: seq<Url>, fetch: Url -> NetOutcome)
    requires Populate(store, urls, fetch).outcome == Completed
    ensures var once := Populate(store, urls, fetch);
      Populate(once.store, urls, fetch) == once
  {
    var once := Populate(store, urls, fetch);
    var twice := Populate(once.store, urls, fetch);
    var g1 := once.store[CacheName];
    var g2 := twice.store[CacheName];
    assert g2.Keys == g1.Keys;
    assert g2 == g1;
    assert twice.store == once.store;
  }

  /**
   * Re-running a successful install with the same network answers is a
   * harmless refresh: the storage is what one install left.
   */
  lemma InstallTwiceIsInstallOnce(store: Store, fetch: Url -> NetOutcome)
    requires forall u :: u in Assets ==> AddAllAccepts(fetch(u))
    ensures var once := Install(store, fetch);
      Install(once.store, fetch) == once
  {
    PopulateTwiceIsPopulateOnce(store, Assets, fetch);
  }

  /**
   * After a successful install and a fully successful activation, every
   * asset in the manifest is served from the cache with the network down,
   * for a navigation or any other GET.
   */
  lemma InstalledAssetsServedOffline(store: Store, fetch: Url -> NetOutcome, url: Url, mode: string)
    requires forall u :: u in Assets ==> AddAllAccepts(fetch(u))
    requires url in Assets
    ensures var ready := Activate(Install(store, fetch).store, n => true).store;
      HandleFetch(ready, Request(url, "GET", mode), NetworkError)
        == FetchStep(ready, Responded(Served(fetch(url).response)), false)
  {
  }

  /**
   * The lifecycle scenario: manifest `./index.html` and `./app.css`, a stale
   * generation `safelease-ar-v0.9`; after install and activation only the new
   * generation remains, holding exactly the two manifest entries.
   */
  lemma InstallActivateScenario(stale: Generation, page: Response, css: Response)
    requires 200 <= page.status <= 299 && page.status != 206
    requires 200 <= css.status <= 299 && css.status != 206
    ensures var fetch := (u: Url) => if u == "./app.css" then Delivered(css) else Delivered(page);
      var installed := Populate(map["safelease-ar-v0.9" := stale], ["./index.html", "./app.css"], fetch);
      var ready := Activate(installed.store, n => true);
      && installed.outcome == Completed
      && ready.claimed
      && ready.store.Keys == {CacheName}
      && ready.store[CacheName] == map["./index.html" := page, "./app.css" := css]
  {
  }
}
