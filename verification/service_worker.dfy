/**
 * The offline cache manager: the install, activate and fetch handlers of the
 * service worker, each a pure step from the cache storage (and the outcome
 * of the network) to the new cache storage and what the handler produced.
 */
module ServiceWorker {
  import opened Wrappers
  import opened Sorting

  type Url = string

  /** The `type` attribute of a fetched response. */
  datatype ResponseType = Basic | Cors | Default | Error | Opaque | OpaqueRedirect

  datatype Response = Response(status: int, kind: ResponseType, body: string)

  /** A request as the fetch event carries it; `httpMethod` is its `method` and `mode` is e.g. "navigate" or "cors". */
  datatype Request = Request(url: Url, httpMethod: string, mode: string)

  /** One cache generation: request URL to stored response. */
  type Generation = map<Url, Response>

  /** Cache storage: generation name to generation. */
  type Store = map<string, Generation>

  /** What one call of `fetch` produced: a response, or a rejected promise. */
  datatype NetOutcome = Delivered(response: Response) | NetworkError

  /** The version string naming the current generation. */
  const CacheName: string := "safelease-ar-v1.0"

  /** The asset manifest pre-fetched on install. */
  const Assets: seq<Url> := [
    "./",
    "./index.html",
    "./manifest.json",
    "./public/css/app.css",
    "./src/app.js",
    "./src/ar.js",
    "./src/checklist.json",
    "./public/icons/icon-192.png",
    "./public/icons/icon-512.png",
    "https://cdn.jsdelivr.net/npm/jspdf@2.5.1/dist/jspdf.umd.min.js"
  ]

  /** The document served to an offline navigation. */
  const IndexUrl: Url := "./index.html"

  /** `caches.open(CacheName)`: the current generation exists afterwards, created empty if it was absent. */
  function Open(store: Store): (r: Store)
    ensures r.Keys == store.Keys + {CacheName}
    ensures forall n :: n in store ==> r[n] == store[n]
    ensures CacheName !in store ==> r[CacheName] == map[]
  {
    if CacheName in store then store else store[CacheName := map[]]
  }

  // ---------------------------------------------------------------- install

  /**
   * The responses `cache.addAll` accepts: a delivered response whose status is
   * ok (200-299) and not 206 Partial Content.
   */
  predicate AddAllAccepts(o: NetOutcome) {
    o.Delivered? && 200 <= o.response.status <= 299 && o.response.status != 206
  }

  /** The writes of an `addAll` batch whose responses were all accepted, in list order. */
  function WriteAll(gen: Generation, urls: seq<Url>, fetch: Url -> NetOutcome): (r: Option<Generation>)
    ensures r.Some? <==> forall i :: 0 <= i < |urls| ==> AddAllAccepts(fetch(urls[i]))
    ensures r.Some? ==> r.value.Keys == gen.Keys + set u | u in urls
    ensures r.Some? ==> forall u :: u in urls ==> r.value[u] == fetch(u).response
    ensures r.Some? ==> forall u :: u in gen && u !in urls ==> r.value[u] == gen[u]
    decreases |urls|
  {
    if |urls| == 0 then Some(gen)
    else if !AddAllAccepts(fetch(urls[0])) then None
    else
      var rest := WriteAll(gen[urls[0] := fetch(urls[0]).response], urls[1..], fetch);
      assert forall u :: u in urls <==> u == urls[0] || u in urls[1..];
      assert forall i :: 0 < i < |urls| ==> urls[i] == urls[1..][i - 1];
      rest
  }

  /**
   * `cache.addAll(urls)`: fetches every URL; if every response is accepted and
   * no request is named twice (the batch would otherwise fail with
   * InvalidStateError) all of them are written, otherwise nothing is written
   * and the call fails.
   */
  function AddAll(gen: Generation, urls: seq<Url>, fetch: Url -> NetOutcome): (r: Option<Generation>)
    ensures r.Some? <==> Distinct(urls) && forall i :: 0 <= i < |urls| ==> AddAllAccepts(fetch(urls[i]))
    ensures r.Some? ==> r.value.Keys == gen.Keys + set u | u in urls
    ensures r.Some? ==> forall u :: u in urls ==> r.value[u] == fetch(u).response
    ensures r.Some? ==> forall u :: u in gen && u !in urls ==> r.value[u] == gen[u]
  {
    if !Distinct(urls) then None else WriteAll(gen, urls, fetch)
  }

  /** The manifest names no URL twice. */
  lemma AssetsDistinct()
    ensures Distinct(Assets)
  {
  }

  datatype Outcome = Completed | Failed

  /**
   * The result of the install handler: the storage afterwards, whether the
   * `waitUntil` promise completed, and whether `skipWaiting` was called.
   */
  datatype InstallStep = InstallStep(store: Store, outcome: Outcome, skippedWaiting: bool)

  /**
   * Opens the current generation and adds `urls` to it with `addAll`: the
   * install handler's body for an arbitrary manifest.
   */
  function Populate(store: Store, urls: seq<Url>, fetch: Url -> NetOutcome): (r: InstallStep)
    ensures r.skippedWaiting
    ensures r.outcome == Completed <==> Distinct(urls) && forall i :: 0 <= i < |urls| ==> AddAllAccepts(fetch(urls[i]))
    ensures r.store.Keys == store.Keys + {CacheName}
    ensures forall n :: n in store && n != CacheName ==> r.store[n] == store[n]
    ensures r.outcome == Completed ==>
      r.store[CacheName].Keys == Open(store)[CacheName].Keys + set u | u in urls
    ensures r.outcome == Completed ==>
      forall u :: u in urls ==> u in r.store[CacheName] && r.store[CacheName][u] == fetch(u).response
    ensures r.outcome == Completed && CacheName in store ==>
      forall u :: u in store[CacheName] && u !in urls ==> u in r.store[CacheName] && r.store[CacheName][u] == store[CacheName][u]
    ensures r.outcome == Failed ==> r.store == Open(store)
  {
    var current := Open(store);
    match AddAll(current[CacheName], urls, fetch)
    case Some(gen) => InstallStep(current[CacheName := gen], Completed, true)
    case None => InstallStep(current, Failed, true)
  }

  /** The install handler. `fetch` gives the network's answer for each asset URL. */
  function Install(store: Store, fetch: Url -> NetOutcome): (r: InstallStep)
    ensures r.skippedWaiting
    ensures r.outcome == Completed <==> forall i :: 0 <= i < |Assets| ==> AddAllAccepts(fetch(Assets[i]))
    ensures r.store.Keys == store.Keys + {CacheName}
    ensures forall n :: n in store && n != CacheName ==> r.store[n] == store[n]
    ensures r.outcome == Completed ==>
      r.store[CacheName].Keys == Open(store)[CacheName].Keys + set u | u in Assets
    ensures r.outcome == Completed ==>
      forall u :: u in Assets ==> u in r.store[CacheName] && r.store[CacheName][u] == fetch(u).response
    ensures r.outcome == Completed && CacheName in store ==>
      forall u :: u in store[CacheName] && u !in Assets ==> u in r.store[CacheName] && r.store[CacheName][u] == store[CacheName][u]
    ensures r.outcome == Failed ==> r.store == Open(store)
  {
    AssetsDistinct();
    Populate(store, Assets, fetch)
  }

  // --------------------------------------------------------------- activate

  /** Generation names other than the current one. */
  function StaleNames(store: Store): (r: set<string>)
    ensures forall n :: n in r <==> n in store && n != CacheName
  {
    set n | n in store && n != CacheName
  }

  /**
   * The result of the activate handler: the storage afterwards and whether
   * `clients.claim()` was reached.
   */
  datatype ActivateStep = ActivateStep(store: Store, claimed: bool)

  /**
   * The activate handler. Every stale generation is deleted concurrently;
   * `deleteSucceeds(n)` says whether `caches.delete(n)` resolved. The claim
   * runs only after `Promise.all` over the deletions resolved, so a single
   * rejected deletion skips it (the other deletions still take effect).
   */
  function Activate(store: Store, deleteSucceeds: string -> bool): (r: ActivateStep)
    ensures forall n :: n in r.store <==> n in store && (n == CacheName || !deleteSucceeds(n))
    ensures forall n :: n in r.store ==> r.store[n] == store[n]
    ensures r.claimed <==> forall n :: n in store && n != CacheName ==> deleteSucceeds(n)
    ensures r.claimed ==> r.store.Keys == store.Keys * {CacheName}
  {
    var removed := set n | n in StaleNames(store) && deleteSucceeds(n);
    var kept := map n | n in store && n !in removed :: store[n];
    ActivateStep(kept, forall n :: n in StaleNames(store) ==> deleteSucceeds(n))
  }

  // ------------------------------------------------------------------ fetch

  /**
   * Write-through applies exactly to a 200 response of type "basic": narrower
   * than what `addAll` accepts, so cross-origin, opaque and error responses
   * and other ok statuses (204, say) are served but never stored.
   */
  function Cacheable(res: Response): (b: bool)
    ensures res.status == 200 && res.kind == Basic ==> b
    ensures res.kind != Basic ==> !b
    ensures 200 < res.status <= 299 ==> !b
    ensures b ==> AddAllAccepts(Delivered(res))
  {
    res.status == 200 && res.kind == Basic
  }

  /**
   * What `respondWith` eventually settles to: a response, `undefined` (the
   * fallback document was never cached), or the rethrown network failure.
   */
  datatype Reply = Served(response: Response) | NothingCached | Propagated

  /** Whether the handler called `respondWith` at all. */
  datatype Handling = PassThrough | Responded(reply: Reply)

  /** The result of the fetch handler, with whether the network was consulted. */
  datatype FetchStep = FetchStep(store: Store, handling: Handling, consultedNetwork: bool)

  /**
   * The fetch handler. `net` is what `fetch(req)` would produce; it is used
   * only when the handler goes to the network.
   */
  function HandleFetch(store: Store, req: Request, net: NetOutcome): (r: FetchStep)
    // Only GET requests are intercepted; anything else is left to the browser.
    ensures req.httpMethod != "GET" <==> r.handling == PassThrough
    ensures req.httpMethod != "GET" ==> r.store == store && !r.consultedNetwork
    // The current generation exists afterwards; no other generation is touched.
    ensures req.httpMethod == "GET" ==> r.store.Keys == store.Keys + {CacheName}
    ensures forall n :: n in store && n != CacheName ==> r.store[n] == store[n]
    // Cache first: a hit is served without the network and changes nothing.
    ensures req.httpMethod == "GET" && CacheName in store && req.url in store[CacheName] ==>
      r == FetchStep(store, Responded(Served(store[CacheName][req.url])), false)
    // A miss consults the network exactly once.
    ensures req.httpMethod == "GET" && !(CacheName in store && req.url in store[CacheName]) ==> r.consultedNetwork
    // On a miss the caller gets the network response itself; only a cacheable one is written.
    ensures req.httpMethod == "GET" && !(CacheName in store && req.url in store[CacheName]) && net.Delivered? ==>
      && r.handling == Responded(Served(net.response))
      && (Cacheable(net.response) ==> r.store == Open(store)[CacheName := Open(store)[CacheName][req.url := net.response]])
      && (!Cacheable(net.response) ==> r.store == Open(store))
    // On a network failure nothing is written; only a navigation falls back to the index page.
    ensures req.httpMethod == "GET" && !(CacheName in store && req.url in store[CacheName]) && net.NetworkError? ==>
      && r.store == Open(store)
      && (req.mode != "navigate" ==> r.handling == Responded(Propagated))
      && (req.mode == "navigate" && CacheName in store && IndexUrl in store[CacheName] ==>
            r.handling == Responded(Served(store[CacheName][IndexUrl])))
      && (req.mode == "navigate" && !(CacheName in store && IndexUrl in store[CacheName]) ==>
            r.handling == Responded(NothingCached))
  {
    if req.httpMethod != "GET" then
      FetchStep(store, PassThrough, false)
    else
      var current := Open(store);
      var gen := current[CacheName];
      if req.url in gen then
        FetchStep(current, Responded(Served(gen[req.url])), false)
      else
        match net
        case Delivered(res) =>
          var gen' := if Cacheable(res) then gen[req.url := res] else gen;
          FetchStep(current[CacheName := gen'], Responded(Served(res)), true)
        case NetworkError =>
          var reply :=
            if req.mode == "navigate" then
              (if IndexUrl in gen then Served(gen[IndexUrl]) else NothingCached)
            else Propagated;
          FetchStep(current, Responded(reply), true)
  }
}
