# SafeLease-AR offline cache and checklist bookkeeping, in Dafny

SafeLease-AR is a browser inspection tool. The user fills in a checklist, captures
canvas snapshots during an AR session, and exports a PDF report. This project models
two parts of it as pure functions over immutable values and proves properties of them.

1. **The offline cache manager** (`frontend/service-worker.js`). Cache storage is a
   map from generation name to a generation, which maps a request URL to a stored
   response. The three event handlers are steps from the storage and the network's
   answers to the new storage and the handler's result:
   - **Install** opens the generation named `safelease-ar-v1.0` and adds the ten-entry
     asset manifest with all-or-nothing `addAll`. It always calls `skipWaiting`.
   - **Activate** deletes every other generation and claims the clients after all
     deletions resolved.
   - **Fetch** passes non-GET requests through. It serves a cached response first.
     On a miss it goes to the network and writes through only a 200 `basic` response.
     If the network fails, a navigation falls back to the cached `./index.html`; any
     other request rethrows.
2. **The page script's bookkeeping** (`frontend/src/app.js`):
   - sorting rooms by name and items by id;
   - the map of checked items and the sorted list of checked ids;
   - the 500 ms capture throttle;
   - the guards and append of a photo capture (cap of 24);
   - the unit choice of `bytesHuman`;
   - the PDF size estimate;
   - the flattened checklist text and the 16-hex-digit rendering of its digest.

Modules:

- `Wrappers`: `Option`.
- `StringOrder`: the text order used for sorting. It is lexicographic by character and
  proved to be a total order.
- `Sorting`: a stable insertion sort by a string key, plus permutation lemmas.
- `ServiceWorker`: the handlers.
- `ServiceWorkerProperties`: properties that relate several handler calls.
- `Checklist`: sortRooms, checks, getCheckedItems, flatten.
- `Capture`: throttle, capture, bytesHuman, estimatePdfSize.
- `ChecklistHash`: the hex rendering.

Three consequences of the code that the model makes explicit:

- **Failed install.** `cache.addAll` fetches every asset before writing any, so a
  failed install writes nothing. The current generation stays as `caches.open` left it:
  empty if it was just created, otherwise unchanged.
- **Claiming clients.** The activate handler awaits `Promise.all` over the deletions.
  A single rejected deletion therefore skips `clients.claim()`, while the other
  deletions still take effect.
- **Creating the current generation.** The fetch handler calls `caches.open` on every
  GET, which creates the current generation if it is absent. The storage is left
  exactly as it was only when that generation already exists. In every case the other
  generations are untouched.

## Model

| member | source | states |
|---|---|---|
| ServiceWorker.Open | frontend/service-worker.js:35 | after `caches.open` the current generation exists, created empty only when it was absent; every existing generation is kept as it was |
| ServiceWorker.AddAll | frontend/service-worker.js:19 | `addAll` succeeds iff no URL is listed twice and every URL's fetch delivers an ok (200-299, not 206) response; on success the generation's keys are its old keys plus the URLs, every URL is stored with its fetched response and every other entry is kept; on failure nothing is written |
| ServiceWorker.Populate | frontend/service-worker.js:17-20 | the install body for any manifest: it completes iff the manifest has no duplicate and every fetch is accepted; on completion the current generation holds exactly its previous entries plus the manifest URLs, each manifest URL with its fetched response and every other entry unchanged; on failure the storage is only the opened one; other generations are untouched; `skipWaiting` is always called |
| ServiceWorker.Install | frontend/service-worker.js:1-21 | with the fixed ten-entry manifest (which has no duplicate): install completes iff all ten assets are accepted, and then the generation `safelease-ar-v1.0` holds exactly its previous entries plus the ten assets, each asset with its fetched response and every earlier entry kept; a single failing asset fails the install and writes nothing; other generations are untouched; `skipWaiting` is always called |
| ServiceWorker.Activate | frontend/service-worker.js:23-29 | a generation survives iff it is the current one or its deletion failed; survivors keep their entries; clients are claimed iff every stale deletion resolved, and then only the current generation can remain |
| ServiceWorker.Cacheable | frontend/service-worker.js:40 | a response is written through iff its status is 200 and its type is `basic`: every other type and every other ok status (204, say) is refused, and whatever is written through `addAll` would also accept |
| ServiceWorker.HandleFetch | frontend/service-worker.js:31-52 | non-GET is not intercepted and changes nothing; a hit is served from the cache without the network and changes nothing; a miss consults the network; a delivered response is returned and stored iff it is a 200 `basic` response; a network failure writes nothing, falls back to the cached index page (or nothing) for a navigation and rethrows otherwise |
| ServiceWorkerProperties.CacheHitIgnoresNetwork | frontend/service-worker.js:35-37 | on a hit the result is the same whatever the network would answer, and the network is not consulted |
| ServiceWorkerProperties.RepeatedHitIsStable | frontend/service-worker.js:35-37 | repeating a request that hits returns the identical step again |
| ServiceWorkerProperties.WriteThroughThenHit | frontend/service-worker.js:39-43 | a 200 `basic` response fetched on a miss is returned and then served from the cache to the next identical request, whatever the network does |
| ServiceWorkerProperties.UncacheableIsNotStored | frontend/service-worker.js:40-43 | a non-200 or non-basic response is returned to the caller, but the next identical request still misses and goes to the network |
| ServiceWorkerProperties.NavigationFallback | frontend/service-worker.js:44-50 | offline, a navigation to an uncached URL gets the cached `./index.html`; any other mode gets the failure propagated |
| ServiceWorkerProperties.NonGetNeverIntercepted | frontend/service-worker.js:32-33 | a non-GET request is passed through with storage unchanged and no network call by the handler, whatever the cache holds |
| ServiceWorkerProperties.ActivateRetiresEveryStaleGeneration | frontend/service-worker.js:25-27 | when every deletion resolves, clients are claimed and at most the current generation remains, with its entries unchanged |
| ServiceWorkerProperties.ActivateIdempotent | frontend/service-worker.js:25-26 | activating again after a fully successful activation changes nothing |
| ServiceWorkerProperties.PopulateTwiceIsPopulateOnce | frontend/service-worker.js:18-19 | re-adding the same manifest with the same answers leaves the storage one successful add left |
| ServiceWorkerProperties.InstallTwiceIsInstallOnce | frontend/service-worker.js:15-21 | a duplicate install with the same network answers is a harmless refresh |
| ServiceWorkerProperties.InstalledAssetsServedOffline | frontend/service-worker.js:15-37 | after a successful install and activation, every manifest asset is served from the cache with the network down, in any request mode |
| ServiceWorkerProperties.InstallActivateScenario | frontend/service-worker.js:15-29 | manifest `./index.html`, `./app.css` and a stale `safelease-ar-v0.9`: after install and activation only the new generation remains, holding exactly the two entries |
| Sorting.SortBy | frontend/src/app.js:34-35 | sorting by a key returns a permutation of the input that is in key order |
| Sorting.SortBySortedIsIdentity | frontend/src/app.js:34-35 | sorting a sequence that is already in key order returns it unchanged, so sorting is idempotent |
| Checklist.SortItems | frontend/src/app.js:34 | a room's copy keeps its name and other fields, and its items are a permutation of the original items sorted by id |
| Checklist.SortRooms | frontend/src/app.js:33-36 | `sortRooms` returns as many rooms, ordered by name, each with its items ordered by id; up to item order, the rooms are a permutation of the input with every field kept |
| Checklist.SortRoomsIdempotent | frontend/src/app.js:33-36 | sorting the sorted rooms again changes nothing |
| Checklist.SetCheck | frontend/src/app.js:61-63 | storing a checkbox state keeps keys unique, records the new value, and leaves every other id's entry in place; an existing id is updated, a new one gets an entry of its own |
| Checklist.CheckedKeys | frontend/src/app.js:172 | the ids whose entry is true, each once when the keys are unique |
| Checklist.GetCheckedItems | frontend/src/app.js:171-174 | exactly the ids stored as true, in strictly increasing order, so without duplicates |
| Checklist.SetCheckThenChecked | frontend/src/app.js:172 | after storing a checkbox state the id is listed iff it was ticked, and every other id's listing is unchanged |
| Checklist.Flatten | frontend/src/app.js:178 | no rooms flatten to the empty text and one room to its own text; with more rooms the text starts with the first room's text and the two-bar separator |
| Checklist.FlattenCons | frontend/src/app.js:178 | with two or more rooms the text is exactly the first room's text, the two-bar separator and the remaining rooms flattened |
| Checklist.FlattenAppendRoom | frontend/src/app.js:178 | one more room appends the two-bar separator and that room's text (its name, a colon, and its items' `id:title` texts joined by one bar) to the flattened checklist |
| Checklist.FlattenNotInjective | frontend/src/app.js:178 | the flattened text does not escape separators: one room whose name is `a`, a colon, two bars and `b` flattens like two empty rooms `a` and `b`, so both checklists get the same fingerprint |
| Capture.Throttle | frontend/src/app.js:132-136 | a press less than 500 ms after the last accepted one is throttled and the stamp is unchanged; otherwise it is accepted and stamped with its time |
| Capture.AcceptedAreSpaced | frontend/src/app.js:132-136 | whatever the press times, accepted captures are at least 500 ms apart and 500 ms after the starting stamp |
| Capture.CapturePhoto | frontend/src/app.js:156-169 | disabled capture, a full set of 24 photos, or a throttled press each leave the state unchanged; past those guards the stamp is set to the press time, and the press captures at the old length iff the image decoded, otherwise it is a decode failure that keeps the photos |
| Capture.CapturePreservesConsistency | frontend/src/app.js:156-167 | from a consistent state (at most 24 photos, meta exactly at the photo indices), capture stays consistent and adds one photo exactly when it captures |
| Capture.InitialIsConsistent | frontend/src/app.js:3-11 | the initial page state is consistent |
| Capture.BeginCapture | frontend/src/app.js:157-162 | the part before the await: it starts iff capture is enabled, fewer than 24 photos are kept and the throttle passes; only then is the stamp set |
| Capture.FinishCapture | frontend/src/app.js:164-167 | the part after the await: a decoded image is appended at the current length with its meta and every other field, the stamp and the capture capability included, is kept; a failed decode changes nothing |
| Capture.CaptureIsBeginThenFinish | frontend/src/app.js:156-167 | without an overlapping press, the two halves compose to the whole handler |
| Capture.OverlappingCapturesExceedCap | frontend/src/app.js:158-166 | as written, two presses 600 ms apart during the 24th photo's downscale leave 25 photos |
| Capture.FinishCaptureCapped | frontend/src/app.js:158-167 | the corrected continuation re-checks the cap and otherwise behaves as written |
| Capture.CappedRunKeepsConsistency | frontend/src/app.js:156-167 | with the corrected continuation, any interleaving of presses and completions keeps at most 24 photos with meta exactly at their indices |
| Capture.BytesHuman | frontend/src/app.js:83-87 | the unit is B iff n < 1024, KB iff 1024 <= n < 1048576, MB iff n >= 1048576 |
| Capture.BytesHumanMonotonic | frontend/src/app.js:83-87 | a larger size is never shown in a smaller unit |
| Capture.EstimatePdfSize | frontend/src/app.js:89-92 | no photos gives the no-photos text; otherwise the sum of every meta entry's bytes (0 when missing) plus 75 KiB, in the unit `bytesHuman` picks |
| Capture.CaptureAddsItsBytes | frontend/src/app.js:165-167 | a capture from a consistent state raises the summed meta bytes by exactly the new photo's bytes |
| ChecklistHash.ByteHex | frontend/src/app.js:181 | `toString(16).padStart(2,'0')` of a byte is two lowercase hex digits, high nibble first |
| ChecklistHash.HexOfBytes | frontend/src/app.js:181 | joining the renderings gives two lowercase hex digits per byte |
| ChecklistHash.HexPrefix | frontend/src/app.js:180-181 | the kept rendering is two lowercase hex digits for each of the first 8 digest bytes (all if shorter), so at most 16 digits and exactly 16 for a digest of 8 bytes or more |
| ChecklistHash.HexPrefixRoundTrip | frontend/src/app.js:180-181 | the rendering keeps the first 8 digest bytes (all if shorter), two lowercase hex digits each, and parses back to exactly those bytes |
| ChecklistHash.ComputeChecklistHash | frontend/src/app.js:176-183 | the fingerprint of the flattened checklist is 16 lowercase hex digits for a digest of at least 8 bytes, and it encodes the digest's first 8 bytes |

## Left out

- `frontend/src/ar.js` is not part of this model. It is WebXR session setup, WebGL
  drawing and random tinting.
- The DOM code in `renderRooms`, `renderGallery`, `setHint`, `detectCompat` and
  `updateMeta` is left out. It is UI glue with no state beyond what is modelled.
- `exportPDF` is left out. Its page layout goes through the jsPDF library, which is not
  part of this model.
- `downscaleToJpeg` and `probeCanvasCapture` are left out: both are float scaling and
  canvas encoding. Their results enter as parameters: the `Downscaled` image and the
  `Capability` verdict.
- `loadChecklist` and `main` are left out: fetching, JSON parsing and event wiring.
  The rooms are taken as already parsed.
- Capture.BytesHuman: only the unit is modelled. The `toFixed` decimal rendering of the
  number is floating point.
- ChecklistHash.ComputeChecklistHash: the SHA-256 digest and the UTF-8 `TextEncoder`
  step are a parameter from text to bytes, because they are foreign cryptographic code.
- Cache Storage, `fetch`, `skipWaiting` and `clients.claim` are modelled as maps,
  outcomes and flags.
- Request matching compares the resolved request URL only. Relative manifest URLs are
  treated as already resolved against the worker's scope, and `Vary` and match options
  are not modelled.
- Whether the browser discards a worker whose install failed belongs to the browser's
  lifecycle, outside the handlers. The model reports the install outcome only.
- ServiceWorker.HandleFetch: concurrent fetch events are not interleaved, and the
  un-awaited `cache.put` is treated as done within the step.
- Sorting.SortBy: `localeCompare` and the default `sort` order are both modelled by
  lexicographic order on characters. Locale collation rules are not modelled. Neither
  is UTF-16 code-unit order for characters outside the Basic Multilingual Plane. The
  stability of the sort is built into `Insert` but not stated as a separate property.
- Capture.Throttle: `performance.now()` is a fractional millisecond count; times are
  whole milliseconds here.
- Capture.EstimatePdfSize: numbers are integers, so `NaN` and `null` meta entries are
  not modelled. A missing `bytes` value counts as 0, as in the source.
- `state.checks` holds booleans written by the change listener. Other truthy values are
  not modelled. Neither is the order in which `Object.entries` lists the keys (integer-like
  keys first, in ascending numeric order); the checked ids are sorted before use, so no
  result depends on it.
- ServiceWorker.Activate: the ordering "claim after the deletions settled" is stated as
  "claimed only when every stale deletion resolved, and then the storage holds no stale
  generation". There is no separate event trace.

## Findings

| source | as written | input that shows it | evidently intended | confidence | as-written member | corrected member |
|---|---|---|---|---|---|---|
| frontend/src/app.js:158-166 | The 24-photo cap is checked before `await downscaleToJpeg(...)`; the photo is appended after it. A press during a pending downscale passes the cap check again. | 23 photos kept, capture enabled, stamp 0. Presses at 1000 ms and 1600 ms, then both downscales complete. Result: 25 photos. | Never more than 24 photos. | medium, not executed | Capture.OverlappingCapturesExceedCap | Capture.CappedRunKeepsConsistency |
