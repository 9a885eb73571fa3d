# Navigator route, guidance and offline-cache model

A Dafny model of the logic behind the Navigator web app: an offline-capable route
navigator that orders geotagged photos into a route, guides the user from waypoint to
waypoint, and pre-caches map tiles through its service worker.

The model covers five parts:

- **Route editor** (`route.dfy`, module `Route`). This is the photo waypoint list
  (`photoMetadata`) together with the rendered list items. Each item carries the
  `dataset.index` it was drawn with. The class `RouteEditor` holds both as `seq` fields.
  - Photos are appended after a capture and after an upload.
  - A new upload resets the list.
  - The remove button splices one photo out, with JavaScript `splice(index, 1)` semantics.
  - A dragover step moves one rendered item, either before another item or to the end.
  - At dragend the list is rebuilt by reading the items' indices back in DOM order.
  - The invariant `Valid()` states that the rendered indices always form a permutation
    of the list positions. So no reorder can lose or duplicate a photo, whatever drags
    happen in between.
- **Navigation** (`navigation.dfy`, module `Navigation`). This covers the `navigationIndex`
  cursor, the prompt, the "next location" button and the map-marker opacities (class
  `Navigator`). It also has the abstract state machine `Idle / Navigating(i) / Complete`.
- **DMS conversion** (`geo.dfy`, module `Geo`). `convertDMSToDD` is stated over `real`.
  It applies the rule that a missing latitude reference defaults to "N" and a missing
  longitude reference defaults to "W".
- **Tile download** (`tiles.dfy`, module `Tiles`). This covers the nested tile loops of
  `handleDownloadMap` and the URL text `https://{a|b|c}.tile.openstreetmap.org/{z}/{x}/{y}.png`.
  It also covers the `[...new Set(urls)]` deduplication and the two guards that stop
  anything from being sent.
- **Service worker** (`service_worker.dfy`, module `ServiceWorker`). Cache storage is
  modelled as cache names in creation order plus a map from cache name to entries
  (class `CacheStorage`). It has the `install`, `activate` and `cache-tiles` message
  handlers, and the read-only, cache-first `fetch` handler.

`common.dfy` (module `Common`) holds `Option` and the no-duplicates predicate.

## Model

| member | source | states |
|---|---|---|
| `Route.RouteEditor.constructor` | app.js:30 | The route starts empty, with nothing rendered. |
| `Route.RouteEditor.DisplayPhotoList` | app.js:272-277 | After a redraw, the item in DOM position k carries index k. The list itself is unchanged. |
| `Route.RouteEditor.CapturePhoto` | app.js:228-231 | A capture appends exactly one photo at the end. That photo faces the current compass heading. |
| `Route.RouteEditor.ProcessUploadedFiles` | app.js:351-358 | The photos of the files whose metadata held a GPS position are appended, in file order. |
| `Route.Located` | app.js:352-356 | An upload adds no more photos than there were files, and each photo it adds came from one of the files. |
| `Route.LocatedKeepsFound` | app.js:352-356 | A photo is added exactly when some file yielded it, and an upload never adds more photos than there were files. |
| `Route.LocatedAppend` | app.js:352-356 | The photos of a batch of files are those of its first files followed by those of the rest, so photos are added in file order and once per file. |
| `Route.LocatedOne` | app.js:353-355 | A single file adds its photo when its metadata had a position, and nothing otherwise. |
| `Route.RouteEditor.HandleFileUpload` | app.js:127-135 | A non-empty upload replaces the route by the uploaded photos. Choosing no files changes nothing. |
| `Route.SpliceStart` | app.js:304 | This is the start position of `splice`. A negative index counts back from the end, and the result is clamped into `[0, len]`. |
| `Route.RouteEditor.RemovePhoto` | app.js:303-306 | The list becomes `splice(index, 1)` of the old list, and the view is redrawn. |
| `Route.SpliceOne` | app.js:304 | `splice(index, 1)`: the list is one shorter exactly when the start position lies inside it, and no element is gained. |
| `Route.SpliceOneInRange` | app.js:303-306 | Removing an in-range position takes out exactly that element. The list is one shorter, earlier elements stay in place, later ones shift down by one, and the multiset drops exactly one copy. |
| `Route.SpliceOnePastEnd` | app.js:304 | An index at or past the end removes nothing. |
| `Route.Iota` | app.js:274-277 | The `dataset.index` values of a fresh render: entry k is k, one per photo. |
| `Route.Pick` | app.js:344-346 | Entry k of the rebuilt list is the photo at the index of the k-th rendered item. |
| `Route.PickPermutation` | app.js:342-349 | Reading the list back through a permutation of its positions gives the same length and the same multiset of photos. |
| `Route.RouteEditor.UpdatePhotoOrder` | app.js:342-349 | The new list is the old one read through the rendered indices. It has the same length and the same multiset of photos, and the view is redrawn. |
| `Route.DragOver` | app.js:322-329 | A dragover step only moves items. The multiset of rendered indices is unchanged. |
| `Route.DragOverKeepsOthers` | app.js:322-329 | A dragover step moves only the dragged item. With that item taken out, the other items keep their relative order. |
| `Route.DragOverPermutes` | app.js:322-329 | A dragover step keeps the rendered indices a permutation of the list positions. |
| `Route.DragOverPlaces` | app.js:326-327 | With no item below the pointer, the dragged item becomes last. Otherwise it sits immediately before the item below the pointer. |
| `Route.RouteEditor.DragOverStep` | app.js:322-329 | One dragover step changes only the rendered order, and `Valid()` is kept. |
| `Route.DragsThenReorderPermutes` | app.js:308-349 | After any series of drag steps, the list rebuilt at dragend is a permutation of the old list. |
| `Navigation.Navigator.constructor` | app.js:34-35 | The cursor starts at 0 with no prompt and the button hidden. |
| `Navigation.Navigator.UpdateNavigationPrompt` | app.js:415 | Only the current waypoint's marker is fully opaque, and every other marker is dimmed. The prompt names the current waypoint's number, bearing and file name. |
| `Navigation.Navigator.StartNavigating` | app.js:414 | The cursor goes to 0, the prompt shows waypoint 0 and the next button appears. |
| `Navigation.Navigator.StartNavigation` | app.js:368-376 | An empty route changes nothing. Otherwise one marker is drawn per waypoint and guidance starts at waypoint 0. |
| `Navigation.Navigator.NextLocation` | app.js:416 | The cursor goes up by exactly one. Past the last waypoint the route is complete, the button hides and every marker is fully opaque. Otherwise the prompt shows the new waypoint. |
| `Navigation.Start` | app.js:368-376 | Starting on an empty route changes nothing. Otherwise guidance begins at waypoint 0. Starting never moves the cursor off the route. |
| `Navigation.Arrive` | app.js:416 | "Next" does nothing unless navigating. While navigating it completes the route exactly when the current waypoint is the last one, and otherwise it moves to the next waypoint. The cursor never leaves the route. |
| `Navigation.PromptFor` | app.js:415 | The prompt shows a point number from 1 to the route length, counting from 1. Its bearing and file name belong to the waypoint it numbers. |
| `Navigation.Emphasis` | app.js:415 | There is one opacity per marker. A marker is fully opaque exactly when it is the current waypoint's, and dimmed exactly when it is not. |
| `Navigation.AllFull` | app.js:416 | On completion there is one opacity per marker, and every one is fully opaque. |
| `Navigation.ArrivalsFromStart` | app.js:414-416 | On a route of N > 0 waypoints, the k-th "next" after start shows waypoint k while k < N. The N-th "next" completes the route, and no earlier one does. |
| `Navigation.EmphasisHighlightsOne` | app.js:415 | While navigating, a marker is fully opaque exactly when it belongs to the current waypoint, so exactly one marker is. |
| `Geo.ConvertDMSToDD` | app.js:361 | The result is degrees + minutes/60 + seconds/3600 (stated as seconds of arc), negated exactly for "S" and "W". |
| `Geo.RefOrDefault` | app.js:360 | A present, non-empty reference tag is used. A missing or empty one gives way to the default. |
| `Geo.HemisphereSign` | app.js:361 | "S" and "W" give the opposite sign to "N" and "E". Any other letter reads as "N". |
| `Geo.SignFollowsRef` | app.js:361 | For non-negative components that are not all zero (EXIF stores them as unsigned rationals), the result is negative exactly when the reference letter is "S" or "W". |
| `Geo.DecimalLatitude` | app.js:360 | A latitude is the north value of its angle, negated exactly when its reference tag is "S" or "W". A missing or empty tag reads as "N". |
| `Geo.DecimalLongitude` | app.js:360 | A longitude is the east value of its angle, negated when its reference tag is missing, empty, "S" or "W". |
| `Geo.MissingRefDefaults` | app.js:360 | Without reference tags, a latitude reads as north and a longitude as west. |
| `Geo.RegressionExample` | app.js:361 | 40°26'46" is 72803/1800 (about 40.446111) degrees, and the negative of that for "S". |
| `Tiles.Url` | app.js:391-393 | A tile URL is an `https://` URL whose subdomain is the tile's mirror letter, and it ends in `.png`. |
| `Tiles.UrlInjective` | app.js:391-393 | Two tile URLs are equal only when mirror, zoom, x and y are all equal. |
| `Tiles.Column` | app.js:390-394 | The inner loop's tiles for column x: three per y in the inclusive range, and none for an empty range. |
| `Tiles.Rect` | app.js:389-395 | One zoom level's tiles, column by column. The enumeration is empty exactly when the x range or the y range is empty. |
| `Tiles.AllTiles` | app.js:386-396 | Every zoom level's tiles, zoom by zoom. Every tile enumerated is at one of the listed zoom levels. |
| `Tiles.RectLength` | app.js:389-395 | Before deduplication, one zoom level contributes 3 × (maxX−minX+1) × (maxY−minY+1) URLs. An empty range contributes none. |
| `Tiles.RectMembership` | app.js:389-395 | A tile is enumerated, on any mirror, exactly when it lies in the inclusive rectangle. |
| `Tiles.AllTilesMembership` | app.js:386-396 | A tile is enumerated exactly when its zoom is one of the levels and it lies in that level's rectangle. |
| `Tiles.AllTilesNoDup` | app.js:383-396 | With distinct zoom levels, no tile is enumerated twice. |
| `Tiles.PushColumnUrls` | app.js:390-394 | The inner loop pushes the a, b and c URLs of each tile of column x, in order of y. |
| `Tiles.PushZoomUrls` | app.js:386-396 | One zoom level's callback pushes the URLs of its rectangle, column by column. |
| `Tiles.CollectTileUrls` | app.js:383-396 | The loops produce the URLs of every zoom level's tiles, zoom by zoom. |
| `Tiles.Dedup` | app.js:398 | Deduplication never lengthens the list and introduces no new URL. |
| `Tiles.DedupSpec` | app.js:398 | The deduplicated list has exactly the same elements, each once. Deduplicating any prefix gives a prefix of the result, so first-occurrence order is kept. |
| `Tiles.DedupOfDistinct` | app.js:398 | A list without repeats is its own deduplication. |
| `Tiles.DedupIdempotent` | app.js:398 | Deduplicating twice is the same as deduplicating once. |
| `Tiles.HandleDownloadMap` | app.js:378-402 | Without a drawn route, or without a controlling service worker, nothing is sent. Otherwise one `cache-tiles` message carries the deduplicated URLs. Those URLs are all distinct, so the worker's `addAll` cannot reject them as repeats. |
| `Tiles.DownloadSendsEveryTileOnce` | app.js:383-398 | The download enumeration never repeats a URL, so deduplication removes nothing. Every tile of every level's rectangle is sent on all three mirrors. |
| `Tiles.TwoByTwoGivesTwelve` | app.js:389-398 | A 2×2 tile rectangle at one zoom gives 12 URLs before deduplication and 12 after. |
| `ServiceWorker.AddAll` | sw.js:20 | `addAll` succeeds exactly when every request succeeds and no request is repeated. It then stores every response and keeps the other entries. |
| `ServiceWorker.Without` | sw.js:33 | Removing a name from the name list keeps every other name and no duplicates. |
| `ServiceWorker.CacheStorage.Open` | sw.js:18 | Opening a missing cache creates it empty, after the existing ones. Opening an existing cache changes nothing. |
| `ServiceWorker.CacheStorage.Delete` | sw.js:33 | Deleting a cache removes the whole cache and its name. |
| `ServiceWorker.CacheStorage.OpenAndAddAll` | sw.js:18-20 | Only the current cache changes, and it is created if missing. On success (every request answered, none repeated) it becomes the `addAll` result. On failure it stays as it was. No cache and no entry is lost. |
| `ServiceWorker.ShellHasNoDuplicates` | sw.js:2-13 | The app shell lists each URL once. |
| `ServiceWorker.CacheStorage.Install` | sw.js:16-23 | Install succeeds exactly when every app-shell request does. The name list gains `CACHE_NAME` if it was missing. The current cache becomes the `addAll` result on success, and stays as it was on failure. Other caches are untouched and nothing is deleted. |
| `ServiceWorker.Activated` | sw.js:28-35 | After activation, only the current version's cache is left, unchanged. |
| `ServiceWorker.ActivatedNames` | sw.js:28-35 | The cache names left after activation: `CACHE_NAME` if that cache existed, and no other name, without repeats. |
| `ServiceWorker.CacheStorage.Activate` | sw.js:26-39 | Every cache whose name is not `CACHE_NAME` is deleted. The current cache, if present, is kept as it was. |
| `ServiceWorker.OnlyCurrentName` | sw.js:28-35 | After activation, the name list holds at most `CACHE_NAME`. |
| `ServiceWorker.CacheStorage.OnMessage` | sw.js:42-56 | A `cache-tiles` message opens the current cache. It is reported as cached exactly when every URL is answered and none is repeated, and the cache then becomes the `addAll` result. Otherwise the failure is logged and reported as an outcome, not raised, and the cache stays as it was. Any other action leaves cache storage unchanged. No message deletes anything. |
| `ServiceWorker.Match` | sw.js:62 | A found response is stored under the URL in one of the caches. Nothing is found only when no cache holds the URL. |
| `ServiceWorker.MatchFirst` | sw.js:62 | The response found comes from the first cache, in creation order, that holds the URL. |
| `ServiceWorker.Fetch` | sw.js:60-71 | A request is served from a cache exactly when some cache holds its URL. Otherwise the network result is passed through. |
| `ServiceWorker.HitIgnoresNetwork` | sw.js:62-66 | On a hit, the stored response is returned whatever the network would give. |
| `ServiceWorker.MissPassesNetwork` | sw.js:67-69 | On a miss, the network's result is returned unchanged. |
| `ServiceWorker.MatchAfterActivate` | sw.js:26-39 | After activation, every hit comes from the current version's cache. |

## Left out

- DOM markup, event wiring, alerts and modal show/hide are presentation. The model keeps only the rendered items' indices, the prompt's content, the button's visibility and the markers' opacities.
- The geometry of `getDragAfterElement` (app.js:332-340) is not modelled. A drag step takes its outcome as input: the item to insert before, or none for "append".
- The float projection `getTileNumber` (app.js:404-410), the 10% bounds padding and the Leaflet map, polyline and popups are not modelled. The corner tile numbers of each zoom level are an input.
- Camera, orientation sensor and geolocation callbacks are not modelled. A capture takes the position, heading and thumbnail as parameters.
- IndexedDB project persistence is not modelled (save, load, delete and `loadProjectData`).
- EXIF reading, `FileReader`, `Date.now` file names and `Math.round` of the direction are not modelled. An upload takes the per-file outcome (a photo or no GPS data) as input. Only the reference-letter default rule is kept.
- Route.RouteEditor.ProcessUploadedFiles: the per-file `await` is modelled as a sequential loop. No other event can interleave with it.
- Navigation.Navigator.StartNavigation: the route is copied into the navigator at start. The source reads the live list, but the list section is hidden during navigation, so it cannot change then.
- `postMessage` transport, `waitUntil`, promise scheduling and logging are not modelled.
- ServiceWorker.AddAll: the network is a map from URL to response. A failed `addAll` is modelled as storing nothing, following the Cache API's all-or-nothing `addAll`. Repeated requests are compared by URL only.
- Response bodies are opaque strings. `caches.match` is modelled as a search by URL only, without other request matching options.

## Notes on the code's behaviour

- Starting navigation on an empty route returns silently (app.js:369). No error is raised.
- A tile-caching failure is caught and logged (sw.js:50-52). Because `addAll` is all-or-nothing, nothing from that batch is stored.
- Reordering reads back the positional `dataset.index` assigned at the last render (app.js:277, 345). Those indices do not change during a drag, because the list is only redrawn at dragend, given that no upload finishes during a drag (the assumption stated on the `Route.RouteEditor.ProcessUploadedFiles` line under "## Left out"). `Route.DragsThenReorderPermutes` proves that this gives a true permutation.
