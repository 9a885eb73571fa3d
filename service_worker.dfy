/** The service worker's cache discipline. One versioned cache holds the app shell,
    stored at install, and the map tiles the page asks for; activation deletes every
    cache of another version; every request is answered from the caches first and
    from the network otherwise, and that fallback is never written back. */
module ServiceWorker {
  import opened Common

  /** The cache version of this worker. */
  const CACHE_NAME: string := "property-navigator-v3"

  /** The app shell stored at install. */
  const UrlsToCache: seq<string> := [
    "/",
    "/index.html",
    "/style.css",
    "/app.js",
    "/manifest.json",
    "/images/icon-128.png",
    "/images/icon-512.png",
    "https://unpkg.com/leaflet@1.7.1/dist/leaflet.css",
    "https://unpkg.com/leaflet@1.7.1/dist/leaflet.js",
    "https://cdn.jsdelivr.net/npm/exif-js"
  ]

  /** The app shell names each URL once, so installing it can succeed. */
  lemma ShellHasNoDuplicates()
    ensures NoDup(UrlsToCache)
  {
  }

  /** The action of the page's tile-caching message. */
  const CACHE_TILES: string := "cache-tiles"

  datatype Response = Response(body: string)

  /** One cache: responses by request URL. */
  type Entries = map<string, Response>

  /** A message posted by the page: `{ action, urls }`. */
  datatype Message = Message(action: string, urls: seq<string>)

  /** What the network gives for one request. */
  datatype NetworkResult = Delivered(response: Response) | NetworkError

  /** The answer to an intercepted request, and where it came from. */
  datatype Served = FromCache(response: Response) | FromNetwork(result: NetworkResult)

  /** How a message ended: not for this worker, tiles stored, or a failure caught and logged. */
  datatype MessageOutcome = Ignored | Cached | FailureLogged

  /** cache.addAll(urls), given the responses the network would deliver (a URL
      missing from `net` is a failed request): when every request succeeds all the
      responses are stored, replacing older entries for the same URLs; otherwise it
      rejects and nothing is stored. A batch that names the same request twice
      rejects as well. */
  function AddAll(entries: Entries, urls: seq<string>, net: map<string, Response>): (r: Option<Entries>)
    ensures r.Some? <==> NoDup(urls) && forall u :: u in urls ==> u in net
    ensures r.Some? ==> r.value.Keys == entries.Keys + (set u | u in urls)
    ensures r.Some? ==> forall u :: u in urls ==> r.value[u] == net[u]
    ensures r.Some? ==> forall u :: u in entries && u !in urls ==> r.value[u] == entries[u]
  {
    if NoDup(urls) && forall u :: u in urls ==> u in net then Some(entries + map u | u in urls :: net[u])
    else None
  }

  /** No cache and no entry has gone: every cache is still there with at least its old URLs. */
  ghost predicate Grows(before: map<string, Entries>, after: map<string, Entries>) {
    forall n :: n in before ==> n in after && before[n].Keys <= after[n].Keys
  }

  /** The storage after activation: only the current version's cache is left, untouched. */
  function Activated(caches: map<string, Entries>): (r: map<string, Entries>)
    ensures r.Keys == caches.Keys * {CACHE_NAME}
    ensures forall n :: n in r ==> r[n] == caches[n]
  {
    map n | n in caches && n == CACHE_NAME :: caches[n]
  }

  /** The list without any occurrence of x. */
  function Without(s: seq<string>, x: string): (r: seq<string>)
    ensures forall y :: y in r <==> y in s && y != x
    ensures NoDup(s) ==> NoDup(r)
    decreases |s|
  {
    if s == [] then []
    else if s[0] == x then Without(s[1..], x)
    else
      var rest := Without(s[1..], x);
      assert NoDup(s) ==> s[0] !in s[1..];
      [s[0]] + rest
  }

  /** Cache n exists and holds an entry for url. */
  predicate Holds(caches: map<string, Entries>, n: string, url: string) {
    n in caches && url in caches[n]
  }

  /** caches.match: the entry for url in the first cache, in creation order, that
      has one, or nothing when no cache has it. */
  function Match(names: seq<string>, caches: map<string, Entries>, url: string): (r: Option<Response>)
    ensures r.Some? ==> exists n :: n in names && Holds(caches, n, url) && caches[n][url] == r.value
    ensures r.None? ==> forall n :: n in names ==> !Holds(caches, n, url)
    decreases |names|
  {
    if names == [] then None
    else if Holds(caches, names[0], url) then Some(caches[names[0]][url])
    else
      var r := Match(names[1..], caches, url);
      assert forall n :: n in names[1..] ==> n in names;
      assert names == [names[0]] + names[1..];
      r
  }

  /** The response caches.match finds comes from the first cache, in creation
      order, that holds the URL: every earlier cache lacks it. */
  lemma {:induction false} MatchFirst(names: seq<string>, caches: map<string, Entries>, url: string, i: nat)
    requires i < |names| && Holds(caches, names[i], url)
    requires forall j :: 0 <= j < i ==> !Holds(caches, names[j], url)
    ensures Match(names, caches, url) == Some(caches[names[i]][url])
    decreases i
  {
    if i > 0 {
      MatchFirst(names[1..], caches, url, i - 1);
    }
  }

  /** The fetch handler: a stored response if any cache has one, otherwise whatever
      the network gives. It only reads the caches. */
  function Fetch(names: seq<string>, caches: map<string, Entries>, url: string, network: NetworkResult): (served: Served)
    ensures served.FromCache? ==>
      exists n :: n in names && Holds(caches, n, url) && caches[n][url] == served.response
    ensures served.FromNetwork? <==> forall n :: n in names ==> !Holds(caches, n, url)
    ensures served.FromNetwork? ==> served.result == network
  {
    match Match(names, caches, url)
    case Some(r) => FromCache(r)
    case None => FromNetwork(network)
  }

  /** A hit is answered with the response stored in the first cache that holds
      the URL, whatever the network would give: the network is not consulted. */
  lemma HitIgnoresNetwork(names: seq<string>, caches: map<string, Entries>, url: string, i: nat,
                          network: NetworkResult)
    requires i < |names| && Holds(caches, names[i], url)
    requires forall j :: 0 <= j < i ==> !Holds(caches, names[j], url)
    ensures Fetch(names, caches, url, network) == FromCache(caches[names[i]][url])
  {
    MatchFirst(names, caches, url, i);
  }

  /** A miss passes the network's result through unchanged. */
  lemma MissPassesNetwork(names: seq<string>, caches: map<string, Entries>, url: string, network: NetworkResult)
    requires forall n :: n in names ==> !Holds(caches, n, url)
    ensures Fetch(names, caches, url, network) == FromNetwork(network)
  {
  }

  /** The cache names left by activation: the current one, if it existed. */
  function ActivatedNames(caches: map<string, Entries>): (r: seq<string>)
    ensures NoDup(r)
    ensures forall n :: n in r <==> n in caches && n == CACHE_NAME
  {
    if CACHE_NAME in caches then [CACHE_NAME] else []
  }

  /** After activation every hit comes from the current version's cache. */
  lemma MatchAfterActivate(caches: map<string, Entries>, url: string)
    ensures Match(ActivatedNames(caches), Activated(caches), url)
            == if CACHE_NAME in caches && url in caches[CACHE_NAME] then Some(caches[CACHE_NAME][url]) else None
  {
    var names := ActivatedNames(caches);
    if CACHE_NAME in caches {
      assert names[1..] == [];
    }
  }

  /** A sequence without repeats whose every element is x holds x at most once. */
  lemma AtMostOnce(s: seq<string>, x: string)
    requires NoDup(s) && forall y :: y in s ==> y == x
    ensures s == [] || s == [x]
  {
    NoDupCardinality(s);
    var elems := set y | y in s;
    assert elems <= {x};
    assert elems == {} || elems == {x};
    if |s| == 1 {
      assert s[0] in s;
    }
  }

  /** Names that list, each once, exactly the caches activation leaves: at most the current one. */
  lemma OnlyCurrentName(names: seq<string>, caches: map<string, Entries>, caches0: map<string, Entries>)
    requires NoDup(names) && (forall n :: n in caches <==> n in names)
    requires caches == Activated(caches0)
    ensures names == ActivatedNames(caches0)
  {
    forall y | y in names
      ensures y == CACHE_NAME
    {
      assert y in caches.Keys;
    }
    AtMostOnce(names, CACHE_NAME);
    if CACHE_NAME in caches0 {
      assert CACHE_NAME in caches.Keys;
      assert names == [CACHE_NAME];
    } else {
      assert CACHE_NAME !in caches.Keys;
      assert names == [];
    }
  }

  /** The caches left once the names in `visited` have been passed over by
      activation: those of the current version and those not yet visited. */
  ghost function Surviving(caches: map<string, Entries>, visited: seq<string>): (r: map<string, Entries>) {
    map n | n in caches && (n == CACHE_NAME || n !in visited) :: caches[n]
  }

  /** Visiting one more name deletes it, unless it is the current version. */
  lemma SurvivingStep(caches: map<string, Entries>, names: seq<string>, i: nat)
    requires i < |names|
    ensures Surviving(caches, names[..i + 1])
            == if names[i] == CACHE_NAME then Surviving(caches, names[..i]) else Surviving(caches, names[..i]) - {names[i]}
  {
    assert names[..i + 1] == names[..i] + [names[i]];
  }

  /** Once every cache name has been visited, only the current version is left. */
  lemma SurvivingAll(caches: map<string, Entries>, visited: seq<string>)
    requires forall n :: n in caches ==> n in visited
    ensures Surviving(caches, visited) == Activated(caches)
  {
  }

  /** The worker's view of the origin's cache storage. */
  class CacheStorage {
    /** caches.keys(): the cache names in creation order. */
    var names: seq<string>
    /** Each cache's entries. */
    var caches: map<string, Entries>

    /** The names are those of the caches, each once. */
    ghost predicate Valid()
      reads this
    {
      NoDup(names) && forall n :: n in caches <==> n in names
    }

    constructor (names0: seq<string>, caches0: map<string, Entries>)
      requires NoDup(names0) && forall n :: n in caches0 <==> n in names0
      ensures Valid() && names == names0 && caches == caches0
    {
      names := names0;
      caches := caches0;
    }

    /** caches.open(name): a missing cache is created empty, after the existing ones. */
    method Open(name: string)
      requires Valid()
      modifies this
      ensures Valid() && name in caches
      ensures name in old(caches) ==> names == old(names) && caches == old(caches)
      ensures name !in old(caches) ==> names == old(names) + [name] && caches == old(caches)[name := map[]]
    {
      if name !in caches {
        NoDupAppend(names, [name]);
        names := names + [name];
        caches := caches[name := map[]];
      }
    }

    /** caches.delete(name): the whole cache goes. */
    method Delete(name: string)
      requires Valid()
      modifies this
      ensures Valid()
      ensures names == Without(old(names), name) && caches == old(caches) - {name}
    {
      names := Without(names, name);
      caches := caches - {name};
    }

    /** Open the current cache and addAll the URLs into it. Only that cache can change,
        and nothing is removed from it. */
    method OpenAndAddAll(urls: seq<string>, net: map<string, Response>) returns (ok: bool)
      requires Valid()
      modifies this
      ensures Valid() && CACHE_NAME in caches
      ensures names == (if CACHE_NAME in old(caches) then old(names) else old(names) + [CACHE_NAME])
      ensures ok <==> NoDup(urls) && forall u :: u in urls ==> u in net
      ensures var before := if CACHE_NAME in old(caches) then old(caches)[CACHE_NAME] else map[];
              caches == old(caches)[CACHE_NAME := if ok then AddAll(before, urls, net).value else before]
      ensures ok ==> forall u :: u in urls ==> u in caches[CACHE_NAME] && caches[CACHE_NAME][u] == net[u]
      ensures Grows(old(caches), caches)
    {
      Open(CACHE_NAME);
      var stored := AddAll(caches[CACHE_NAME], urls, net);
      match stored
      case Some(e) =>
        caches := caches[CACHE_NAME := e];
        ok := true;
      case None =>
        ok := false;
    }

    /** install: store the app shell in the current cache. Installation succeeds
        exactly when every shell request does, and then every shell URL is stored. */
    method Install(net: map<string, Response>) returns (installed: bool)
      requires Valid()
      modifies this
      ensures Valid() && CACHE_NAME in caches
      ensures installed <==> forall u :: u in UrlsToCache ==> u in net
      ensures installed ==> forall u :: u in UrlsToCache ==> u in caches[CACHE_NAME] && caches[CACHE_NAME][u] == net[u]
      ensures names == (if CACHE_NAME in old(caches) then old(names) else old(names) + [CACHE_NAME])
      ensures var before := if CACHE_NAME in old(caches) then old(caches)[CACHE_NAME] else map[];
              && (installed <==> AddAll(before, UrlsToCache, net).Some?)
              && caches == old(caches)[CACHE_NAME := if installed then AddAll(before, UrlsToCache, net).value else before]
      ensures forall n :: n in old(caches) && n != CACHE_NAME ==> n in caches && caches[n] == old(caches)[n]
      ensures Grows(old(caches), caches)
    {
      ShellHasNoDuplicates();
      installed := OpenAndAddAll(UrlsToCache, net);
    }

    /** activate: delete every cache whose name is not the current version. The
        current cache, if it exists, is kept as it was. */
    method Activate()
      requires Valid()
      modifies this
      ensures Valid()
      ensures caches == Activated(old(caches))
      ensures names == ActivatedNames(old(caches))
    {
      ghost var caches0 := caches;
      var cacheNames := names;
      for i := 0 to |cacheNames|
        invariant Valid()
        invariant caches == Surviving(caches0, cacheNames[..i])
      {
        if cacheNames[i] != CACHE_NAME {
          Delete(cacheNames[i]);
        }
        SurvivingStep(caches0, cacheNames, i);
      }
      assert caches == Activated(caches0) by {
        assert cacheNames[..|cacheNames|] == cacheNames;
        SurvivingAll(caches0, cacheNames);
      }
      OnlyCurrentName(names, caches, caches0);
    }

    /** message: a "cache-tiles" message adds its URLs to the current cache, and a
        failure is caught and logged rather than raised; any other message changes nothing. */
    method OnMessage(msg: Message, net: map<string, Response>) returns (outcome: MessageOutcome)
      requires Valid()
      modifies this
      ensures Valid()
      ensures msg.action != CACHE_TILES ==> outcome == Ignored && names == old(names) && caches == old(caches)
      ensures msg.action == CACHE_TILES ==>
        && CACHE_NAME in caches
        && (outcome == Cached <==> NoDup(msg.urls) && forall u :: u in msg.urls ==> u in net)
        && (outcome == FailureLogged <==> !(NoDup(msg.urls) && forall u :: u in msg.urls ==> u in net))
        && names == (if CACHE_NAME in old(caches) then old(names) else old(names) + [CACHE_NAME])
        && (var before := if CACHE_NAME in old(caches) then old(caches)[CACHE_NAME] else map[];
            caches == old(caches)[CACHE_NAME := if outcome == Cached then AddAll(before, msg.urls, net).value else before])
        && (outcome == Cached ==> forall u :: u in msg.urls ==> u in caches[CACHE_NAME] && caches[CACHE_NAME][u] == net[u])
        && (forall n :: n in old(caches) && n != CACHE_NAME ==> n in caches && caches[n] == old(caches)[n])
      ensures Grows(old(caches), caches)
    {
      if msg.action == CACHE_TILES {
        var ok := OpenAndAddAll(msg.urls, net);
        outcome := if ok then Cached else FailureLogged;
      } else {
        outcome := Ignored;
      }
    }
  }
}
