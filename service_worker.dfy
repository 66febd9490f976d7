/** The caching policy of public/sw.js: which requests are answered
    cache-first, which caches survive activation, and what a cache-first
    lookup returns and stores. The browser's cache storage is a map from
    cache name to a map from request URL to stored response; the network's
    answer to a request is a parameter. */
module ServiceWorker {
  import opened Common

  /** The one cache this version of the worker keeps. */
  const CacheName := "full-weasel-v2"

  /** The parts of a Fetch request the worker looks at. `httpMethod` is
      `request.method`; `origin` and `pathname` are those of `new URL(url)`. */
  datatype Request = Request(
    httpMethod: string,
    url: string,
    origin: string,
    pathname: string,
    destination: string,
    mode: string)

  /** A response; `ok` is a status in the range 200 to 299 (the "ok status" of the Fetch standard). */
  datatype Response = Response(status: int, body: string) {
    predicate Ok() { 200 <= status <= 299 }
  }

  /** What `fetch` would give for the request: a response or a thrown network error. */
  datatype FetchResult = Fetched(response: Response) | NetworkError

  /** What `cacheFirst` resolves to, or that it rejects. */
  datatype Outcome = Served(response: Response) | Failed

  predicate StartsWith(s: string, prefix: string) { prefix <= s }

  predicate EndsWith(s: string, suffix: string) {
    |suffix| <= |s| && s[|s| - |suffix|..] == suffix
  }

  // ---------------------------------------------------------------------------
  // shouldUseCacheFirst

  /** Audio and video are streamed from the network, by destination or file extension. */
  predicate IsMediaRequest(request: Request) {
    || request.destination == "audio"
    || request.destination == "video"
    || EndsWith(request.pathname, ".mp3")
    || EndsWith(request.pathname, ".mp4")
  }

  /** The kinds of request the worker serves from its cache. */
  predicate CacheFirstKind(request: Request) {
    || request.mode == "navigate"
    || request.destination == "script"
    || request.destination == "style"
    || StartsWith(request.pathname, "/assets/sprites/")
    || request.pathname == "/manifest.webmanifest"
    || request.pathname == "/assets/manifest.json"
  }

  /** `shouldUseCacheFirst(request)` with the early returns of the source;
      `selfOrigin` is `self.location.origin`. */
  function ShouldUseCacheFirst(request: Request, selfOrigin: string): bool {
    if request.httpMethod != "GET" then false
    else if request.origin != selfOrigin then false
    else if IsMediaRequest(request) then false
    else CacheFirstKind(request)
  }

  /** A request is answered cache-first exactly when it is a same-origin
      GET, not media, and of a cache-first kind: no other method, no other
      origin, and no media file ever is, whatever its mode or destination. */
  lemma CacheFirstExactly(request: Request, selfOrigin: string)
    ensures ShouldUseCacheFirst(request, selfOrigin) <==>
      && request.httpMethod == "GET"
      && request.origin == selfOrigin
      && !IsMediaRequest(request)
      && CacheFirstKind(request)
    ensures request.httpMethod != "GET" ==> !ShouldUseCacheFirst(request, selfOrigin)
    ensures request.origin != selfOrigin ==> !ShouldUseCacheFirst(request, selfOrigin)
    ensures IsMediaRequest(request) ==> !ShouldUseCacheFirst(request, selfOrigin)
  {
  }

  /** The media check comes before the navigation rule: opening an `.mp3`
      or `.mp4` file as a page still goes to the network, while a same-origin
      page navigation that is not media is served cache-first. */
  lemma MediaBeatsNavigation(request: Request, selfOrigin: string)
    requires request.httpMethod == "GET" && request.origin == selfOrigin && request.mode == "navigate"
    ensures ShouldUseCacheFirst(request, selfOrigin) <==> !IsMediaRequest(request)
    ensures EndsWith(request.pathname, ".mp3") || EndsWith(request.pathname, ".mp4") ==>
      !ShouldUseCacheFirst(request, selfOrigin)
  {
  }

  /** Every sprite sheet and both manifests are cached whatever their mode
      and their destination (other than the media ones), as long as the
      path is not an audio or video file. */
  lemma SpritesAreCacheFirst(request: Request, selfOrigin: string)
    requires request.httpMethod == "GET" && request.origin == selfOrigin
    requires request.destination != "audio" && request.destination != "video"
    requires !EndsWith(request.pathname, ".mp3") && !EndsWith(request.pathname, ".mp4")
    ensures StartsWith(request.pathname, "/assets/sprites/") ==> ShouldUseCacheFirst(request, selfOrigin)
    ensures request.pathname == "/manifest.webmanifest" ==> ShouldUseCacheFirst(request, selfOrigin)
    ensures request.pathname == "/assets/manifest.json" ==> ShouldUseCacheFirst(request, selfOrigin)
  {
  }

  // ---------------------------------------------------------------------------
  // activate

  /** `keys.filter((key) => key !== CACHE_NAME)`: the caches activation deletes. */
  function StaleCacheKeys(keys: seq<string>): (r: seq<string>)
    ensures forall k :: k in r <==> k in keys && k != CacheName
    ensures |r| <= |keys|
  {
    Exclude(keys, {CacheName})
  }

  /** The cache the worker's own cache starts as, `caches.open` creating it if absent. */
  function OpenedCache(caches: map<string, map<string, Response>>): map<string, Response> {
    if CacheName in caches then caches[CacheName] else map[]
  }

  /** `cache.match("/")`: the start page, resolved against the worker's origin. */
  function RootUrl(selfOrigin: string): string {
    selfOrigin + "/"
  }

  // ---------------------------------------------------------------------------
  // cacheFirst

  /** What `cacheFirst` resolves to, given the cache when it starts. */
  function CacheFirstOutcome(cache: map<string, Response>, request: Request, fetched: FetchResult, rootUrl: string): Outcome {
    if request.url in cache then Served(cache[request.url])
    else match fetched
      case Fetched(response) => Served(response)
      case NetworkError =>
        if request.mode == "navigate" && rootUrl in cache then Served(cache[rootUrl]) else Failed
  }

  /** The cache after `cacheFirst`: a fresh ok response is stored under the request's URL. */
  function CacheAfter(cache: map<string, Response>, request: Request, fetched: FetchResult): map<string, Response> {
    if request.url !in cache && fetched.Fetched? && fetched.response.Ok()
    then cache[request.url := fetched.response]
    else cache
  }

  /** A hit is returned and nothing is stored or fetched. */
  lemma CacheHit(cache: map<string, Response>, request: Request, fetched: FetchResult, rootUrl: string)
    requires request.url in cache
    ensures CacheFirstOutcome(cache, request, fetched, rootUrl) == Served(cache[request.url])
    ensures CacheAfter(cache, request, fetched) == cache
  {
  }

  /** On a miss with a network answer, that answer is returned, and it is
      stored exactly when it is ok; no other entry changes. */
  lemma CacheMissFetched(cache: map<string, Response>, request: Request, response: Response, rootUrl: string)
    requires request.url !in cache
    ensures CacheFirstOutcome(cache, request, Fetched(response), rootUrl) == Served(response)
    ensures var after := CacheAfter(cache, request, Fetched(response));
      && (request.url in after <==> response.Ok())
      && (response.Ok() ==> after[request.url] == response)
      && (forall k :: k != request.url ==> (k in after <==> k in cache))
      && (forall k :: k in cache ==> after[k] == cache[k])
  {
  }

  /** On a miss without a network answer nothing is stored; a page
      navigation falls back to the cached start page if there is one, and
      everything else fails with the network error. */
  lemma CacheMissOffline(cache: map<string, Response>, request: Request, rootUrl: string)
    requires request.url !in cache
    ensures CacheAfter(cache, request, NetworkError) == cache
    ensures CacheFirstOutcome(cache, request, NetworkError, rootUrl) ==
      if request.mode == "navigate" && rootUrl in cache then Served(cache[rootUrl]) else Failed
    ensures request.mode != "navigate" ==> CacheFirstOutcome(cache, request, NetworkError, rootUrl) == Failed
  {
  }

  /** Once an ok response has been stored, the same request is served
      from the cache from then on, whatever the network does. */
  lemma {:induction false} CachedStaysServed(cache: map<string, Response>, request: Request, fetched: FetchResult,
                                             later: FetchResult, rootUrl: string)
    requires CacheFirstOutcome(cache, request, fetched, rootUrl).Served?
    requires request.url in CacheAfter(cache, request, fetched)
    ensures var after := CacheAfter(cache, request, fetched);
      && CacheFirstOutcome(after, request, later, rootUrl) == CacheFirstOutcome(cache, request, fetched, rootUrl)
      && CacheAfter(after, request, later) == after
  {
    if request.url !in cache {
      assert fetched.Fetched? && fetched.response.Ok();
    }
  }

  /** The browser's cache storage: named caches of request URL to response. */
  class CacheStorage {
    var caches: map<string, map<string, Response>>

    constructor()
      ensures caches == map[]
    {
      caches := map[];
    }

    /** `caches.keys()`: every cache name, once each. */
    method Keys() returns (keys: seq<string>)
      ensures NoDup(keys)
      ensures forall k :: k in keys <==> k in caches
    {
      var rest := caches.Keys;
      keys := [];
      while rest != {}
        invariant rest <= caches.Keys
        invariant NoDup(keys)
        invariant forall k :: k in keys <==> k in caches && k !in rest
        decreases |rest|
      {
        var k :| k in rest;
        keys := keys + [k];
        rest := rest - {k};
      }
    }

    /** The activate handler: every cache but the current one is deleted,
      and the current one, if present, is kept as it is. */
    method Activate()
      modifies this
      ensures forall k :: k in caches <==> k in old(caches) && k == CacheName
      ensures forall k :: k in caches ==> caches[k] == old(caches)[k]
    {
      var keys := Keys();
      var stale := StaleCacheKeys(keys);
      DeleteAll(stale);
    }

    /** `Promise.all(names.map((key) => caches.delete(key)))`: the named caches are gone, nothing else changes. */
    method DeleteAll(names: seq<string>)
      modifies this
      ensures forall k :: k in caches <==> k in old(caches) && k !in names
      ensures forall k :: k in caches ==> caches[k] == old(caches)[k]
    {
      for i := 0 to |names|
        invariant forall k :: k in caches <==> k in old(caches) && k !in names[..i]
        invariant forall k :: k in caches ==> caches[k] == old(caches)[k]
      {
        assert names[..i + 1] == names[..i] + [names[i]];
        Delete(names[i]);
      }
      assert names[..|names|] == names;
    }

    /** `caches.delete(key)`: that cache is gone, the others stay as they are. */
    method Delete(key: string)
      modifies this
      ensures forall k :: k in caches <==> k in old(caches) && k != key
      ensures forall k :: k in caches ==> caches[k] == old(caches)[k]
    {
      caches := caches - {key};
    }

    /** `caches.open(CACHE_NAME)`: the worker's cache, created empty if absent. */
    method Open()
      modifies this
      ensures caches == old(caches)[CacheName := OpenedCache(old(caches))]
    {
      if CacheName !in caches {
        caches := caches[CacheName := map[]];
      }
    }

    /** `cacheFirst(request)`: look up, else fetch and store an ok
        response, else fall back to the start page for a navigation. */
    method CacheFirst(request: Request, selfOrigin: string, fetched: FetchResult) returns (out: Outcome)
      modifies this
      ensures out == CacheFirstOutcome(OpenedCache(old(caches)), request, fetched, RootUrl(selfOrigin))
      ensures caches == old(caches)[CacheName := CacheAfter(OpenedCache(old(caches)), request, fetched)]
    {
      Open();
      var cache := caches[CacheName];
      if request.url in cache {
        return Served(cache[request.url]);
      }
      match fetched {
        case Fetched(response) =>
          if response.Ok() {
            caches := caches[CacheName := cache[request.url := response]];
          }
          return Served(response);
        case NetworkError =>
          if request.mode == "navigate" {
            var fallback := RootUrl(selfOrigin);
            if fallback in cache {
              return Served(cache[fallback]);
            }
          }
          return Failed;
      }
    }

    /** The fetch handler: requests that are not cache-first are left to
        the browser (`None`); the others are answered by `cacheFirst`. */
    method HandleFetch(request: Request, selfOrigin: string, fetched: FetchResult) returns (out: Option<Outcome>)
      modifies this
      ensures !ShouldUseCacheFirst(request, selfOrigin) ==> out == None && caches == old(caches)
      ensures ShouldUseCacheFirst(request, selfOrigin) ==>
        && out == Some(CacheFirstOutcome(OpenedCache(old(caches)), request, fetched, RootUrl(selfOrigin)))
        && caches == old(caches)[CacheName := CacheAfter(OpenedCache(old(caches)), request, fetched)]
    {
      if !ShouldUseCacheFirst(request, selfOrigin) {
        return None;
      }
      var outcome := CacheFirst(request, selfOrigin, fetched);
      out := Some(outcome);
    }
  }
}
