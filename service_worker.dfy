/** The offline strategy of service-worker.js. The browser's CacheStorage is a set of named
    caches, each a map from URL to response; the names keep their creation order, because
    `caches.match` searches the caches in that order. The network is an oracle that either
    yields a response or fails. Responses are opaque, apart from whether their status is OK. */
module ServiceWorker {
  import opened Wrappers

  const CacheName := "xmas-whisper-v2"
  const UrlsToCache: seq<string> := ["./", "./index.html", "./manifest.json"]

  /** `request.mode`. */
  datatype RequestMode = Navigate | SameOrigin | NoCors | Cors

  datatype Request = Request(url: string, mode: RequestMode)

  datatype Response = Response(id: nat, ok: bool)

  /** One network fetch: a response (whatever its status) or a network error. */
  datatype NetResult = Fetched(response: Response) | NetworkError

  type Cache = map<string, Response>

  datatype Strategy = NetworkFirst | CacheFirst

  /** The strategy depends on nothing but whether the request is a navigation. */
  function StrategyFor(request: Request): (s: Strategy)
    ensures s == NetworkFirst <==> request.mode == Navigate
  {
    if request.mode == Navigate then NetworkFirst else CacheFirst
  }

  /** `caches.match(url)`: the response stored under `url` in the first cache, in creation
      order, that has one. */
  function MatchAll(names: seq<string>, caches: map<string, Cache>, url: string): (r: Option<Response>)
    requires forall i :: 0 <= i < |names| ==> names[i] in caches
    ensures r.None? <==> forall i :: 0 <= i < |names| ==> url !in caches[names[i]]
    ensures r.Some? ==> exists i :: && 0 <= i < |names| && url in caches[names[i]]
                                   && r.value == caches[names[i]][url]
                                   && forall j :: 0 <= j < i ==> url !in caches[names[j]]
  {
    if names == [] then None
    else if url in caches[names[0]] then Some(caches[names[0]][url])
    else
      var r := MatchAll(names[1..], caches, url);
      assert forall i :: 1 <= i < |names| ==> names[i] == names[1..][i - 1];
      assert r.Some? ==> exists i :: && 0 <= i < |names| && url in caches[names[i]]
                                     && r.value == caches[names[i]][url]
                                     && forall j :: 0 <= j < i ==> url !in caches[names[j]] by {
        if r.Some? {
          var k :| && 0 <= k < |names[1..]| && url in caches[names[1..][k]]
                   && r.value == caches[names[1..][k]][url]
                   && forall j :: 0 <= j < k ==> url !in caches[names[1..][j]];
          assert forall j :: 0 <= j < k + 1 ==> url !in caches[names[j]] by {
            forall j | 0 <= j < k + 1 ensures url !in caches[names[j]] {
              if j > 0 { assert names[j] == names[1..][j - 1]; }
            }
          }
        }
      }
      r
  }

  /** `cache.addAll(urls)`: every URL is fetched, and the entries are stored only when every
      fetch yields an OK response; otherwise the call rejects and the cache is unchanged. */
  function AddAll(cache: Cache, urls: seq<string>, fetch: string -> NetResult): (r: Option<Cache>)
    ensures r.Some? <==> forall i :: 0 <= i < |urls| ==> fetch(urls[i]).Fetched? && fetch(urls[i]).response.ok
    ensures r.Some? ==> (forall i :: 0 <= i < |urls| ==> urls[i] in r.value && r.value[urls[i]] == fetch(urls[i]).response)
    ensures r.Some? ==> forall u :: u in r.value ==> u in cache || u in urls
    ensures r.Some? ==> forall u :: u in cache && u !in urls ==> u in r.value && r.value[u] == cache[u]
  {
    if forall i :: 0 <= i < |urls| ==> fetch(urls[i]).Fetched? && fetch(urls[i]).response.ok then
      Some(cache + map u | u in urls :: fetch(u).response)
    else None
  }

  /** The cache-first branch given the result of `caches.match`: a hit answers without the
      network; a miss answers with whatever the network gives, and nothing is stored. */
  datatype Answer = Answer(response: Option<Response>, usedNetwork: bool)

  function CacheFirstAnswer(matched: Option<Response>, net: NetResult): (a: Answer)
    ensures matched.Some? ==> a == Answer(matched, false)
    ensures matched.None? ==> (&& a.usedNetwork
                               && (net.Fetched? ==> a.response == Some(net.response))
                               && (net.NetworkError? ==> a.response == None))
  {
    if matched.Some? then Answer(matched, false)
    else if net.Fetched? then Answer(Some(net.response), true)
    else Answer(None, true)
  }

  ghost predicate Distinct(s: seq<string>)
  {
    forall i, j :: 0 <= i < j < |s| ==> s[i] != s[j]
  }

  /** `names` with `x` removed, order kept. */
  function Without(s: seq<string>, x: string): (r: seq<string>)
    ensures forall y :: y in r <==> y in s && y != x
    ensures Distinct(s) ==> Distinct(r)
  {
    if s == [] then []
    else
      var rest := Without(s[1..], x);
      assert forall y :: y in s <==> y == s[0] || y in s[1..];
      assert Distinct(s) ==> Distinct(s[1..]) && s[0] !in s[1..] by {
        if Distinct(s) {
          forall k | 0 <= k < |s[1..]| ensures s[1..][k] != s[0] {
            assert s[1..][k] == s[k + 1];
          }
        }
      }
      if s[0] == x then rest else [s[0]] + rest
  }

  /** Removing an element that occurs once, between `a` and `b`, leaves `a + b`. */
  lemma {:induction false} WithoutSplit(a: seq<string>, c: string, b: seq<string>)
    requires c !in a && c !in b
    ensures Without(a + [c] + b, c) == a + b
  {
    if a == [] {
      assert ([c] + b)[1..] == b;
      WithoutAbsent(b, c);
    } else {
      var s := a + [c] + b;
      assert s[0] == a[0] && a[0] != c;
      assert s[1..] == a[1..] + [c] + b;
      WithoutSplit(a[1..], c, b);
      assert Without(s, c) == [a[0]] + Without(s[1..], c);
      assert [a[0]] + (a[1..] + b) == a + b;
    }
  }

  lemma {:induction false} WithoutAbsent(s: seq<string>, x: string)
    requires x !in s
    ensures Without(s, x) == s
  {
    if s != [] {
      WithoutAbsent(s[1..], x);
    }
  }

  /** The elements of `s` equal to `x`, in order. */
  function Kept(s: seq<string>, x: string): (r: seq<string>)
    ensures forall k :: 0 <= k < |r| ==> r[k] == x
  {
    if s == [] then []
    else Kept(s[..|s| - 1], x) + (if s[|s| - 1] == x then [x] else [])
  }

  /** In a duplicate-free list `x` is kept once if it occurs, and nothing else is kept. */
  lemma {:induction false} KeptOnce(s: seq<string>, x: string)
    requires Distinct(s)
    ensures Kept(s, x) == if x in s then [x] else []
  {
    if s != [] {
      var init := s[..|s| - 1];
      KeptOnce(init, x);
      assert s == init + [s[|s| - 1]];
      assert x in s <==> x in init || s[|s| - 1] == x;
      if s[|s| - 1] == x {
        assert forall k :: 0 <= k < |init| ==> init[k] == s[k] && s[k] != s[|s| - 1];
      }
    }
  }

  /** One turn of the activate loop keeps `names` equal to the surviving prefix followed by
      the names still to visit. */
  lemma ActivateStep(cacheNames: seq<string>, i: nat, keep: string)
    requires Distinct(cacheNames) && i < |cacheNames|
    ensures var names := Kept(cacheNames[..i], keep) + cacheNames[i..];
            var c := cacheNames[i];
            (if c != keep then Without(names, c) else names)
              == Kept(cacheNames[..i + 1], keep) + cacheNames[i + 1..]
  {
    var c := cacheNames[i];
    var kept := Kept(cacheNames[..i], keep);
    var rest := cacheNames[i + 1..];
    assert cacheNames[..i + 1][..i] == cacheNames[..i];
    assert cacheNames[i..] == [c] + rest;
    if c != keep {
      assert c !in rest by {
        assert forall k :: 0 <= k < |rest| ==> rest[k] == cacheNames[k + i + 1];
      }
      assert c !in kept;
      assert kept + ([c] + rest) == kept + [c] + rest;
      WithoutSplit(kept, c, rest);
    } else {
      assert Kept(cacheNames[..i + 1], keep) == kept + [c];
      assert kept + ([c] + rest) == (kept + [c]) + rest;
    }
  }

  lemma SingletonMap(m: map<string, Cache>, k: string, v: Cache)
    requires (forall n :: n in m ==> n == k) && k in m && m[k] == v
    ensures m == map[k := v]
  {
    assert m.Keys == {k};
  }

  /** The browser's CacheStorage as seen by this worker. */
  class CacheStorage {
    var names: seq<string>
    var caches: map<string, Cache>

    ghost predicate Valid()
      reads this
    {
      && (forall n :: n in names <==> n in caches)
      && Distinct(names)
    }

    constructor (names0: seq<string>, caches0: map<string, Cache>)
      requires forall n :: n in names0 <==> n in caches0
      requires forall i, j :: 0 <= i < j < |names0| ==> names0[i] != names0[j]
      ensures Valid() && names == names0 && caches == caches0
    {
      names := names0;
      caches := caches0;
    }

    /** `caches.match`. */
    function Match(url: string): Option<Response>
      reads this
      requires Valid()
    {
      assert forall i :: 0 <= i < |names| ==> names[i] in names;
      MatchAll(names, caches, url)
    }

    /** `caches.open(name)`: creates an empty cache, last in order, when there is none. */
    method Open(name: string)
      requires Valid()
      modifies this
      ensures Valid() && name in caches
      ensures name in old(caches) ==> names == old(names) && caches == old(caches)
      ensures name !in old(caches) ==> names == old(names) + [name] && caches == old(caches)[name := map[]]
    {
      if name !in caches {
        names := names + [name];
        caches := caches[name := map[]];
      }
    }

    /** The install handler: open `CACHE_NAME` and `addAll(urlsToCache)`. Returns whether
        installation succeeded. */
    method Install(fetch: string -> NetResult) returns (installed: bool)
      requires Valid()
      modifies this
      ensures Valid()
      ensures CacheName in caches
      ensures installed <==> AddAll(old(if CacheName in caches then caches[CacheName] else map[]), UrlsToCache, fetch).Some?
      ensures installed ==> forall u :: u in UrlsToCache ==> u in caches[CacheName] && caches[CacheName][u] == fetch(u).response
      ensures forall n :: n in old(caches) && n != CacheName ==> n in caches && caches[n] == old(caches)[n]
      ensures CacheName in old(caches) && !installed ==> caches == old(caches) && names == old(names)
      ensures names == if CacheName in old(caches) then old(names) else old(names) + [CacheName]
      ensures installed ==> caches == old(caches)[CacheName := AddAll(old(if CacheName in caches then caches[CacheName] else map[]), UrlsToCache, fetch).value]
      ensures !installed ==> caches == old(caches)[CacheName := old(if CacheName in caches then caches[CacheName] else map[])]
    {
      Open(CacheName);
      var added := AddAll(caches[CacheName], UrlsToCache, fetch);
      installed := added.Some?;
      if installed {
        caches := caches[CacheName := added.value];
      }
    }

    /** The activate handler: every cache whose name is not `CACHE_NAME` is deleted, and
        `CACHE_NAME`'s cache is left as it was. */
    method Activate()
      requires Valid()
      modifies this
      ensures Valid()
      ensures CacheName in old(caches) ==> names == [CacheName] && caches == map[CacheName := old(caches)[CacheName]]
      ensures CacheName !in old(caches) ==> names == [] && caches == map[]
    {
      DeleteAllBut(CacheName);
    }

    /** The loop of the activate handler over `caches.keys()`, for any name to keep. */
    method DeleteAllBut(keep: string)
      requires Valid()
      modifies this
      ensures Valid()
      ensures keep in old(caches) ==> names == [keep] && caches == map[keep := old(caches)[keep]]
      ensures keep !in old(caches) ==> names == [] && caches == map[]
    {
      var cacheNames := names;
      var i := 0;
      while i < |cacheNames|
        invariant 0 <= i <= |cacheNames|
        invariant Valid() && Distinct(cacheNames)
        invariant names == Kept(cacheNames[..i], keep) + cacheNames[i..]
        invariant forall n :: n in caches ==> n in old(caches) && caches[n] == old(caches)[n]
        invariant keep in old(caches) ==> keep in caches
      {
        ActivateStep(cacheNames, i, keep);
        DeleteUnlessKept(cacheNames[i], keep);
        i := i + 1;
      }
      assert cacheNames[..i] == cacheNames && cacheNames[i..] == [];
      KeptOnce(cacheNames, keep);
      assert keep in cacheNames <==> keep in old(caches);
      if keep in old(caches) {
        assert names == [keep];
        assert forall n :: n in caches ==> n == keep;
        SingletonMap(caches, keep, old(caches)[keep]);
      } else {
        assert names == [];
        assert caches.Keys == {};
      }
    }

    /** One turn of the activate loop: `name` is deleted unless it is the one to keep. */
    method DeleteUnlessKept(name: string, keep: string)
      requires Valid()
      modifies this
      ensures Valid()
      ensures name != keep ==> caches == old(caches) - {name} && names == Without(old(names), name)
      ensures name == keep ==> caches == old(caches) && names == old(names)
    {
      if name != keep {
        Delete(name);
      }
    }

    /** `caches.delete(name)`. */
    method Delete(name: string)
      requires Valid()
      modifies this
      ensures Valid()
      ensures caches == old(caches) - {name}
      ensures names == Without(old(names), name)
    {
      names := Without(names, name);
      caches := caches - {name};
    }
    /** The fetch handler. A navigation goes to the network first: a response is stored
        under the request's URL in `CACHE_NAME` and returned; a network error falls back to
        `caches.match`, which may find nothing. Any other request is answered from the
        caches when they hold it and from the network otherwise, storing nothing. */
    method HandleFetch(request: Request, net: NetResult) returns (answer: Answer)
      requires Valid()
      modifies this
      ensures Valid()
      ensures StrategyFor(request) == NetworkFirst && net.Fetched? ==>
                && answer == Answer(Some(net.response), true)
                && CacheName in caches
                && names == (if CacheName in old(caches) then old(names) else old(names) + [CacheName])
                && caches == old(caches)[CacheName := (if CacheName in old(caches) then old(caches)[CacheName] else map[])[request.url := net.response]]
      ensures StrategyFor(request) == NetworkFirst && net.NetworkError? ==>
                && answer == Answer(old(Match(request.url)), true)
                && caches == old(caches) && names == old(names)
      ensures StrategyFor(request) == CacheFirst ==>
                && answer == CacheFirstAnswer(old(Match(request.url)), net)
                && caches == old(caches) && names == old(names)
    {
      if request.mode == Navigate {
        if net.Fetched? {
          Open(CacheName);
          caches := caches[CacheName := caches[CacheName][request.url := net.response]];
          answer := Answer(Some(net.response), true);
        } else {
          answer := Answer(Match(request.url), true);
        }
        return;
      }
      var matched := Match(request.url);
      if matched.Some? {
        answer := Answer(matched, false);
      } else if net.Fetched? {
        answer := Answer(Some(net.response), true);
      } else {
        answer := Answer(None, true);
      }
    }
  }

  /** The worker's lifecycle: install, and activate only when install succeeded (a rejected
      install promise discards the new worker). A successful install followed by activate
      leaves exactly the application shell cached: every URL of `urlsToCache` is then
      answered from `CACHE_NAME`. A failed install leaves every other cache as it was. */
  method InstallThenActivate(storage: CacheStorage, fetch: string -> NetResult) returns (installed: bool)
    requires storage.Valid()
    modifies storage
    ensures storage.Valid()
    ensures installed <==> forall u :: u in UrlsToCache ==> fetch(u).Fetched? && fetch(u).response.ok
    ensures installed ==> storage.names == [CacheName]
    ensures installed ==> forall u :: u in UrlsToCache ==> storage.Match(u) == Some(fetch(u).response)
    ensures !installed ==>
              && storage.names == (if CacheName in old(storage.caches) then old(storage.names)
                                   else old(storage.names) + [CacheName])
              && storage.caches == old(storage.caches)[CacheName := old(if CacheName in storage.caches
                                                                        then storage.caches[CacheName] else map[])]
  {
    installed := storage.Install(fetch);
    if installed {
      storage.Activate();
    }
    forall u | u in UrlsToCache && installed
      ensures storage.Match(u) == Some(fetch(u).response)
    {
      assert storage.names[0] == CacheName;
    }
  }
}
