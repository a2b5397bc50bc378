// The three tables of the client-metadata resolver and the two critical
// sections that change them, with their eviction loops.
//
// A Go map is visited in an unspecified order. The specification functions take
// that order as an argument, so a statement about every order is a statement
// about every visit the loops can make.

module ResolverTables {
  import opened Prelude
  import opened Urls
  import opened ClientMetadata
  import opened NormalForms
  import CacheControl

  // Times are nanoseconds on one clock.
  type Time = int

  const HOST_RETRY_DELAY: Time := CacheControl.SECOND
  const CACHE_ENTRIES := 1024
  const HOST_ENTRIES := 2048
  const RESPONSE_LIMIT := 5120

  datatype CacheEntry = CacheEntry(metadata: Metadata, expiresAt: Time)

  datatype ResolveError =
    | InvalidClientId
    | RateExceeded
    | Cancelled
    | FetchFailed

  // The HTTP exchange as the resolver sees it: what is not a transport failure
  // has a status, a media type verdict, a body of some length and, when the
  // body is one JSON object of the right shape, its record and field names.
  datatype Response =
    | TransportFailure
    | Response(status: int, jsonMediaType: bool, readable: bool, bodyLength: nat,
               document: Option<(Metadata, set<string>)>, cacheControl: string)

  datatype FetchResult = Fetched(metadata: Metadata, ttl: Time) | Failed(error: ResolveError)

  function Fetch(lib: UrlLibrary, clientId: string, response: Response): FetchResult {
    if response.TransportFailure? || response.status != 200 || !response.jsonMediaType then Failed(FetchFailed)
    else if !response.readable || response.bodyLength > RESPONSE_LIMIT then Failed(FetchFailed)
    else match response.document
      case None => Failed(FetchFailed)
      case Some((metadata, fields)) =>
        if !FieldsAreSafe(fields, true) || metadata.clientId != clientId then Failed(FetchFailed)
        else match Normalized(lib, metadata, true)
          case Err(_) => Failed(FetchFailed)
          case Ok(normalized) => Fetched(normalized, CacheControl.Ttl(response.cacheControl))
  }

  // A record that `Fetch` may hand out for this client.
  ghost predicate Admitted(lib: UrlLibrary, clientId: string, m: Metadata) {
    m.clientId == clientId && Canonical(lib, m, true)
  }

  lemma FetchContract(lib: UrlLibrary, clientId: string, response: Response)
    ensures match Fetch(lib, clientId, response)
            case Failed(_) => true
            case Fetched(m, ttl) => Admitted(lib, clientId, m) && ttl <= CacheControl.MAXIMUM_TTL
  {
    if Fetch(lib, clientId, response).Fetched? {
      var metadata := response.document.value.0;
      NormalizedIsCanonical(lib, metadata, true);
      NormalizedKeepsId(lib, metadata, true);
      CacheControl.TtlBounded(response.cacheControl);
    }
  }

  // What a response must be for its document to be considered.
  ghost predicate GoodResponse(clientId: string, r: Response) {
    && r.Response? && r.status == 200 && r.jsonMediaType && r.readable && r.bodyLength <= 5120
    && r.document.Some?
    && r.document.value.0.clientId == clientId
    && forall field :: field in r.document.value.1 ==>
         field !in ["client_secret", "client_secret_expires_at", "registration_access_token",
                    "registration_client_uri", "metadata", "audience", "skip_consent", "skip_logout_consent",
                    "access_token_strategy", "owner"]
  }

  // A good response with an admitted document gives the normal form of that
  // document, for as long as its header says; anything else is one failure.
  ghost predicate FetchGives(lib: UrlLibrary, clientId: string, r: Response, result: FetchResult) {
    match result
    case Fetched(m, ttl) =>
      && GoodResponse(clientId, r)
      && NormalForm(lib, r.document.value.0, true, m) && CacheControl.LifetimeOf(r.cacheControl, ttl)
    case Failed(e) =>
      && e == FetchFailed
      && (GoodResponse(clientId, r) ==> forall m :: !NormalForm(lib, r.document.value.0, true, m))
  }

  lemma FetchExactly(lib: UrlLibrary, clientId: string, r: Response)
    ensures FetchGives(lib, clientId, r, Fetch(lib, clientId, r))
  {
    if r.Response? && r.document.Some? {
      var (document, fields) := r.document.value;
      forall m ensures Normalized(lib, document, true) == Ok(m) <==> NormalForm(lib, document, true, m) {
        NormalizedExactly(lib, document, true, m);
      }
      CacheControl.TtlMeaning(r.cacheControl);
    }
  }

  // ---------------------------------------------------------------- oldest entry of a visit

  // The pair (oldestKey, oldestTime) both eviction loops carry, after the
  // visited keys. The empty string doubles as "none yet".
  function OldestSeen(visited: seq<string>, times: map<string, Time>): (oldest: (string, Time))
    requires forall k :: k in visited ==> k in times
    ensures oldest.0 == "" || (oldest.0 in visited && oldest.1 == times[oldest.0])
  {
    if visited == [] then ("", 0)
    else
      var front, key := visited[..|visited| - 1], visited[|visited| - 1];
      var best := OldestSeen(front, times);
      if best.0 == "" || times[key] < best.1 then (key, times[key]) else best
  }

  // Without the empty key the scan finds a key of least time.
  lemma {:induction false} OldestSeenIsLeast(visited: seq<string>, times: map<string, Time>)
    requires "" !in visited && visited != []
    requires forall k :: k in visited ==> k in times
    ensures var oldest := OldestSeen(visited, times);
            oldest.0 in visited && forall k :: k in visited ==> times[oldest.0] <= times[k]
  {
    var front, key := visited[..|visited| - 1], visited[|visited| - 1];
    assert visited == front + [key];
    if front == [] {
      assert OldestSeen(front, times) == ("", 0);
    } else {
      OldestSeenIsLeast(front, times);
    }
    forall k | k in visited ensures times[OldestSeen(visited, times).0] <= times[k] {
      assert k in front || k == key;
    }
  }

  // The scan ends on "" exactly when "" is visited last and was either alone or
  // strictly older than the best before it.
  lemma OldestSeenIsEmpty(visited: seq<string>, times: map<string, Time>)
    requires NoDuplicates(visited)
    requires forall k :: k in visited ==> k in times
    ensures OldestSeen(visited, times).0 == "" <==>
            visited == [] || (visited[|visited| - 1] == "" &&
                              forall k :: k in visited && k != "" ==> times[""] < times[k])
  {
    if visited != [] {
      var front, key := visited[..|visited| - 1], visited[|visited| - 1];
      assert visited == front + [key];
      if key == "" {
        EmptyVisitedLast(front, times);
      } else {
        assert OldestSeen(visited, times).0 != "";
      }
    }
  }

  lemma EmptyVisitedLast(front: seq<string>, times: map<string, Time>)
    requires "" !in front && "" in times && forall k :: k in front ==> k in times
    ensures OldestSeen(front + [""], times).0 == "" <==> forall k :: k in front ==> times[""] < times[k]
  {
    assert (front + [""])[..|front|] == front;
    if front != [] {
      OldestSeenIsLeast(front, times);
    }
  }

  // Both loops between two iterations: the keys met so far, and the best pair.
  ghost predicate Scanned(order: seq<string>, met: set<string>, times: map<string, Time>, key: string, time: Time) {
    && Enumerates(order, met) && met <= times.Keys
    && (forall k :: k in order ==> k in Elements(order))
    && (key, time) == OldestSeen(order, times)
  }

  lemma ScanStep(order: seq<string>, met: set<string>, times: map<string, Time>, key: string, time: Time, next: string)
    requires Scanned(order, met, times, key, time) && next in times && next !in met
    ensures if key == "" || times[next] < time
            then Scanned(order + [next], met + {next}, times, next, times[next])
            else Scanned(order + [next], met + {next}, times, key, time)
  {
    EnumeratesSnoc(order, met, next);
    assert (order + [next])[..|order|] == order;
  }

  lemma VisitOne(keys: set<string>, unvisited: set<string>, next: string)
    requires next in unvisited
    ensures keys - (unvisited - {next}) == if next in keys then keys - unvisited + {next} else keys - unvisited
  {
  }

  // ---------------------------------------------------------------- host eviction

  predicate IsFresh(now: Time, fetchedAt: Time) {
    now - fetchedAt < HOST_RETRY_DELAY
  }

  function FreshHosts(hosts: map<string, Time>, now: Time): map<string, Time> {
    map h | h in hosts && IsFresh(now, hosts[h]) :: hosts[h]
  }

  // `order` is the order in which the loop meets the fresh hosts.
  function EvictHosts(hosts: map<string, Time>, order: seq<string>, now: Time): map<string, Time>
    requires Enumerates(order, FreshHosts(hosts, now).Keys)
  {
    if |hosts| < HOST_ENTRIES then hosts
    else
      var recent := FreshHosts(hosts, now);
      assert forall k :: k in order ==> k in Elements(order);
      var oldest := OldestSeen(order, recent).0;
      if |recent| >= HOST_ENTRIES && oldest != "" then recent - {oldest} else recent
  }

  // Below capacity nothing goes. At capacity exactly the stale hosts go, and a
  // fresh one, of least time, goes only when every host is fresh.
  lemma EvictHostsExactly(hosts: map<string, Time>, order: seq<string>, now: Time)
    requires Enumerates(order, FreshHosts(hosts, now).Keys)
    requires "" !in hosts && |hosts| <= HOST_ENTRIES
    ensures var after, recent := EvictHosts(hosts, order, now), FreshHosts(hosts, now);
            && (|hosts| < HOST_ENTRIES ==> after == hosts)
            && (|hosts| == HOST_ENTRIES && recent != hosts ==> after == recent)
            && (|hosts| == HOST_ENTRIES && recent == hosts ==>
                  exists h :: h in hosts && after == hosts - {h} && forall k :: k in hosts ==> hosts[h] <= hosts[k])
            && |after| < HOST_ENTRIES
  {
    var recent := FreshHosts(hosts, now);
    assert recent.Keys <= hosts.Keys;
    if |hosts| == HOST_ENTRIES {
      if recent == hosts {
        assert forall k :: k in hosts ==> k in Elements(order);
        assert |Elements(order)| == HOST_ENTRIES;
        OldestSeenIsLeast(order, recent);
        var h := OldestSeen(order, recent).0;
        assert (hosts - {h}).Keys == hosts.Keys - {h};
      } else {
        FewerKeys(recent, hosts);
      }
    }
  }

  lemma FewerKeys(recent: map<string, Time>, hosts: map<string, Time>)
    requires recent.Keys <= hosts.Keys && recent != hosts
    requires forall h :: h in recent ==> recent[h] == hosts[h]
    ensures |recent| < |hosts|
  {
    assert hosts.Keys <= recent.Keys ==> recent == hosts;
    ProperSubsetSmaller(recent.Keys, hosts.Keys);
  }

  lemma ProperSubsetSmaller(a: set<string>, b: set<string>)
    requires a < b
    ensures |a| < |b|
  {
    assert b == a + (b - a);
    var x :| x in b - a;
    assert |b - a| > 0;
  }

  // A host name may be empty: the client id "https://:443/x" has a host and no
  // host name. Then "" is a key of the table and collides with the loop's
  // "none yet". Room for one more host is guaranteed, whatever the visiting
  // order, if and only if the table is below capacity, or an entry is stale,
  // or "" is not strictly the oldest entry.
  lemma HostEvictionMakesRoom(hosts: map<string, Time>, now: Time)
    requires |hosts| <= HOST_ENTRIES
    ensures (forall order :: Enumerates(order, FreshHosts(hosts, now).Keys) ==>
               |EvictHosts(hosts, order, now)| < HOST_ENTRIES) <==>
            || |hosts| < HOST_ENTRIES
            || (exists h :: h in hosts && !IsFresh(now, hosts[h]))
            || "" !in hosts
            || (exists h :: h in hosts && h != "" && hosts[h] <= hosts[""])
  {
    var recent := FreshHosts(hosts, now);
    var condition := |hosts| < HOST_ENTRIES || (exists h :: h in hosts && !IsFresh(now, hosts[h])) ||
                     "" !in hosts || (exists h :: h in hosts && h != "" && hosts[h] <= hosts[""]);
    if condition {
      forall order | Enumerates(order, recent.Keys) ensures |EvictHosts(hosts, order, now)| < HOST_ENTRIES {
        RoomWhenCondition(hosts, order, now);
      }
    } else {
      assert recent == hosts;
      var order := EmptyKeyLast(hosts.Keys);
      OldestSeenIsEmpty(order, hosts);
      assert EvictHosts(hosts, order, now) == hosts;
    }
  }

  lemma RoomWhenCondition(hosts: map<string, Time>, order: seq<string>, now: Time)
    requires |hosts| <= HOST_ENTRIES && Enumerates(order, FreshHosts(hosts, now).Keys)
    requires || |hosts| < HOST_ENTRIES || (exists h :: h in hosts && !IsFresh(now, hosts[h]))
             || "" !in hosts || (exists h :: h in hosts && h != "" && hosts[h] <= hosts[""])
    ensures |EvictHosts(hosts, order, now)| < HOST_ENTRIES
  {
    var recent := FreshHosts(hosts, now);
    assert recent.Keys <= hosts.Keys;
    if |hosts| == HOST_ENTRIES {
      if recent != hosts {
        FewerKeys(recent, hosts);
      } else {
        assert forall k :: k in hosts ==> k in Elements(order);
        assert order != [] by { assert |Elements(order)| == HOST_ENTRIES; }
        OldestSeenIsEmpty(order, recent);
        var oldest := OldestSeen(order, recent).0;
        assert oldest != "";
        assert (recent - {oldest}).Keys == recent.Keys - {oldest};
      }
    }
  }

  lemma EmptyKeyLast(keys: set<string>) returns (order: seq<string>)
    requires "" in keys
    ensures Enumerates(order, keys) && order[|order| - 1] == ""
  {
    var front := SomeOrder(keys - {""});
    order := front + [""];
    assert Elements(order) == Elements(front) + {""};
    assert forall x :: x in front ==> x in Elements(front);
  }

  lemma {:induction false} SomeOrder(keys: set<string>) returns (order: seq<string>)
    ensures Enumerates(order, keys)
  {
    if keys == {} {
      order := [];
    } else {
      var k :| k in keys;
      var front := SomeOrder(keys - {k});
      order := front + [k];
      assert Elements(order) == Elements(front) + {k};
      assert forall x :: x in front ==> x in Elements(front);
    }
  }

  // ---------------------------------------------------------------- cache eviction

  function Expiries(cache: map<string, CacheEntry>): map<string, Time> {
    map id | id in cache :: cache[id].expiresAt
  }

  function EvictCache(cache: map<string, CacheEntry>, order: seq<string>): map<string, CacheEntry>
    requires Enumerates(order, cache.Keys)
  {
    if |cache| < CACHE_ENTRIES then cache
    else
      assert forall k :: k in order ==> k in Elements(order);
      cache - {OldestSeen(order, Expiries(cache)).0}
  }

  lemma EvictCacheExactly(cache: map<string, CacheEntry>, order: seq<string>)
    requires Enumerates(order, cache.Keys)
    requires "" !in cache && |cache| <= CACHE_ENTRIES
    ensures var after := EvictCache(cache, order);
            && (|cache| < CACHE_ENTRIES ==> after == cache)
            && (|cache| == CACHE_ENTRIES ==>
                  exists id :: id in cache && after == cache - {id} &&
                               forall k :: k in cache ==> cache[id].expiresAt <= cache[k].expiresAt)
            && |after| < CACHE_ENTRIES
  {
    if |cache| == CACHE_ENTRIES {
      assert forall k :: k in cache ==> k in Elements(order);
      assert |Elements(order)| == CACHE_ENTRIES;
      OldestSeenIsLeast(order, Expiries(cache));
      var id := OldestSeen(order, Expiries(cache)).0;
      assert (cache - {id}).Keys == cache.Keys - {id};
    }
  }

  // ---------------------------------------------------------------- the critical sections

  // The maps the mutex guards. In-flight calls are numbered.
  datatype Tables = Tables(
    cache: map<string, CacheEntry>,
    inflight: map<string, nat>,
    hostLastFetch: map<string, Time>)

  datatype Decision = Hit(metadata: Metadata) | Follow(call: nat) | Reject | Lead

  function Decide(t: Tables, id: string, host: string, now: Time): Decision {
    if id in t.cache && now < t.cache[id].expiresAt then Hit(t.cache[id].metadata)
    else if id in t.inflight then Follow(t.inflight[id])
    else if host in t.hostLastFetch && IsFresh(now, t.hostLastFetch[host]) then Reject
    else Lead
  }

  // Registering call number `call` as the leader for `id`.
  function Register(t: Tables, id: string, host: string, now: Time, call: nat, order: seq<string>): Tables
    requires Enumerates(order, FreshHosts(t.hostLastFetch, now).Keys)
  {
    t.(inflight := t.inflight[id := call],
       hostLastFetch := EvictHosts(t.hostLastFetch, order, now)[host := now])
  }

  // Ending the call: unregister, and cache a success of positive lifetime.
  function Unregister(t: Tables, id: string, result: FetchResult, now: Time, order: seq<string>): Tables
    requires Enumerates(order, t.cache.Keys)
  {
    var open := t.inflight - {id};
    if result.Fetched? && result.ttl > 0 then
      t.(inflight := open,
         cache := EvictCache(t.cache, order)[id := CacheEntry(result.metadata, now + result.ttl)])
    else t.(inflight := open)
  }

  lemma RegisterKeepsBound(t: Tables, id: string, host: string, now: Time, call: nat, order: seq<string>)
    requires Enumerates(order, FreshHosts(t.hostLastFetch, now).Keys)
    requires "" !in t.hostLastFetch && host != "" && |t.hostLastFetch| <= HOST_ENTRIES
    ensures var hosts := Register(t, id, host, now, call, order).hostLastFetch;
            "" !in hosts && |hosts| <= HOST_ENTRIES
  {
    EvictHostsExactly(t.hostLastFetch, order, now);
    AddOneKey(EvictHosts(t.hostLastFetch, order, now), host, now);
  }

  lemma UnregisterKeepsBound(t: Tables, id: string, result: FetchResult, now: Time, order: seq<string>)
    requires Enumerates(order, t.cache.Keys)
    requires "" !in t.cache && |t.cache| <= CACHE_ENTRIES
    ensures var cache := Unregister(t, id, result, now, order).cache;
            |cache| <= CACHE_ENTRIES && cache.Keys <= t.cache.Keys + {id}
  {
    if result.Fetched? && result.ttl > 0 {
      EvictCacheExactly(t.cache, order);
      AddOneKey(EvictCache(t.cache, order), id, CacheEntry(result.metadata, now + result.ttl));
    }
  }

  lemma AddOneKey<V>(m: map<string, V>, key: string, value: V)
    ensures m[key := value].Keys == m.Keys + {key} && |m[key := value]| <= |m| + 1
  {
    assert m[key := value].Keys == m.Keys + {key};
  }

  // ---------------------------------------------------------------- what the sections do

  // All keys but `key` are as before, apart from the ones gone.
  ghost predicate OthersKept<V>(before: map<string, V>, after: map<string, V>, key: string, gone: set<string>) {
    forall k :: k != key ==>
      (k in after <==> k in before && k !in gone) && (k in after ==> after[k] == before[k])
  }

  // A success of positive lifetime is cached from `now` on. A full cache gives
  // up one entry of least expiry for it.
  ghost predicate CacheAfter(before: map<string, CacheEntry>, after: map<string, CacheEntry>,
                             id: string, result: FetchResult, now: Time) {
    if result.Fetched? && result.ttl > 0 then
      && id in after && after[id] == CacheEntry(result.metadata, now + result.ttl)
      && (|before| < 1024 ==> OthersKept(before, after, id, {}))
      && (|before| == 1024 ==>
            exists gone :: gone in before && OthersKept(before, after, id, {gone}) &&
                           forall k :: k in before ==> before[gone].expiresAt <= before[k].expiresAt)
    else after == before
  }

  // The registering host is fetched at `now`. A full table gives up what was
  // fetched a second ago or earlier, or else one entry fetched the longest ago.
  ghost predicate HostsAfter(before: map<string, Time>, after: map<string, Time>, host: string, now: Time) {
    && host in after && after[host] == now
    && (|before| < 2048 ==> OthersKept(before, after, host, {}))
    && (|before| == 2048 && "" !in before ==>
          var stale := set h | h in before && now - before[h] >= 1_000_000_000;
          if stale != {} then OthersKept(before, after, host, stale)
          else exists gone :: gone in before && OthersKept(before, after, host, {gone}) &&
                              forall k :: k in before ==> before[gone] <= before[k])
  }

  ghost predicate TablesAfterEnd(before: Tables, after: Tables, id: string, result: FetchResult, now: Time) {
    && CacheAfter(before.cache, after.cache, id, result, now)
    && id !in after.inflight && OthersKept(before.inflight, after.inflight, id, {})
    && after.hostLastFetch == before.hostLastFetch
  }

  // A live entry answers. Without one an open call is followed, a host fetched
  // less than a second ago is refused, and otherwise the caller leads.
  ghost predicate Admission(before: Tables, after: Tables, id: string, host: string, now: Time, call: nat, d: Decision) {
    if id in before.cache && now < before.cache[id].expiresAt then
      d == Hit(before.cache[id].metadata) && after == before
    else if id in before.inflight then
      d == Follow(before.inflight[id]) && after == before
    else if host in before.hostLastFetch && now - before.hostLastFetch[host] < 1_000_000_000 then
      d == Reject && after == before
    else
      && d == Lead && after.cache == before.cache
      && id in after.inflight && after.inflight[id] == call && OthersKept(before.inflight, after.inflight, id, {})
      && HostsAfter(before.hostLastFetch, after.hostLastFetch, host, now)
  }

  lemma UnregisterExactly(t: Tables, id: string, result: FetchResult, now: Time, order: seq<string>)
    requires Enumerates(order, t.cache.Keys)
    requires "" !in t.cache && |t.cache| <= CACHE_ENTRIES
    ensures TablesAfterEnd(t, Unregister(t, id, result, now, order), id, result, now)
  {
    var after := Unregister(t, id, result, now, order);
    if result.Fetched? && result.ttl > 0 {
      CachedExactly(t.cache, order, id, result, now);
    }
    assert CacheAfter(t.cache, after.cache, id, result, now);
  }

  lemma CachedExactly(cache: map<string, CacheEntry>, order: seq<string>, id: string, result: FetchResult, now: Time)
    requires Enumerates(order, cache.Keys)
    requires "" !in cache && |cache| <= CACHE_ENTRIES && result.Fetched? && result.ttl > 0
    ensures CacheAfter(cache, EvictCache(cache, order)[id := CacheEntry(result.metadata, now + result.ttl)], id, result, now)
  {
    EvictCacheExactly(cache, order);
    var entry := CacheEntry(result.metadata, now + result.ttl);
    if |cache| == CACHE_ENTRIES {
      var gone :| gone in cache && EvictCache(cache, order) == cache - {gone} &&
                  forall k :: k in cache ==> cache[gone].expiresAt <= cache[k].expiresAt;
      OneReplaced(cache, id, entry, {gone});
    } else {
      OneReplaced(cache, id, entry, {});
      assert cache - {} == cache;
    }
  }

  lemma OneReplaced<V>(before: map<string, V>, key: string, value: V, gone: set<string>)
    ensures OthersKept(before, (before - gone)[key := value], key, gone)
  {
  }

  lemma RegisterExactly(hosts: map<string, Time>, order: seq<string>, host: string, now: Time)
    requires Enumerates(order, FreshHosts(hosts, now).Keys)
    ensures HostsAfter(hosts, EvictHosts(hosts, order, now)[host := now], host, now)
  {
    if |hosts| == HOST_ENTRIES && "" !in hosts {
      EvictHostsExactly(hosts, order, now);
      var stale := set h | h in hosts && now - hosts[h] >= 1_000_000_000;
      StaleGo(hosts, now, stale);
      if stale == {} {
        var gone :| gone in hosts && EvictHosts(hosts, order, now) == hosts - {gone} &&
                    forall k :: k in hosts ==> hosts[gone] <= hosts[k];
        OneReplaced(hosts, host, now, {gone});
      } else {
        OneReplaced(hosts, host, now, stale);
      }
    } else {
      OneReplaced(hosts, host, now, {});
      assert hosts - {} == hosts;
    }
  }

  lemma StaleGo(hosts: map<string, Time>, now: Time, stale: set<string>)
    requires stale == set h | h in hosts && now - hosts[h] >= 1_000_000_000
    ensures FreshHosts(hosts, now) == hosts - stale && (stale == {} <==> FreshHosts(hosts, now) == hosts)
  {
    if stale != {} {
      var h :| h in stale;
      assert h !in FreshHosts(hosts, now);
    }
  }

  lemma EnterExactly(t: Tables, id: string, host: string, now: Time, call: nat, order: seq<string>)
    requires Enumerates(order, FreshHosts(t.hostLastFetch, now).Keys)
    ensures var d := Decide(t, id, host, now);
            Admission(t, if d.Lead? then Register(t, id, host, now, call, order) else t, id, host, now, call, d)
  {
    RegisterExactly(t.hostLastFetch, order, host, now);
  }

  // The scan in this order ends on this entry.
  ghost predicate Picks(order: seq<string>, hosts: map<string, Time>, host: string) {
    (forall k :: k in order ==> k in hosts) && OldestSeen(order, hosts).0 == host
  }

  // Which entries a registration drops: stale ones, and the scan's choice when
  // the table is full of fresh ones.
  lemma EvictedExactly(hosts: map<string, Time>, order: seq<string>, now: Time, host: string)
    requires Enumerates(order, FreshHosts(hosts, now).Keys)
    requires "" !in hosts && host in hosts
    ensures host !in EvictHosts(hosts, order, now) <==>
            && |hosts| >= HOST_ENTRIES
            && (!IsFresh(now, hosts[host]) ||
                (|FreshHosts(hosts, now)| >= HOST_ENTRIES && Picks(order, FreshHosts(hosts, now), host)))
  {
  }

  // Registering one host can let another one's next fetch through early: a
  // lookup that is refused before leads afterwards exactly when its own
  // reading of the clock is within a second of the host's last fetch, and the
  // registration drops the host: the table is full, and the host is stale for
  // the registering reading, or every entry is fresh and the scan picks it.
  lemma EvictionForgetsSpacing(t: Tables, order: seq<string>, host: string, busy: string,
                               at: Time, now: Time, id: string, busyId: string, call: nat)
    requires Enumerates(order, FreshHosts(t.hostLastFetch, now).Keys)
    requires "" !in t.hostLastFetch && |t.hostLastFetch| <= HOST_ENTRIES
    requires host in t.hostLastFetch && host != busy
    requires id !in t.cache && id !in t.inflight && id != busyId
    ensures Decide(t, id, host, at) == Reject && Decide(Register(t, busyId, busy, now, call, order), id, host, at) == Lead
            <==>
            && IsFresh(at, t.hostLastFetch[host])
            && |t.hostLastFetch| == HOST_ENTRIES
            && (!IsFresh(now, t.hostLastFetch[host]) ||
                ((forall h :: h in t.hostLastFetch ==> IsFresh(now, t.hostLastFetch[h])) &&
                 Picks(order, t.hostLastFetch, host)))
  {
    var hosts, recent := t.hostLastFetch, FreshHosts(t.hostLastFetch, now);
    EvictedExactly(hosts, order, now, host);
    KeptUnchanged(hosts, order, now);
    if forall h :: h in hosts ==> IsFresh(now, hosts[h]) {
      assert recent == hosts;
    } else {
      FewerKeys(recent, hosts);
    }
  }

  lemma KeptUnchanged(hosts: map<string, Time>, order: seq<string>, now: Time)
    requires Enumerates(order, FreshHosts(hosts, now).Keys)
    ensures forall h :: h in EvictHosts(hosts, order, now) ==>
                          h in hosts && EvictHosts(hosts, order, now)[h] == hosts[h]
  {
  }

  // Over all orders of the visit the scan may pick exactly the least entries.
  lemma SomeOrderPicks(hosts: map<string, Time>, host: string)
    requires "" !in hosts && host in hosts
    ensures (exists order :: Enumerates(order, hosts.Keys) && Picks(order, hosts, host)) <==>
            forall h :: h in hosts ==> hosts[host] <= hosts[h]
  {
    if order :| Enumerates(order, hosts.Keys) && Picks(order, hosts, host) {
      assert forall h :: h in hosts ==> h in Elements(order);
      OldestSeenIsLeast(order, hosts);
    }
    if forall h :: h in hosts ==> hosts[host] <= hosts[h] {
      var rest := SomeOrder(hosts.Keys - {host});
      var order := [host] + rest;
      assert Elements(order) == {host} + Elements(rest);
      assert forall h :: h in rest ==> h in Elements(rest);
      FirstStaysOldest(host, rest, hosts);
      assert Enumerates(order, hosts.Keys) && Picks(order, hosts, host);
    }
  }

  lemma {:induction false} FirstStaysOldest(host: string, rest: seq<string>, hosts: map<string, Time>)
    requires host != "" && host in hosts && forall k :: k in rest ==> k in hosts && hosts[host] <= hosts[k]
    ensures OldestSeen([host] + rest, hosts) == (host, hosts[host])
  {
    var visited := [host] + rest;
    if rest == [] {
      assert visited[..0] == [] && OldestSeen(visited[..0], hosts).0 == "";
    } else {
      assert visited[..|visited| - 1] == [host] + rest[..|rest| - 1];
      assert rest[|rest| - 1] in rest;
      FirstStaysOldest(host, rest[..|rest| - 1], hosts);
    }
  }

  class MetadataTables {
    var cache: map<string, CacheEntry>
    var inflight: map<string, nat>
    var hostLastFetch: map<string, Time>

    constructor ()
      ensures Snapshot() == Tables(map[], map[], map[])
    {
      cache, inflight, hostLastFetch := map[], map[], map[];
    }

    function Snapshot(): Tables
      reads this
    {
      Tables(cache, inflight, hostLastFetch)
    }

    method EvictHostRateEntryLocked(now: Time) returns (ghost order: seq<string>)
      modifies this`hostLastFetch
      ensures Enumerates(order, FreshHosts(old(hostLastFetch), now).Keys)
      ensures hostLastFetch == EvictHosts(old(hostLastFetch), order, now)
    {
      ghost var before := hostLastFetch;
      ghost var recent := FreshHosts(before, now);
      if |hostLastFetch| < HOST_ENTRIES {
        order := SomeOrder(recent.Keys);
        return;
      }
      var oldestHost, oldestFetch := "", 0;
      var unvisited := hostLastFetch.Keys;
      order := [];
      while unvisited != {}
        invariant unvisited <= before.Keys
        invariant Scanned(order, recent.Keys - unvisited, recent, oldestHost, oldestFetch)
        invariant forall h :: h in hostLastFetch <==> h in unvisited || h in recent
        invariant forall h :: h in hostLastFetch ==> h in before && hostLastFetch[h] == before[h]
        decreases unvisited
      {
        var host :| host in unvisited;
        ghost var scanned := recent.Keys - unvisited;
        VisitOne(recent.Keys, unvisited, host);
        unvisited := unvisited - {host};
        var fetchedAt := hostLastFetch[host];
        if now - fetchedAt >= HOST_RETRY_DELAY {
          hostLastFetch := hostLastFetch - {host};
        } else {
          assert fetchedAt == recent[host];
          ScanStep(order, scanned, recent, oldestHost, oldestFetch, host);
          if oldestHost == "" || fetchedAt < oldestFetch {
            oldestHost, oldestFetch := host, fetchedAt;
          }
          order := order + [host];
        }
      }
      assert hostLastFetch == recent && recent.Keys - unvisited == recent.Keys;
      if |hostLastFetch| >= HOST_ENTRIES && oldestHost != "" {
        hostLastFetch := hostLastFetch - {oldestHost};
      }
    }

    method EvictCacheEntryLocked() returns (ghost order: seq<string>)
      modifies this`cache
      ensures Enumerates(order, old(cache).Keys)
      ensures cache == EvictCache(old(cache), order)
    {
      if |cache| < CACHE_ENTRIES {
        order := SomeOrder(cache.Keys);
        return;
      }
      ghost var expiries := Expiries(cache);
      assert expiries.Keys == cache.Keys;
      var oldestId, oldestExpiry := "", 0;
      var unvisited := cache.Keys;
      order := [];
      while unvisited != {}
        invariant cache == old(cache) && unvisited <= cache.Keys
        invariant Scanned(order, expiries.Keys - unvisited, expiries, oldestId, oldestExpiry)
        decreases unvisited
      {
        var id :| id in unvisited;
        ScanStep(order, expiries.Keys - unvisited, expiries, oldestId, oldestExpiry, id);
        VisitOne(expiries.Keys, unvisited, id);
        unvisited := unvisited - {id};
        if oldestId == "" || cache[id].expiresAt < oldestExpiry {
          oldestId, oldestExpiry := id, cache[id].expiresAt;
        }
        order := order + [id];
      }
      assert expiries.Keys - unvisited == cache.Keys;
      cache := cache - {oldestId};
    }

    // The first locked section of Resolve, from the cache lookup to the unlock.
    method Enter(id: string, host: string, now: Time, call: nat) returns (d: Decision, ghost order: seq<string>)
      modifies this
      ensures d == Decide(old(Snapshot()), id, host, now)
      ensures Enumerates(order, FreshHosts(old(hostLastFetch), now).Keys)
      ensures Snapshot() == if d.Lead? then Register(old(Snapshot()), id, host, now, call, order)
                            else old(Snapshot())
      ensures Admission(old(Snapshot()), Snapshot(), id, host, now, call, d)
    {
      ghost var before := Snapshot();
      order := SomeOrder(FreshHosts(hostLastFetch, now).Keys);
      if id in cache && now < cache[id].expiresAt {
        return Hit(cache[id].metadata), order;
      }
      if id in inflight {
        return Follow(inflight[id]), order;
      }
      if host in hostLastFetch && now - hostLastFetch[host] < HOST_RETRY_DELAY {
        return Reject, order;
      }
      inflight := inflight[id := call];
      order := EvictHostRateEntryLocked(now);
      hostLastFetch := hostLastFetch[host := now];
      d := Lead;
      EnterExactly(before, id, host, now, call, order);
    }

    // The second locked section of Resolve, up to closing the call.
    method Complete(id: string, result: FetchResult, now: Time) returns (ghost order: seq<string>)
      modifies this
      ensures Enumerates(order, old(cache).Keys)
      ensures Snapshot() == Unregister(old(Snapshot()), id, result, now, order)
    {
      inflight := inflight - {id};
      if result.Fetched? && result.ttl > 0 {
        order := EvictCacheEntryLocked();
        cache := cache[id := CacheEntry(result.metadata, now + result.ttl)];
      } else {
        order := SomeOrder(cache.Keys);
      }
    }
  }
}
