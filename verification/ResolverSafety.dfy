// Safety of the resolver over whole runs: one flight per client, bounded
// tables and fetches, answers that come from real fetches, one close per call,
// and the spacing of fetches to one host.

module ResolverSafety {
  import opened Prelude
  import opened Urls
  import opened ClientMetadata
  import opened ResolverTables
  import opened ResolverProtocol
  import CacheControl

  // ---------------------------------------------------------------- fetch slots

  function CountFetching(procs: seq<Process>): nat {
    if procs == [] then 0
    else CountFetching(procs[..|procs| - 1]) + if procs[|procs| - 1].Fetching? then 1 else 0
  }

  lemma {:induction false} CountAfterUpdate(procs: seq<Process>, p: nat, proc: Process)
    requires p < |procs|
    ensures CountFetching(procs[p := proc]) + (if procs[p].Fetching? then 1 else 0)
            == CountFetching(procs) + (if proc.Fetching? then 1 else 0)
    ensures procs[p].Fetching? ==> CountFetching(procs) > 0
  {
    var n := |procs| - 1;
    if p == n {
      assert procs[p := proc][..n] == procs[..n];
    } else {
      CountAfterUpdate(procs[..n], p, proc);
      assert procs[p := proc][..n] == procs[..n][p := proc];
    }
  }

  ghost predicate SlotsMatch(s: State) {
    s.slots == CountFetching(s.procs) <= FETCH_CONCURRENCY
  }

  lemma SlotsMatchStep(lib: UrlLibrary, s: State, step: Step)
    requires SlotsMatch(s) && Enabled(s, step)
    ensures SlotsMatch(Apply(lib, s, step))
  {
    var s' := Apply(lib, s, step);
    match step
    case Arrive(id) => assert s'.procs[..|s.procs|] == s.procs;
    case Tick(_) =>
    case _ => CountAfterUpdate(s.procs, step.p, s'.procs[step.p]);
  }

  // ---------------------------------------------------------------- bounds

  ghost predicate ValidId(lib: UrlLibrary, id: string) {
    ValidateClientIdUrl(lib, id).Some?
  }

  // No accepted client id has an empty host name.
  ghost predicate HostsNamed(lib: UrlLibrary) {
    forall id :: ValidId(lib, id) ==> HostOf(lib, id) != ""
  }

  ghost predicate Bounded(lib: UrlLibrary, s: State) {
    && (forall p :: 0 <= p < |s.procs| ==> s.procs[p].Ended() || ValidId(lib, s.procs[p].id))
    && (forall id :: id in s.tables.cache ==> ValidId(lib, id))
    && |s.tables.cache| <= CACHE_ENTRIES
    && (HostsNamed(lib) ==> "" !in s.tables.hostLastFetch && |s.tables.hostLastFetch| <= HOST_ENTRIES)
  }

  lemma BoundedEnter(lib: UrlLibrary, s: State, p: nat, order: seq<string>)
    requires Bounded(lib, s) && Enabled(s, Enter(p, order))
    ensures Bounded(lib, ApplyEnter(lib, s, p, order))
  {
    var Arrived(id, now) := s.procs[p];
    assert ValidId(lib, id);
    if HostsNamed(lib) {
      RegisterKeepsBound(s.tables, id, HostOf(lib, id), now, |s.calls|, order);
    }
  }

  lemma BoundedComplete(lib: UrlLibrary, s: State, p: nat, order: seq<string>)
    requires Lawful(lib) && Bounded(lib, s) && Enabled(s, Complete(p, order))
    ensures Bounded(lib, ApplyComplete(s, p, order))
  {
    assert ValidId(lib, s.procs[p].id);
    EmptyIdInvalid(lib);
    UnregisterKeepsBound(s.tables, s.procs[p].id, s.calls[s.procs[p].call].result.value, s.clock, order);
  }

  lemma EmptyIdInvalid(lib: UrlLibrary)
    requires Lawful(lib)
    ensures !ValidId(lib, "")
  {
  }

  lemma BoundedStep(lib: UrlLibrary, s: State, step: Step)
    requires Lawful(lib) && Bounded(lib, s) && Enabled(s, step)
    ensures Bounded(lib, Apply(lib, s, step))
  {
    if step.Enter? {
      BoundedEnter(lib, s, step.p, step.order);
    } else if step.Complete? {
      BoundedComplete(lib, s, step.p, step.order);
    } else if step.Arrive? {
      assert Apply(lib, s, step).tables == s.tables;
    } else if !step.Tick? {
      BoundedOther(lib, s, Apply(lib, s, step), step.p);
    }
  }

  // The tables stay, and one call moves on or ends.
  lemma BoundedOther(lib: UrlLibrary, s: State, s': State, p: nat)
    requires Bounded(lib, s) && s'.tables == s.tables && p < |s.procs| == |s'.procs|
    requires s'.procs == s.procs[p := s'.procs[p]]
    requires !s.procs[p].Ended() && s'.procs[p].id == s.procs[p].id
    ensures Bounded(lib, s')
  {
  }

  // ---------------------------------------------------------------- where answers come from

  ghost predicate WasInserted(log: seq<Event>, id: string, entry: CacheEntry) {
    exists at :: Inserted(id, at, entry) in log
  }

  ghost predicate EventOk(lib: UrlLibrary, log: seq<Event>, e: Event) {
    match e
    case Obtained(id, m) => Admitted(lib, id, m)
    case Inserted(id, at, entry) =>
      0 < entry.expiresAt - at <= CacheControl.MAXIMUM_TTL && Obtained(id, entry.metadata) in log
    case Served(id, now, entry) => now < entry.expiresAt && WasInserted(log, id, entry)
    case _ => true
  }

  ghost predicate EventsOk(lib: UrlLibrary, log: seq<Event>) {
    forall e :: e in log ==> EventOk(lib, log, e)
  }

  ghost predicate CacheOk(log: seq<Event>, cache: map<string, CacheEntry>) {
    forall id :: id in cache ==> WasInserted(log, id, cache[id])
  }

  ghost predicate Sourced(lib: UrlLibrary, s: State) {
    && EventsOk(lib, s.log)
    && CacheOk(s.log, s.tables.cache)
    && (forall c :: 0 <= c < |s.calls| && s.calls[c].result.Some? ==> ResultSourced(s, c))
    && (forall p :: 0 <= p < |s.procs| ==> AnswerSourced(s, p))
  }

  ghost predicate ResultSourced(s: State, c: nat)
    requires c < |s.calls| && s.calls[c].result.Some?
  {
    match s.calls[c].result.value
    case Failed(_) => true
    case Fetched(m, ttl) => ttl <= CacheControl.MAXIMUM_TTL && Obtained(s.calls[c].id, m) in s.log
  }

  ghost predicate AnswerSourced(s: State, p: nat)
    requires p < |s.procs|
  {
    s.procs[p].Returned? && s.procs[p].answer.Ok? ==> Obtained(s.procs[p].id, s.procs[p].answer.value) in s.log
  }

  // Adding well-sourced events keeps everything sourced that was.
  lemma LogGrows(lib: UrlLibrary, log: seq<Event>, more: seq<Event>)
    requires forall e :: e in log ==> EventOk(lib, log, e)
    requires forall e :: e in more ==> EventOk(lib, log + more, e)
    ensures forall e :: e in log + more ==> EventOk(lib, log + more, e)
    ensures forall id, entry :: WasInserted(log, id, entry) ==> WasInserted(log + more, id, entry)
  {
    forall id, entry | WasInserted(log, id, entry) ensures WasInserted(log + more, id, entry) {
      var at :| Inserted(id, at, entry) in log;
      assert Inserted(id, at, entry) in log + more;
    }
    forall e | e in log + more ensures EventOk(lib, log + more, e) {
      if e in log { assert EventOk(lib, log, e); }
    }
  }

  lemma SourcedStep(lib: UrlLibrary, s: State, step: Step)
    requires CallsAgree(s) && Sourced(lib, s) && Enabled(s, step)
    ensures Sourced(lib, Apply(lib, s, step))
  {
    match step
    case Enter(p, order) => SourcedEnter(lib, s, p, order);
    case FetchEnds(p, response) => SourcedFetch(lib, s, p, response);
    case Complete(p, order) =>
      assert ProcessOk(s, p);
      SourcedComplete(lib, s, p, order);
    case _ => SourcedOther(lib, s, step);
  }

  lemma SourcedEnter(lib: UrlLibrary, s: State, p: nat, order: seq<string>)
    requires Sourced(lib, s) && Enabled(s, Enter(p, order))
    ensures Sourced(lib, ApplyEnter(lib, s, p, order))
  {
    var s' := ApplyEnter(lib, s, p, order);
    var Arrived(id, now) := s.procs[p];
    match Decide(s.tables, id, HostOf(lib, id), now)
    case Hit(m) =>
      CachedIsObtained(lib, s, id);
      SourcedMore(lib, s, s', [Served(id, now, s.tables.cache[id])], p);
    case Lead =>
      var host := HostOf(lib, id);
      var evicted := EvictionFor(s.tables.hostLastFetch, s'.tables.hostLastFetch, now);
      SourcedMore(lib, s, s', [evicted, Recorded(host, now)], p);
    case _ =>
      assert s.log + [] == s.log;
      SourcedMore(lib, s, s', [], p);
  }

  lemma CachedIsObtained(lib: UrlLibrary, s: State, id: string)
    requires Sourced(lib, s) && id in s.tables.cache
    ensures Obtained(id, s.tables.cache[id].metadata) in s.log
    ensures forall more :: WasInserted(s.log + more, id, s.tables.cache[id])
  {
    var at :| Inserted(id, at, s.tables.cache[id]) in s.log;
    assert EventOk(lib, s.log, Inserted(id, at, s.tables.cache[id]));
    forall more ensures WasInserted(s.log + more, id, s.tables.cache[id]) {
      assert Inserted(id, at, s.tables.cache[id]) in s.log + more;
    }
  }

  // A step that changes one process, may add a call without a result, and
  // leaves the cache alone.
  lemma SourcedMore(lib: UrlLibrary, s: State, s': State, more: seq<Event>, p: nat)
    requires Sourced(lib, s) && p < |s.procs| == |s'.procs|
    requires s'.log == s.log + more && s'.tables.cache == s.tables.cache
    requires forall e :: e in more ==> EventOk(lib, s'.log, e)
    requires forall q :: 0 <= q < |s.procs| && q != p ==> s'.procs[q] == s.procs[q]
    requires AnswerSourced(s', p)
    requires forall c :: 0 <= c < |s'.calls| && s'.calls[c].result.Some? ==> c < |s.calls| && s'.calls[c] == s.calls[c]
    ensures Sourced(lib, s')
  {
    LogGrows(lib, s.log, more);
    forall c | 0 <= c < |s'.calls| && s'.calls[c].result.Some? ensures ResultSourced(s', c) {
      assert ResultSourced(s, c);
    }
    forall q | 0 <= q < |s'.procs| ensures AnswerSourced(s', q) {
      assert AnswerSourced(s, q);
    }
  }

  lemma SourcedFetch(lib: UrlLibrary, s: State, p: nat, response: Response)
    requires CallsAgree(s) && Sourced(lib, s) && Enabled(s, FetchEnds(p, response))
    ensures Sourced(lib, Apply(lib, s, FetchEnds(p, response)))
  {
    var s' := Apply(lib, s, FetchEnds(p, response));
    var more := s'.log[|s.log|..];
    assert s'.log == s.log + more;
    FetchContract(lib, s.procs[p].id, response);
    assert ProcessOk(s, p);
    LogGrows(lib, s.log, more);
    forall c | 0 <= c < |s'.calls| && s'.calls[c].result.Some? ensures ResultSourced(s', c) {
      assert c == s.procs[p].call || ResultSourced(s, c);
    }
    forall q | 0 <= q < |s'.procs| ensures AnswerSourced(s', q) {
      assert AnswerSourced(s, q);
    }
  }

  lemma CacheAfterComplete(t: Tables, log: seq<Event>, more: seq<Event>, id: string, result: FetchResult, now: Time, order: seq<string>)
    requires Enumerates(order, t.cache.Keys)
    requires forall k :: k in t.cache ==> WasInserted(log, k, t.cache[k])
    requires result.Fetched? && result.ttl > 0 ==>
               Inserted(id, now, CacheEntry(result.metadata, now + result.ttl)) in more
    ensures var after := Unregister(t, id, result, now, order).cache;
            forall k :: k in after ==> WasInserted(log + more, k, after[k])
  {
    var after := Unregister(t, id, result, now, order).cache;
    forall k | k in after ensures WasInserted(log + more, k, after[k]) {
      if k in t.cache && after[k] == t.cache[k] {
        var at :| Inserted(k, at, t.cache[k]) in log;
        assert Inserted(k, at, after[k]) in log + more;
      } else {
        assert Inserted(id, now, after[k]) in log + more;
      }
    }
  }

  // What completing a call logs, given where its result came from.
  lemma CompleteLogs(lib: UrlLibrary, s: State, p: nat, order: seq<string>) returns (more: seq<Event>)
    requires Enabled(s, Complete(p, order)) && s.procs[p].call < |s.calls| && s.calls[s.procs[p].call].id == s.procs[p].id
    requires ResultSourced(s, s.procs[p].call)
    ensures ApplyComplete(s, p, order).log == s.log + more
    ensures forall e :: e in more ==> EventOk(lib, s.log + more, e)
    ensures var result := s.calls[s.procs[p].call].result.value;
            result.Fetched? && result.ttl > 0 ==>
              Inserted(s.procs[p].id, s.clock, CacheEntry(result.metadata, s.clock + result.ttl)) in more
  {
    var Finishing(id, c) := s.procs[p];
    var result := s.calls[c].result.value;
    if result.Fetched? && result.ttl > 0 {
      var insertion := Inserted(id, s.clock, CacheEntry(result.metadata, s.clock + result.ttl));
      more := [insertion, Closed(c, p)];
      assert Obtained(id, result.metadata) in s.log + more;
      assert s.log + [insertion] + [Closed(c, p)] == s.log + more;
    } else {
      more := [Closed(c, p)];
      assert s.log + [] + [Closed(c, p)] == s.log + more;
    }
  }

  lemma SourcedComplete(lib: UrlLibrary, s: State, p: nat, order: seq<string>)
    requires Sourced(lib, s) && Enabled(s, Complete(p, order))
    requires s.calls[s.procs[p].call].id == s.procs[p].id
    ensures Sourced(lib, ApplyComplete(s, p, order))
  {
    assert ResultSourced(s, s.procs[p].call);
    var more := CompleteLogs(lib, s, p, order);
    var s' := ApplyComplete(s, p, order);
    assert EventsOk(lib, s.log + more) by {
      LogGrows(lib, s.log, more);
    }
    assert CacheOk(s.log + more, s'.tables.cache) by {
      CacheAfterComplete(s.tables, s.log, more, s.procs[p].id, s.calls[s.procs[p].call].result.value, s.clock, order);
    }
    AnswersAfterComplete(s, p, order, more);
    SourcedFromParts(lib, s', s.log + more);
  }

  lemma SourcedFromParts(lib: UrlLibrary, s: State, log: seq<Event>)
    requires s.log == log && EventsOk(lib, log) && CacheOk(log, s.tables.cache)
    requires forall c :: 0 <= c < |s.calls| && s.calls[c].result.Some? ==> ResultSourced(s, c)
    requires forall p :: 0 <= p < |s.procs| ==> AnswerSourced(s, p)
    ensures Sourced(lib, s)
  {
  }

  lemma AnswersAfterComplete(s: State, p: nat, order: seq<string>, more: seq<Event>)
    requires Enabled(s, Complete(p, order)) && s.procs[p].call < |s.calls| && s.calls[s.procs[p].call].id == s.procs[p].id
    requires ApplyComplete(s, p, order).log == s.log + more
    requires forall c :: 0 <= c < |s.calls| && s.calls[c].result.Some? ==> ResultSourced(s, c)
    requires forall q :: 0 <= q < |s.procs| ==> AnswerSourced(s, q)
    ensures var s' := ApplyComplete(s, p, order);
            && (forall c :: 0 <= c < |s'.calls| && s'.calls[c].result.Some? ==> ResultSourced(s', c))
            && (forall q :: 0 <= q < |s'.procs| ==> AnswerSourced(s', q))
  {
    var s' := ApplyComplete(s, p, order);
    forall c | 0 <= c < |s'.calls| && s'.calls[c].result.Some? ensures ResultSourced(s', c) {
      assert ResultSourced(s, c);
    }
    assert ResultSourced(s, s.procs[p].call);
    forall q | 0 <= q < |s'.procs| ensures AnswerSourced(s', q) {
      assert AnswerSourced(s, q);
    }
  }

  lemma SourcedOther(lib: UrlLibrary, s: State, step: Step)
    requires CallsAgree(s) && Sourced(lib, s) && Enabled(s, step)
    requires !step.Enter? && !step.FetchEnds? && !step.Complete?
    ensures Sourced(lib, Apply(lib, s, step))
  {
    var s' := Apply(lib, s, step);
    forall c | 0 <= c < |s'.calls| && s'.calls[c].result.Some? ensures ResultSourced(s', c) {
      assert s.calls[c].result.Some? ==> ResultSourced(s, c);
    }
    forall q | 0 <= q < |s'.procs| ensures AnswerSourced(s', q) {
      if q < |s.procs| {
        assert AnswerSourced(s, q) && ProcessOk(s, q);
        if step == FollowerReturns(q) {
          assert ResultSourced(s, s.procs[q].call);
        }
      }
    }
  }

  // ---------------------------------------------------------------- one close per call

  ghost predicate ClosedBy(s: State, c: nat, p: nat) {
    c < |s.calls| && s.calls[c].closed && s.calls[c].leader == p
  }

  ghost predicate ClosedOnce(s: State) {
    && (forall c: nat, p: nat :: Closed(c, p) in s.log <==> ClosedBy(s, c, p))
    && (forall i, j :: 0 <= i < j < |s.log| && s.log[i].Closed? ==> s.log[i] != s.log[j])
  }

  lemma ClosedOnceStep(lib: UrlLibrary, s: State, step: Step)
    requires CallsAgree(s) && ClosedOnce(s) && Enabled(s, step)
    ensures ClosedOnce(Apply(lib, s, step))
  {
    var s' := Apply(lib, s, step);
    if step.Complete? {
      ClosedOnceComplete(s, step.p, step.order);
    } else {
      ClosedOnceMore(s, s', s'.log[|s.log|..]);
    }
  }

  lemma ClosedOnceComplete(s: State, p: nat, order: seq<string>)
    requires CallsAgree(s) && ClosedOnce(s) && Enabled(s, Complete(p, order))
    ensures ClosedOnce(ApplyComplete(s, p, order))
  {
    assert ProcessOk(s, p);
    var s' := ApplyComplete(s, p, order);
    var c := s.procs[p].call;
    ClosedOnceClose(s, s', s'.log[|s.log|..|s'.log| - 1], c, p);
  }

  // A step that closes one call.
  lemma ClosedOnceClose(s: State, s': State, more: seq<Event>, c: nat, p: nat)
    requires ClosedOnce(s) && s'.log == s.log + more + [Closed(c, p)]
    requires forall e :: e in more ==> !e.Closed?
    requires c < |s.calls| && !s.calls[c].closed && s.calls[c].leader == p
    requires s'.calls == s.calls[c := s.calls[c].(closed := true)]
    ensures ClosedOnce(s')
  {
    assert forall q: nat :: Closed(c, q) in s.log <==> ClosedBy(s, c, q);
    var n := |s.log| + |more|;
    assert forall k :: |s.log| <= k < n ==> s'.log[k] in more;
    forall d: nat, q: nat ensures Closed(d, q) in s'.log <==> ClosedBy(s', d, q) {
      assert Closed(d, q) in s'.log <==> Closed(d, q) in s.log || (d == c && q == p);
      assert ClosedBy(s', d, q) <==> ClosedBy(s, d, q) || (d == c && q == p);
    }
    forall i, j | 0 <= i < j < |s'.log| && s'.log[i].Closed? ensures s'.log[i] != s'.log[j] {
      assert i < |s.log|;
      assert s'.log[i] in s.log;
    }
  }

  // A step that closes nothing.
  lemma ClosedOnceMore(s: State, s': State, more: seq<Event>)
    requires ClosedOnce(s) && s'.log == s.log + more
    requires forall e :: e in more ==> !e.Closed?
    requires |s.calls| <= |s'.calls|
    requires forall c :: 0 <= c < |s.calls| ==>
               s'.calls[c].closed == s.calls[c].closed && s'.calls[c].leader == s.calls[c].leader
    requires forall c :: |s.calls| <= c < |s'.calls| ==> !s'.calls[c].closed
    ensures ClosedOnce(s')
  {
    assert forall k :: |s.log| <= k < |s'.log| ==> s'.log[k] in more;
    forall c: nat, p: nat ensures Closed(c, p) in s'.log <==> ClosedBy(s', c, p) {
      assert Closed(c, p) in s'.log <==> Closed(c, p) in s.log;
      assert ClosedBy(s, c, p) <==> ClosedBy(s', c, p);
    }
  }

  // ---------------------------------------------------------------- spacing of fetches to one host

  ghost predicate Undisturbed(log: seq<Event>, host: string, from: nat, to: nat)
    requires to <= |log|
  {
    forall k :: from < k < to && log[k].Evicted? ==> host !in log[k].hosts
  }

  ghost predicate Spaced(log: seq<Event>) {
    forall i, j :: 0 <= i < j < |log| && log[i].Recorded? && log[j].Recorded? && log[i].host == log[j].host &&
                   Undisturbed(log, log[i].host, i, j) ==>
      log[i].at + HOST_RETRY_DELAY <= log[j].at
  }

  // Unless evicted since, a recorded time is still in the table or superseded
  // there by a later one.
  ghost predicate Remembered(log: seq<Event>, hosts: map<string, Time>) {
    forall i :: 0 <= i < |log| && log[i].Recorded? && Undisturbed(log, log[i].host, i, |log|) ==>
      log[i].host in hosts && log[i].at <= hosts[log[i].host]
  }

  lemma UndisturbedPrefix(log: seq<Event>, more: seq<Event>, host: string, from: nat, to: nat)
    requires to <= |log|
    ensures Undisturbed(log + more, host, from, to) == Undisturbed(log, host, from, to)
  {
    assert forall k :: 0 <= k < |log| ==> (log + more)[k] == log[k];
  }

  lemma SpacedGrows(log: seq<Event>, hosts: map<string, Time>, more: seq<Event>)
    requires Spaced(log) && Remembered(log, hosts)
    requires forall e :: e in more ==> !e.Recorded? && !e.Evicted?
    ensures Spaced(log + more) && Remembered(log + more, hosts)
  {
    var log' := log + more;
    assert forall k :: |log| <= k < |log'| ==> log'[k] in more;
    forall i, j | 0 <= i < j < |log'| && log'[i].Recorded? && log'[j].Recorded? && log'[i].host == log'[j].host &&
                  Undisturbed(log', log'[i].host, i, j)
      ensures log'[i].at + HOST_RETRY_DELAY <= log'[j].at {
      UndisturbedPrefix(log, more, log'[i].host, i, j);
    }
    forall i | 0 <= i < |log'| && log'[i].Recorded? && Undisturbed(log', log'[i].host, i, |log'|)
      ensures log'[i].host in hosts && log'[i].at <= hosts[log'[i].host] {
      UndisturbedPrefix(log, more, log'[i].host, i, |log|);
      assert Undisturbed(log', log'[i].host, i, |log|);
    }
  }

  lemma SpacedRegister(log: seq<Event>, hosts: map<string, Time>, order: seq<string>, host: string, now: Time)
    requires Spaced(log) && Remembered(log, hosts)
    requires Enumerates(order, FreshHosts(hosts, now).Keys)
    requires host in hosts ==> !IsFresh(now, hosts[host])
    ensures var after := EvictHosts(hosts, order, now)[host := now];
            var log' := log + [EvictionFor(hosts, after, now), Recorded(host, now)];
            Spaced(log') && Remembered(log', after)
  {
    var after := EvictHosts(hosts, order, now)[host := now];
    var evicted := EvictionFor(hosts, after, now);
    var more := [evicted, Recorded(host, now)];
    var log' := log + more;
    var n := |log|;
    KeptUnchanged(hosts, order, now);
    assert log'[n] == evicted && log'[n + 1] == Recorded(host, now);
    forall i, j | 0 <= i < j < |log'| && log'[i].Recorded? && log'[j].Recorded? && log'[i].host == log'[j].host &&
                  Undisturbed(log', log'[i].host, i, j)
      ensures log'[i].at + HOST_RETRY_DELAY <= log'[j].at {
      assert i < n && log'[i] == log[i];
      if j < n {
        UndisturbedPrefix(log, more, log'[i].host, i, j);
      } else {
        UndisturbedPrefix(log, more, host, i, n);
        assert Undisturbed(log', host, i, n);
      }
    }
    forall i | 0 <= i < |log'| && log'[i].Recorded? && Undisturbed(log', log'[i].host, i, |log'|)
      ensures log'[i].host in after && log'[i].at <= after[log'[i].host] {
      if i < n {
        var h := log[i].host;
        assert log'[i] == log[i];
        UndisturbedPrefix(log, more, h, i, n);
        assert Undisturbed(log', h, i, n);
        assert h !in evicted.hosts;
      }
    }
  }

  // An eviction that found the table not full of fresh entries dropped only
  // hosts last fetched a second or more before its reading of the clock.
  ghost predicate StaleEvicted(log: seq<Event>) {
    forall i, k :: 0 <= i < k < |log| && EvictsFirst(log, i, k) && !log[k].crowded ==>
      log[i].at + HOST_RETRY_DELAY <= log[k].now
  }

  // The first eviction of the host recorded at i is at k.
  ghost predicate EvictsFirst(log: seq<Event>, i: nat, k: nat)
    requires i < k < |log|
  {
    && log[i].Recorded? && log[k].Evicted? && log[i].host in log[k].hosts
    && Undisturbed(log, log[i].host, i, k)
  }

  lemma StaleEvictedGrows(log: seq<Event>, more: seq<Event>)
    requires StaleEvicted(log) && forall e :: e in more ==> !e.Recorded? && !e.Evicted?
    ensures StaleEvicted(log + more)
  {
    var log' := log + more;
    assert forall k :: |log| <= k < |log'| ==> log'[k] in more;
    forall i, k | 0 <= i < k < |log'| && EvictsFirst(log', i, k) && !log'[k].crowded
      ensures log'[i].at + HOST_RETRY_DELAY <= log'[k].now {
      UndisturbedPrefix(log, more, log'[i].host, i, k);
      assert EvictsFirst(log, i, k);
    }
  }

  lemma StaleEvictedRegister(log: seq<Event>, hosts: map<string, Time>, order: seq<string>, host: string, now: Time)
    requires StaleEvicted(log) && Remembered(log, hosts)
    requires Enumerates(order, FreshHosts(hosts, now).Keys)
    ensures var after := EvictHosts(hosts, order, now)[host := now];
            StaleEvicted(log + [EvictionFor(hosts, after, now), Recorded(host, now)])
  {
    var after := EvictHosts(hosts, order, now)[host := now];
    var more := [EvictionFor(hosts, after, now), Recorded(host, now)];
    var log', n := log + more, |log|;
    assert log'[n] == more[0] && log'[n + 1] == more[1];
    forall i, k | 0 <= i < k < |log'| && EvictsFirst(log', i, k) && !log'[k].crowded
      ensures log'[i].at + HOST_RETRY_DELAY <= log'[k].now {
      assert k <= n && log'[i] == log[i];
      UndisturbedPrefix(log, more, log[i].host, i, k);
      if k < n {
        assert EvictsFirst(log, i, k);
      } else {
        assert Undisturbed(log, log[i].host, i, n);
        assert !IsFresh(now, hosts[log[i].host]);
      }
    }
  }

  ghost predicate HostsSpaced(s: State) {
    Spaced(s.log) && Remembered(s.log, s.tables.hostLastFetch) && StaleEvicted(s.log)
  }

  lemma HostsSpacedStep(lib: UrlLibrary, s: State, step: Step)
    requires HostsSpaced(s) && Enabled(s, step)
    ensures HostsSpaced(Apply(lib, s, step))
  {
    var s' := Apply(lib, s, step);
    if step.Enter? && s'.tables != s.tables {
      var host, now := HostOf(lib, s.procs[step.p].id), s.procs[step.p].now;
      SpacedRegister(s.log, s.tables.hostLastFetch, step.order, host, now);
      StaleEvictedRegister(s.log, s.tables.hostLastFetch, step.order, host, now);
    } else {
      var more := s'.log[|s.log|..];
      assert s'.log == s.log + more;
      SpacedGrows(s.log, s.tables.hostLastFetch, more);
      StaleEvictedGrows(s.log, more);
    }
  }

  // ---------------------------------------------------------------- every reachable state

  ghost predicate Invariant(lib: UrlLibrary, s: State) {
    CallsAgree(s) && SlotsMatch(s) && Bounded(lib, s) && Sourced(lib, s) && ClosedOnce(s) && HostsSpaced(s)
  }

  lemma InvariantStep(lib: UrlLibrary, s: State, step: Step)
    requires Lawful(lib) && Invariant(lib, s) && Enabled(s, step)
    ensures Invariant(lib, Apply(lib, s, step))
  {
    CallsAgreeStep(lib, s, step);
    SlotsMatchStep(lib, s, step);
    BoundedStep(lib, s, step);
    SourcedStep(lib, s, step);
    ClosedOnceStep(lib, s, step);
    HostsSpacedStep(lib, s, step);
  }

  lemma {:induction false} InvariantRun(lib: UrlLibrary, s: State, steps: seq<Step>)
    requires Lawful(lib) && Invariant(lib, s) && Runs(lib, s, steps)
    ensures Invariant(lib, After(lib, s, steps))
    decreases |steps|
  {
    if steps != [] {
      InvariantStep(lib, s, steps[0]);
      InvariantRun(lib, Apply(lib, s, steps[0]), steps[1..]);
    }
  }

  lemma InvariantReachable(lib: UrlLibrary, clock: Time, steps: seq<Step>)
    requires Lawful(lib) && Runs(lib, Init(clock), steps)
    ensures Invariant(lib, After(lib, Init(clock), steps))
  {
    InvariantRun(lib, Init(clock), steps);
  }

  // Main results, in the terms of a finished run.

  // Between registration and completion for this client.
  ghost predicate LeadsFor(s: State, p: nat, id: string)
    requires p < |s.procs|
  {
    s.procs[p].Leads() && s.procs[p].id == id
  }

  lemma SingleFlight(lib: UrlLibrary, clock: Time, steps: seq<Step>, id: string)
    requires Lawful(lib) && Runs(lib, Init(clock), steps)
    ensures var s := After(lib, Init(clock), steps);
            && (id in s.tables.inflight <==>
                  exists p :: 0 <= p < |s.procs| && LeadsFor(s, p, id))
            && (forall p, q :: 0 <= p < |s.procs| && 0 <= q < |s.procs| && LeadsFor(s, p, id) && LeadsFor(s, q, id) ==>
                  p == q)
  {
    InvariantReachable(lib, clock, steps);
    var s := After(lib, Init(clock), steps);
    if id in s.tables.inflight {
      var c := s.tables.inflight[id];
      assert CallOk(s, c);
      assert LeadsFor(s, s.calls[c].leader, id);
    }
    forall p | 0 <= p < |s.procs| && LeadsFor(s, p, id)
      ensures id in s.tables.inflight && s.calls[s.tables.inflight[id]].leader == p {
      assert ProcessOk(s, p) && CallOk(s, s.procs[p].call);
    }
  }

  // Everyone who waited for a call to its end, whatever it ended in, got the
  // leader's answer; only a follower whose own context is cancelled leaves
  // earlier, and that one is Abandoned.
  lemma FollowersAgreeWithLeader(lib: UrlLibrary, clock: Time, steps: seq<Step>, p: nat)
    requires Lawful(lib) && Runs(lib, Init(clock), steps)
    requires p < |After(lib, Init(clock), steps).procs|
    requires var proc := After(lib, Init(clock), steps).procs[p];
             proc.Returned? && proc.via.Some?
    ensures var s := After(lib, Init(clock), steps);
            var c := s.procs[p].via.value;
            && c < |s.calls| && s.calls[c].closed && s.calls[c].id == s.procs[p].id
            && s.calls[c].leader < |s.procs|
            && s.procs[s.calls[c].leader] == Returned(s.procs[p].id, Some(c), s.procs[p].answer)
  {
    InvariantReachable(lib, clock, steps);
    var s := After(lib, Init(clock), steps);
    assert ProcessOk(s, p) && CallOk(s, s.procs[p].via.value);
  }

  // A successful answer is the admitted record of a fetch of that very client,
  // and what the cache served was inserted with a lifetime of at most an hour
  // and not yet expired at the caller's own reading of the clock.
  lemma AnswersAreFetched(lib: UrlLibrary, clock: Time, steps: seq<Step>)
    requires Lawful(lib) && Runs(lib, Init(clock), steps)
    ensures var s := After(lib, Init(clock), steps);
            && (forall p :: 0 <= p < |s.procs| && s.procs[p].Returned? && s.procs[p].answer.Ok? ==>
                  Obtained(s.procs[p].id, s.procs[p].answer.value) in s.log &&
                  Admitted(lib, s.procs[p].id, s.procs[p].answer.value))
            && (forall id, now, entry :: Served(id, now, entry) in s.log ==>
                  now < entry.expiresAt &&
                  exists at :: Inserted(id, at, entry) in s.log && 0 < entry.expiresAt - at <= CacheControl.MAXIMUM_TTL)
  {
    InvariantReachable(lib, clock, steps);
    var s := After(lib, Init(clock), steps);
    forall p | 0 <= p < |s.procs| && s.procs[p].Returned? && s.procs[p].answer.Ok?
      ensures Obtained(s.procs[p].id, s.procs[p].answer.value) in s.log &&
              Admitted(lib, s.procs[p].id, s.procs[p].answer.value) {
      assert AnswerSourced(s, p);
      assert EventOk(lib, s.log, Obtained(s.procs[p].id, s.procs[p].answer.value));
    }
    forall id, now, entry | Served(id, now, entry) in s.log
      ensures now < entry.expiresAt &&
              exists at :: Inserted(id, at, entry) in s.log && 0 < entry.expiresAt - at <= CacheControl.MAXIMUM_TTL {
      assert EventOk(lib, s.log, Served(id, now, entry));
      var at :| Inserted(id, at, entry) in s.log;
      assert EventOk(lib, s.log, Inserted(id, at, entry));
    }
  }

  lemma TablesStayBounded(lib: UrlLibrary, clock: Time, steps: seq<Step>)
    requires Lawful(lib) && Runs(lib, Init(clock), steps)
    ensures var s := After(lib, Init(clock), steps);
            && |s.tables.cache| <= 1024
            && (HostsNamed(lib) ==> |s.tables.hostLastFetch| <= 2048)
            && CountFetching(s.procs) <= 8
  {
    InvariantReachable(lib, clock, steps);
  }

  // Two recorded fetch times of one host are in log order and at least a
  // second apart, unless the host was evicted in between, by a registration
  // that found 2048 fresh entries or whose reading of the clock is later than
  // that of the second fetch.
  lemma FetchesOfOneHostSpaced(lib: UrlLibrary, clock: Time, steps: seq<Step>, host: string, i: nat, j: nat)
    requires Lawful(lib) && Runs(lib, Init(clock), steps)
    requires var log := After(lib, Init(clock), steps).log;
             i < j < |log| && log[i].Recorded? && log[j].Recorded? && log[i].host == log[j].host == host
    ensures var log := After(lib, Init(clock), steps).log;
            || log[i].at + HOST_RETRY_DELAY <= log[j].at
            || exists k :: i < k < j && log[k].Evicted? && host in log[k].hosts &&
                           (log[k].crowded || log[j].at < log[k].now)
  {
    InvariantReachable(lib, clock, steps);
    var log := After(lib, Init(clock), steps).log;
    if log[j].at < log[i].at + HOST_RETRY_DELAY {
      assert !Undisturbed(log, host, i, j);
      var k := FirstEviction(log, host, i, j);
      assert EvictsFirst(log, i, k);
    }
  }

  lemma {:induction false} FirstEviction(log: seq<Event>, host: string, start: nat, end: nat) returns (k: nat)
    requires end <= |log| && !Undisturbed(log, host, start, end)
    ensures start < k < end && log[k].Evicted? && host in log[k].hosts && Undisturbed(log, host, start, k)
    decreases end
  {
    k :| start < k < end && log[k].Evicted? && host in log[k].hosts;
    if !Undisturbed(log, host, start, k) {
      k := FirstEviction(log, host, start, k);
    }
  }

  // ---------------------------------------------------------------- fewer hosts than the table has room for

  // The hosts a run can meet are those of its arrivals.
  ghost predicate ArrivalsAt(lib: UrlLibrary, steps: seq<Step>, names: set<string>) {
    forall step :: step in steps && step.Arrive? && ValidId(lib, step.id) ==> HostOf(lib, step.id) in names
  }

  ghost predicate FewHosts(lib: UrlLibrary, s: State, names: set<string>) {
    && (forall p :: 0 <= p < |s.procs| && s.procs[p].Arrived? ==> HostOf(lib, s.procs[p].id) in names)
    && s.tables.hostLastFetch.Keys <= names
    && (forall e :: e in s.log && e.Evicted? ==> e.hosts == {})
  }

  lemma FewHostsEnter(lib: UrlLibrary, s: State, p: nat, order: seq<string>, names: set<string>)
    requires FewHosts(lib, s, names) && |names| < HOST_ENTRIES && Enabled(s, Enter(p, order))
    ensures FewHosts(lib, ApplyEnter(lib, s, p, order), names)
  {
    SubsetSmaller(s.tables.hostLastFetch.Keys, names);
    assert |s.tables.hostLastFetch| < HOST_ENTRIES;
    if Decide(s.tables, s.procs[p].id, HostOf(lib, s.procs[p].id), s.procs[p].now).Lead? {
      FewHostsLead(lib, s, p, order, names);
    }
  }

  lemma FewHostsLead(lib: UrlLibrary, s: State, p: nat, order: seq<string>, names: set<string>)
    requires FewHosts(lib, s, names) && |s.tables.hostLastFetch| < HOST_ENTRIES && Enabled(s, Enter(p, order))
    requires Decide(s.tables, s.procs[p].id, HostOf(lib, s.procs[p].id), s.procs[p].now).Lead?
    ensures FewHosts(lib, ApplyEnter(lib, s, p, order), names)
  {
    assert EvictHosts(s.tables.hostLastFetch, order, s.procs[p].now) == s.tables.hostLastFetch;
  }

  lemma SubsetSmaller(a: set<string>, b: set<string>)
    requires a <= b
    ensures |a| <= |b|
  {
    if a != b {
      ProperSubsetSmaller(a, b);
    }
  }

  // Only a registration writes the host table.
  lemma HostsKept(lib: UrlLibrary, s: State, step: Step)
    requires Enabled(s, step) && !step.Enter?
    ensures Apply(lib, s, step).tables.hostLastFetch == s.tables.hostLastFetch
  {
  }

  lemma FewHostsStep(lib: UrlLibrary, s: State, step: Step, names: set<string>)
    requires FewHosts(lib, s, names) && |names| < HOST_ENTRIES && Enabled(s, step)
    requires step.Arrive? && ValidId(lib, step.id) ==> HostOf(lib, step.id) in names
    ensures FewHosts(lib, Apply(lib, s, step), names)
  {
    if step.Enter? {
      FewHostsEnter(lib, s, step.p, step.order, names);
    } else {
      HostsKept(lib, s, step);
    }
  }

  lemma {:induction false} FewHostsRun(lib: UrlLibrary, s: State, steps: seq<Step>, names: set<string>)
    requires FewHosts(lib, s, names) && |names| < HOST_ENTRIES && Runs(lib, s, steps)
    requires ArrivalsAt(lib, steps, names)
    ensures FewHosts(lib, After(lib, s, steps), names)
    decreases |steps|
  {
    if steps != [] {
      assert steps[0] in steps;
      FewHostsStep(lib, s, steps[0], names);
      FewHostsRun(lib, Apply(lib, s, steps[0]), steps[1..], names);
    }
  }

  // With fewer than 2048 hosts there is no exception: fetches of one host are
  // always at least a second apart, however readings and locks are ordered.
  lemma SpacedWithFewHosts(lib: UrlLibrary, clock: Time, steps: seq<Step>, names: set<string>, i: nat, j: nat)
    requires Lawful(lib) && Runs(lib, Init(clock), steps)
    requires ArrivalsAt(lib, steps, names) && |names| < HOST_ENTRIES
    requires var log := After(lib, Init(clock), steps).log;
             i < j < |log| && log[i].Recorded? && log[j].Recorded? && log[i].host == log[j].host
    ensures var log := After(lib, Init(clock), steps).log;
            log[i].at + HOST_RETRY_DELAY <= log[j].at
  {
    FewHostsRun(lib, Init(clock), steps, names);
    var log := After(lib, Init(clock), steps).log;
    FetchesOfOneHostSpaced(lib, clock, steps, log[i].host, i, j);
    assert forall k :: 0 <= k < |log| ==> log[k] in log;
  }

  // A call is closed by the step that completes its leader, and only once.
  lemma EachCallClosedOnce(lib: UrlLibrary, clock: Time, steps: seq<Step>, c: nat)
    requires Lawful(lib) && Runs(lib, Init(clock), steps)
    ensures var s := After(lib, Init(clock), steps);
            && (c < |s.calls| && s.calls[c].closed <==> exists i :: 0 <= i < |s.log| && IsClose(s.log[i], c))
            && (forall i, j :: 0 <= i < |s.log| && 0 <= j < |s.log| && IsClose(s.log[i], c) && IsClose(s.log[j], c) ==>
                  i == j)
            && (forall i :: 0 <= i < |s.log| && IsClose(s.log[i], c) ==>
                  var p := s.log[i].leader;
                  p == s.calls[c].leader && p < |s.procs| && s.procs[p].Returned? && s.procs[p].via == Some(c))
  {
    InvariantReachable(lib, clock, steps);
    var s := After(lib, Init(clock), steps);
    forall i | 0 <= i < |s.log| && IsClose(s.log[i], c) ensures ClosedBy(s, c, s.log[i].leader) {
      assert Closed(c, s.log[i].leader) in s.log;
    }
    if c < |s.calls| && s.calls[c].closed {
      assert CallOk(s, c);
      assert ClosedBy(s, c, s.calls[c].leader);
      assert Closed(c, s.calls[c].leader) in s.log;
    }
  }

  predicate IsClose(e: Event, c: nat) {
    e.Closed? && e.call == c
  }

  // Completing is the only step that closes, and it closes the call its
  // process leads.
  lemma ClosingStep(lib: UrlLibrary, s: State, step: Step, c: nat, p: nat)
    requires CallsAgree(s) && ClosedOnce(s) && Enabled(s, step)
    ensures Closed(c, p) in Apply(lib, s, step).log && Closed(c, p) !in s.log <==>
            step.Complete? && step.p == p && s.procs[p].call == c
  {
    ClosedOnceStep(lib, s, step);
    assert Closed(c, p) in s.log <==> ClosedBy(s, c, p);
    assert Closed(c, p) in Apply(lib, s, step).log <==> ClosedBy(Apply(lib, s, step), c, p);
    if step.Complete? {
      assert ProcessOk(s, step.p);
    } else {
      assert ClosedBy(Apply(lib, s, step), c, p) <==> ClosedBy(s, c, p);
    }
  }
}
