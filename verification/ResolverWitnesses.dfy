// Runs of the resolver from its initial state that reach the corner cases: a
// follower that is handed its leader's cancellation, a host table past its
// bound, and two fetches of one host within a second.

module ResolverWitnesses {
  import opened Prelude
  import opened Text
  import opened Urls
  import opened ClientMetadata
  import opened ResolverTables
  import opened ResolverProtocol
  import opened ResolverSafety
  import CacheControl

  lemma {:induction false} RunsConcat(lib: UrlLibrary, s: State, a: seq<Step>, b: seq<Step>)
    requires Runs(lib, s, a) && Runs(lib, After(lib, s, a), b)
    ensures Runs(lib, s, a + b) && After(lib, s, a + b) == After(lib, After(lib, s, a), b)
    decreases |a|
  {
    if a == [] {
      assert a + b == b;
    } else {
      var first, rest := a[0], a[1..];
      Begins(lib, s, first, rest);
      assert a == [first] + rest;
      RunsConcat(lib, Apply(lib, s, first), rest, b);
      Begins(lib, s, first, rest + b);
      assert a + b == [first] + (rest + b);
    }
  }

  lemma Begins(lib: UrlLibrary, s: State, first: Step, rest: seq<Step>)
    requires Enabled(s, first) && Runs(lib, Apply(lib, s, first), rest)
    ensures Runs(lib, s, [first] + rest) && After(lib, s, [first] + rest) == After(lib, Apply(lib, s, first), rest)
  {
    assert ([first] + rest)[1..] == rest;
  }

  lemma Extend(lib: UrlLibrary, s: State, steps: seq<Step>, step: Step)
    requires Runs(lib, s, steps) && Enabled(After(lib, s, steps), step)
    ensures Runs(lib, s, steps + [step])
    ensures After(lib, s, steps + [step]) == Apply(lib, After(lib, s, steps), step)
  {
    var t := Apply(lib, After(lib, s, steps), step);
    assert [step][1..] == [];
    assert Runs(lib, t, []) && After(lib, t, []) == t;
    RunsConcat(lib, s, steps, [step]);
  }

  // Some run from the initial state at this clock ends in s.
  ghost predicate Reachable(lib: UrlLibrary, clock: Time, s: State) {
    exists steps :: Runs(lib, Init(clock), steps) && After(lib, Init(clock), steps) == s
  }

  lemma InitReachable(lib: UrlLibrary, clock: Time)
    ensures Reachable(lib, clock, Init(clock))
  {
    assert Runs(lib, Init(clock), []);
  }

  lemma StepReachable(lib: UrlLibrary, clock: Time, s: State, step: Step)
    requires Reachable(lib, clock, s) && Enabled(s, step)
    ensures Reachable(lib, clock, Apply(lib, s, step))
  {
    var steps :| Runs(lib, Init(clock), steps) && After(lib, Init(clock), steps) == s;
    Extend(lib, Init(clock), steps, step);
  }

  // A call arrives, and a moment later it enters.
  lemma ArriveReachable(lib: UrlLibrary, clock: Time, s: State, id: string)
    requires Reachable(lib, clock, s) && ValidId(lib, id)
    ensures Reachable(lib, clock, s.(procs := s.procs + [Arrived(id, s.clock)]))
  {
    StepReachable(lib, clock, s, Arrive(id));
  }

  lemma TickReachable(lib: UrlLibrary, clock: Time, s: State, elapsed: nat)
    requires Reachable(lib, clock, s)
    ensures Reachable(lib, clock, s.(clock := s.clock + elapsed))
  {
    StepReachable(lib, clock, s, Tick(elapsed));
  }

  lemma EnterReachable(lib: UrlLibrary, clock: Time, s: State, p: nat, order: seq<string>)
    requires Reachable(lib, clock, s) && Enabled(s, Enter(p, order))
    ensures Reachable(lib, clock, ApplyEnter(lib, s, p, order))
  {
    StepReachable(lib, clock, s, Enter(p, order));
  }

  // A waiting leader is cancelled and completes.
  lemma CancelReachable(lib: UrlLibrary, clock: Time, s: State, p: nat) returns (t: State)
    requires Reachable(lib, clock, s) && s.tables.cache == map[]
    requires p < |s.procs| && s.procs[p].AwaitingSlot? && s.procs[p].call < |s.calls|
    ensures Reachable(lib, clock, t)
    ensures var id, c := s.procs[p].id, s.procs[p].call;
            && t.tables == s.tables.(inflight := s.tables.inflight - {id})
            && t.procs == s.procs[p := Returned(id, Some(c), Err(Cancelled))]
            && t.calls == s.calls[c := s.calls[c].(result := Some(Failed(Cancelled)), closed := true)]
            && t.clock == s.clock && t.log == s.log + [Closed(c, p)]
  {
    StepReachable(lib, clock, s, LeaderCancelled(p));
    var stored := StoreResult(s, p, Failed(Cancelled));
    var none: seq<string> := [];
    assert Elements(none) == {};
    StepReachable(lib, clock, stored, Complete(p, none));
    t := ApplyComplete(stored, p, none);
    assert s.log + [] == s.log;
  }

  // ---------------------------------------------------------------- a relayed cancellation

  // Two calls for one client: the leader is cancelled while it waits for a
  // slot, and the follower, not cancelled itself, returns that error.
  lemma CancellationIsRelayed(lib: UrlLibrary, clock: Time, id: string) returns (s: State)
    requires ValidId(lib, id)
    ensures Reachable(lib, clock, s)
    ensures |s.procs| == 2 && s.procs[1] == Returned(id, Some(0), Err(Cancelled))
    ensures |s.calls| == 1 && s.calls[0].leader == 0
  {
    InitReachable(lib, clock);
    ArriveReachable(lib, clock, Init(clock), id);
    var one := Init(clock).(procs := [] + [Arrived(id, clock)]);
    ArriveReachable(lib, clock, one, id);
    var both := one.(procs := one.procs + [Arrived(id, clock)]);
    var led := BothEnter(lib, clock, both, id);
    var ended := CancelReachable(lib, clock, led, 0);
    StepReachable(lib, clock, ended, FollowerReturns(1));
    s := Apply(lib, ended, FollowerReturns(1));
  }

  lemma BothEnter(lib: UrlLibrary, clock: Time, s: State, id: string) returns (t: State)
    requires Reachable(lib, clock, s)
    requires s == Init(clock).(procs := [Arrived(id, clock), Arrived(id, clock)])
    ensures Reachable(lib, clock, t)
    ensures t.procs == [AwaitingSlot(id, 0), Following(id, 0)] && t.calls == [Call(id, 0, None, false)]
    ensures t.tables.cache == map[]
  {
    var order := SomeOrder(FreshHosts(s.tables.hostLastFetch, clock).Keys);
    EnterReachable(lib, clock, s, 0, order);
    var led := ApplyEnter(lib, s, 0, order);
    var more := SomeOrder(FreshHosts(led.tables.hostLastFetch, clock).Keys);
    EnterReachable(lib, clock, led, 1, more);
    t := ApplyEnter(lib, led, 1, more);
  }

  // ---------------------------------------------------------------- filling the host table

  function Hosts(lib: UrlLibrary, ids: seq<string>): seq<string> {
    seq(|ids|, i requires 0 <= i < |ids| => HostOf(lib, ids[i]))
  }

  // Valid client ids with different hosts.
  ghost predicate Distinct(lib: UrlLibrary, ids: seq<string>) {
    (forall id :: id in ids ==> ValidId(lib, id)) && NoDuplicates(Hosts(lib, ids))
  }

  // The table after one fetch at each host, a nanosecond apart.
  function Times(hosts: seq<string>): map<string, Time> {
    if hosts == [] then map[] else Times(hosts[..|hosts| - 1])[hosts[|hosts| - 1] := |hosts| - 1]
  }

  lemma {:induction false} TimesKeys(hosts: seq<string>)
    ensures Times(hosts).Keys == Elements(hosts)
  {
    if hosts == [] {
      assert Times(hosts) == map[];
    } else {
      var front, last := hosts[..|hosts| - 1], hosts[|hosts| - 1];
      TimesKeys(front);
      assert hosts == front + [last];
      assert Times(hosts).Keys == Times(front).Keys + {last};
    }
  }

  lemma {:induction false} TimesAt(hosts: seq<string>, i: nat)
    requires NoDuplicates(hosts) && i < |hosts|
    ensures hosts[i] in Times(hosts) && Times(hosts)[hosts[i]] == i
  {
    if i < |hosts| - 1 {
      TimesAt(hosts[..|hosts| - 1], i);
    }
  }

  lemma TimesSize(hosts: seq<string>)
    requires NoDuplicates(hosts)
    ensures |Times(hosts)| == |hosts|
    ensures forall h :: h in Times(hosts) <==> h in hosts
  {
    TimesKeys(hosts);
    DistinctCount(hosts);
    assert |Times(hosts).Keys| == |hosts|;
    assert forall h :: h in Times(hosts) <==> h in Times(hosts).Keys;
  }

  // Less than a second after the last of them every entry is still fresh.
  lemma TimesFresh(hosts: seq<string>, now: Time)
    requires NoDuplicates(hosts) && |hosts| <= now + 1 && now < HOST_RETRY_DELAY
    ensures FreshHosts(Times(hosts), now) == Times(hosts)
  {
    TimesSize(hosts);
    forall h | h in Times(hosts) ensures IsFresh(now, Times(hosts)[h]) {
      var i :| 0 <= i < |hosts| && hosts[i] == h;
      TimesAt(hosts, i);
    }
  }

  // From s a new call arrives and becomes a leader at once.
  lemma Leads(lib: UrlLibrary, clock: Time, s: State, id: string, order: seq<string>) returns (t: State)
    requires Reachable(lib, clock, s) && ValidId(lib, id)
    requires Decide(s.tables, id, HostOf(lib, id), s.clock) == Lead
    requires Enumerates(order, FreshHosts(s.tables.hostLastFetch, s.clock).Keys)
    ensures Reachable(lib, clock, t)
    ensures t.tables == Register(s.tables, id, HostOf(lib, id), s.clock, |s.calls|, order)
    ensures t.calls == s.calls + [Call(id, |s.procs|, None, false)] && t.procs == s.procs + [AwaitingSlot(id, |s.calls|)]
    ensures t.clock == s.clock && LogsRegistration(s, t, HostOf(lib, id), s.clock)
  {
    ArriveReachable(lib, clock, s, id);
    var arrived, p := s.(procs := s.procs + [Arrived(id, s.clock)]), |s.procs|;
    EnterReachable(lib, clock, arrived, p, order);
    t := ApplyEnter(lib, arrived, p, order);
    assert arrived.procs[p := AwaitingSlot(id, |s.calls|)] == s.procs + [AwaitingSlot(id, |s.calls|)];
  }

  // The two events of a registration follow the log of s.
  ghost predicate LogsRegistration(s: State, t: State, host: string, at: Time) {
    t.log == s.log + [EvictionFor(s.tables.hostLastFetch, t.tables.hostLastFetch, at), Recorded(host, at)]
  }

  // Below the bound a registration only adds.
  lemma RegisterBelow(t: Tables, id: string, host: string, now: Time, call: nat, order: seq<string>)
    requires Enumerates(order, FreshHosts(t.hostLastFetch, now).Keys) && |t.hostLastFetch| < HOST_ENTRIES
    ensures Register(t, id, host, now, call, order) ==
            t.(inflight := t.inflight[id := call], hostLastFetch := t.hostLastFetch[host := now])
  {
  }

  // The state after one fetch for each id was begun and none ended.
  ghost predicate Crowded(ids: seq<string>, hosts: seq<string>, s: State) {
    && |ids| == |hosts| == s.clock
    && TablesFilled(ids, hosts, s.tables)
    && Waiting(ids, s.procs, s.calls)
    && StartsWith(s.log, hosts)
    && InOrder(s.log, s.clock)
  }

  ghost predicate TablesFilled(ids: seq<string>, hosts: seq<string>, t: Tables) {
    t.cache == map[] && t.hostLastFetch == Times(hosts) && t.inflight.Keys == Elements(ids)
  }

  ghost predicate Waiting(ids: seq<string>, procs: seq<Process>, calls: seq<Call>) {
    && |procs| == |ids| == |calls|
    && forall i :: 0 <= i < |ids| ==> procs[i] == AwaitingSlot(ids[i], i) && calls[i] == Call(ids[i], i, None, false)
  }

  ghost predicate StartsWith(log: seq<Event>, hosts: seq<string>) {
    if hosts == [] then log == [] else |log| >= 2 && log[1] == Recorded(hosts[0], 0)
  }

  // Recorded times follow the log and lie in the past.
  ghost predicate InOrder(log: seq<Event>, clock: Time) {
    && (forall i :: 0 <= i < |log| && log[i].Recorded? ==> log[i].at <= clock)
    && (forall i, j :: 0 <= i < j < |log| && log[i].Recorded? && log[j].Recorded? ==> log[i].at <= log[j].at)
  }

  lemma InOrderGrows(log: seq<Event>, clock: Time, evicted: Event, host: string, elapsed: nat)
    requires InOrder(log, clock) && evicted.Evicted?
    ensures InOrder(log + [evicted, Recorded(host, clock)], clock + elapsed)
  {
    var log' := log + [evicted, Recorded(host, clock)];
    assert forall i :: 0 <= i < |log| ==> log'[i] == log[i];
    assert log'[|log|] == evicted && log'[|log| + 1] == Recorded(host, clock);
  }

  lemma {:induction false} CrowdRun(lib: UrlLibrary, ids: seq<string>) returns (s: State)
    requires Distinct(lib, ids) && |ids| <= HOST_ENTRIES
    ensures Reachable(lib, 0, s) && Crowded(ids, Hosts(lib, ids), s)
  {
    if ids == [] {
      s := Init(0);
      InitReachable(lib, 0);
      assert Elements(ids) == {};
    } else {
      var front, id := ids[..|ids| - 1], ids[|ids| - 1];
      FrontDistinct(lib, ids);
      var before := CrowdRun(lib, front);
      s := CrowdRunMore(lib, front, id, before);
      assert ids == front + [id];
    }
  }

  lemma FrontDistinct(lib: UrlLibrary, ids: seq<string>)
    requires ids != [] && Distinct(lib, ids)
    ensures var front, last := ids[..|ids| - 1], ids[|ids| - 1];
            && Hosts(lib, ids) == Hosts(lib, front) + [HostOf(lib, last)]
            && Distinct(lib, front) && ValidId(lib, last)
            && HostOf(lib, last) !in Hosts(lib, front) && last !in front
  {
    var hosts, n := Hosts(lib, ids), |ids| - 1;
    var front := ids[..n];
    assert hosts[..n] == Hosts(lib, front);
    assert hosts == hosts[..n] + [hosts[n]];
    assert forall i :: 0 <= i < n ==> front[i] == ids[i] && hosts[i] == HostOf(lib, front[i]) && hosts[i] != hosts[n];
  }

  lemma CrowdRunMore(lib: UrlLibrary, ids: seq<string>, id: string, s: State) returns (t: State)
    requires Reachable(lib, 0, s) && Crowded(ids, Hosts(lib, ids), s)
    requires Distinct(lib, ids) && ValidId(lib, id) && id !in ids && HostOf(lib, id) !in Hosts(lib, ids)
    requires |ids| < HOST_ENTRIES
    ensures Reachable(lib, 0, t) && Crowded(ids + [id], Hosts(lib, ids) + [HostOf(lib, id)], t)
  {
    var hosts := Hosts(lib, ids);
    TimesSize(hosts);
    assert id !in s.tables.inflight by { assert id !in Elements(ids); }
    var order := SomeOrder(FreshHosts(s.tables.hostLastFetch, s.clock).Keys);
    var led := Leads(lib, 0, s, id, order);
    RegisterBelow(s.tables, id, HostOf(lib, id), s.clock, |s.calls|, order);
    TickReachable(lib, 0, led, 1);
    t := led.(clock := led.clock + 1);
    OneMore(ids, hosts, s, t, id, HostOf(lib, id));
  }

  lemma OneMore(ids: seq<string>, hosts: seq<string>, s: State, t: State, id: string, host: string)
    requires Crowded(ids, hosts, s)
    requires t.tables == s.tables.(inflight := s.tables.inflight[id := |s.calls|],
                                   hostLastFetch := s.tables.hostLastFetch[host := s.clock])
    requires t.calls == s.calls + [Call(id, |s.procs|, None, false)] && t.procs == s.procs + [AwaitingSlot(id, |s.calls|)]
    requires t.clock == s.clock + 1 && LogsRegistration(s, t, host, s.clock)
    ensures Crowded(ids + [id], hosts + [host], t)
  {
    TablesMore(ids, hosts, s.tables, id, host, |s.calls|);
    InOrderGrows(s.log, s.clock, EvictionFor(s.tables.hostLastFetch, t.tables.hostLastFetch, s.clock), host, 1);
    WaitingMore(ids, id, s.procs, s.calls);
    StartsMore(s.log, t.log, hosts, host, s.clock);
  }

  lemma TablesMore(ids: seq<string>, hosts: seq<string>, t: Tables, id: string, host: string, call: nat)
    requires TablesFilled(ids, hosts, t)
    ensures TablesFilled(ids + [id], hosts + [host],
                         t.(inflight := t.inflight[id := call], hostLastFetch := t.hostLastFetch[host := |hosts|]))
  {
    TimesSnoc(hosts, host);
    assert Elements(ids + [id]) == Elements(ids) + {id};
    assert t.inflight[id := call].Keys == t.inflight.Keys + {id};
  }

  lemma TimesSnoc(hosts: seq<string>, host: string)
    ensures Times(hosts + [host]) == Times(hosts)[host := |hosts|]
  {
    assert (hosts + [host])[..|hosts|] == hosts;
  }

  lemma WaitingMore(ids: seq<string>, id: string, procs: seq<Process>, calls: seq<Call>)
    requires Waiting(ids, procs, calls)
    ensures Waiting(ids + [id], procs + [AwaitingSlot(id, |calls|)], calls + [Call(id, |procs|, None, false)])
  {
  }

  lemma StartsMore(log: seq<Event>, longer: seq<Event>, hosts: seq<string>, host: string, at: Time)
    requires StartsWith(log, hosts) && at == |hosts|
    requires |longer| == |log| + 2 && log <= longer && longer[|log| + 1] == Recorded(host, at)
    ensures StartsWith(longer, hosts + [host])
  {
  }

  // ---------------------------------------------------------------- past the bound of the host table

  lemma Prefix(lib: UrlLibrary, ids: seq<string>, n: nat)
    requires Distinct(lib, ids) && n <= |ids|
    ensures Distinct(lib, ids[..n]) && Hosts(lib, ids[..n]) == Hosts(lib, ids)[..n]
    ensures forall i :: n <= i < |ids| ==> HostOf(lib, ids[i]) !in Hosts(lib, ids[..n]) && ids[i] !in ids[..n]
  {
    var hosts := Hosts(lib, ids);
    assert Hosts(lib, ids[..n]) == hosts[..n];
    assert forall i :: 0 <= i < |ids| ==> hosts[i] == HostOf(lib, ids[i]);
    forall i | n <= i < |ids| ensures HostOf(lib, ids[i]) !in hosts[..n] && ids[i] !in ids[..n] {
      assert forall k :: 0 <= k < n ==> hosts[k] != hosts[i] && ids[..n][k] == ids[k];
    }
  }

  // Full of fresh entries with the empty one oldest: an order of the visit
  // under which nothing is evicted.
  lemma NothingEvicted(hosts: seq<string>) returns (order: seq<string>)
    requires NoDuplicates(hosts) && |hosts| == HOST_ENTRIES && hosts[0] == ""
    ensures FreshHosts(Times(hosts), HOST_ENTRIES) == Times(hosts)
    ensures Enumerates(order, Times(hosts).Keys) && EvictHosts(Times(hosts), order, HOST_ENTRIES) == Times(hosts)
  {
    TimesFresh(hosts, HOST_ENTRIES);
    TimesSize(hosts);
    TimesAt(hosts, 0);
    order := EmptyKeyLast(Times(hosts).Keys);
    assert forall k :: k in order ==> k in Elements(order);
    forall k | k in order && k != "" ensures Times(hosts)[""] < Times(hosts)[k] {
      var i :| 0 <= i < |hosts| && hosts[i] == k;
      TimesAt(hosts, i);
    }
    OldestSeenIsEmpty(order, Times(hosts));
  }

  lemma OverflowRun(lib: UrlLibrary, ids: seq<string>) returns (s: State)
    requires EmptyAmongMany(lib, ids)
    ensures Reachable(lib, 0, s) && |s.tables.hostLastFetch| == HOST_ENTRIES + 1
  {
    var front, last := ids[..HOST_ENTRIES], ids[HOST_ENTRIES];
    Prefix(lib, ids, HOST_ENTRIES);
    var full := CrowdRun(lib, front);
    assert Hosts(lib, front)[0] == HostOf(lib, ids[0]);
    s := OneOver(lib, front, full, last);
  }

  lemma OneOver(lib: UrlLibrary, ids: seq<string>, full: State, last: string) returns (s: State)
    requires Reachable(lib, 0, full) && Crowded(ids, Hosts(lib, ids), full)
    requires |ids| == HOST_ENTRIES && NoDuplicates(Hosts(lib, ids)) && Hosts(lib, ids)[0] == ""
    requires ValidId(lib, last) && last !in ids && HostOf(lib, last) !in Hosts(lib, ids)
    ensures Reachable(lib, 0, s) && |s.tables.hostLastFetch| == HOST_ENTRIES + 1
  {
    var hosts := Hosts(lib, ids);
    var order := NothingEvicted(hosts);
    TimesSize(hosts);
    assert last !in full.tables.inflight by { assert last !in Elements(ids); }
    s := Leads(lib, 0, full, last, order);
    NewKey(Times(hosts), HostOf(lib, last), HOST_ENTRIES);
  }

  lemma NewKey(m: map<string, Time>, key: string, value: Time)
    requires key !in m
    ensures |m[key := value]| == |m| + 1
  {
    assert m[key := value].Keys == m.Keys + {key};
  }

  // Every key of the host table is the host of some valid client id.
  ghost predicate Known(lib: UrlLibrary, host: string) {
    exists id :: ValidId(lib, id) && HostOf(lib, id) == host
  }

  lemma {:induction false} KnownHosts(lib: UrlLibrary, s: State, steps: seq<Step>)
    requires Lawful(lib) && Invariant(lib, s) && Runs(lib, s, steps)
    requires forall h :: h in s.tables.hostLastFetch ==> Known(lib, h)
    ensures forall h :: h in After(lib, s, steps).tables.hostLastFetch ==> Known(lib, h)
    decreases |steps|
  {
    if steps != [] {
      var t := Apply(lib, s, steps[0]);
      InvariantStep(lib, s, steps[0]);
      KnownHostsStep(lib, s, steps[0]);
      KnownHosts(lib, t, steps[1..]);
    }
  }

  lemma KnownHostsStep(lib: UrlLibrary, s: State, step: Step)
    requires Bounded(lib, s) && Enabled(s, step)
    requires forall h :: h in s.tables.hostLastFetch ==> Known(lib, h)
    ensures forall h :: h in Apply(lib, s, step).tables.hostLastFetch ==> Known(lib, h)
  {
    if step.Enter? {
      KnownHostsEnter(lib, s, step.p, step.order);
    } else {
      HostsKept(lib, s, step);
    }
  }

  lemma KnownHostsEnter(lib: UrlLibrary, s: State, p: nat, order: seq<string>)
    requires Enabled(s, Enter(p, order)) && ValidId(lib, s.procs[p].id)
    requires forall h :: h in s.tables.hostLastFetch ==> Known(lib, h)
    ensures forall h :: h in ApplyEnter(lib, s, p, order).tables.hostLastFetch ==> Known(lib, h)
  {
    assert Known(lib, HostOf(lib, s.procs[p].id));
    KeptUnchanged(s.tables.hostLastFetch, order, s.procs[p].now);
  }

  lemma {:induction false} IdsOf(lib: UrlLibrary, hosts: set<string>) returns (ids: seq<string>)
    requires forall h :: h in hosts ==> Known(lib, h)
    ensures Distinct(lib, ids) && |ids| == |hosts| && Elements(Hosts(lib, ids)) == hosts
    decreases hosts
  {
    ids := [];
    assert Elements(Hosts(lib, ids)) == {};
    if hosts != {} {
      var h :| h in hosts;
      var front := IdsOf(lib, hosts - {h});
      ids := OneMoreId(lib, hosts - {h}, front, h);
      assert hosts - {h} + {h} == hosts;
    }
  }

  lemma OneMoreId(lib: UrlLibrary, hosts: set<string>, front: seq<string>, h: string) returns (ids: seq<string>)
    requires Known(lib, h) && h !in hosts
    requires Distinct(lib, front) && |front| == |hosts| && Elements(Hosts(lib, front)) == hosts
    ensures Distinct(lib, ids) && |ids| == |hosts + {h}| && Elements(Hosts(lib, ids)) == hosts + {h}
  {
    var id :| ValidId(lib, id) && HostOf(lib, id) == h;
    HostsSnoc(lib, front, id);
    EnumeratesSnoc(Hosts(lib, front), hosts, h);
    ids := front + [id];
  }

  lemma HostsSnoc(lib: UrlLibrary, ids: seq<string>, id: string)
    ensures Hosts(lib, ids + [id]) == Hosts(lib, ids) + [HostOf(lib, id)]
  {
  }

  ghost predicate Overflows(lib: UrlLibrary, clock: Time, s: State) {
    Reachable(lib, clock, s) && |s.tables.hostLastFetch| > HOST_ENTRIES
  }

  // Room for an overflow: the empty host name and 2048 others.
  ghost predicate EmptyAmongMany(lib: UrlLibrary, ids: seq<string>) {
    Distinct(lib, ids) && |ids| == HOST_ENTRIES + 1 && HostOf(lib, ids[0]) == ""
  }

  // Some run takes the host table past its bound exactly when the valid client
  // ids have at least 2049 host names and one of them is empty.
  lemma HostTableOverflowsExactly(lib: UrlLibrary)
    requires Lawful(lib)
    ensures (exists clock, s :: Overflows(lib, clock, s)) <==> (exists ids :: EmptyAmongMany(lib, ids))
  {
    if clock, s :| Overflows(lib, clock, s) {
      var ids := OverflowNeeds(lib, clock, s);
    }
    if ids :| EmptyAmongMany(lib, ids) {
      var s := OverflowRun(lib, ids);
      assert Overflows(lib, 0, s);
    }
  }

  lemma OverflowNeeds(lib: UrlLibrary, clock: Time, s: State) returns (ids: seq<string>)
    requires Lawful(lib) && Overflows(lib, clock, s)
    ensures EmptyAmongMany(lib, ids)
  {
    var steps :| Runs(lib, Init(clock), steps) && After(lib, Init(clock), steps) == s;
    KnownHosts(lib, Init(clock), steps);
    NamesAreMany(s.tables.hostLastFetch);
    var others := IdsOf(lib, s.tables.hostLastFetch.Keys - {""});
    assert "" !in Hosts(lib, others) by { assert "" !in Elements(Hosts(lib, others)); }
    TablesStayBounded(lib, clock, steps);
    var unnamed :| ValidId(lib, unnamed) && HostOf(lib, unnamed) == "";
    ids := PrependEmpty(lib, unnamed, others);
  }

  lemma NamesAreMany(hosts: map<string, Time>)
    requires |hosts| > HOST_ENTRIES
    ensures |hosts.Keys - {""}| >= HOST_ENTRIES
  {
    var named := hosts.Keys - {""};
    assert hosts.Keys <= named + {""};
    SubsetSmaller(hosts.Keys, named + {""});
    assert |named + {""}| <= |named| + 1;
  }

  lemma PrependEmpty(lib: UrlLibrary, unnamed: string, others: seq<string>) returns (ids: seq<string>)
    requires ValidId(lib, unnamed) && HostOf(lib, unnamed) == ""
    requires Distinct(lib, others) && |others| >= HOST_ENTRIES && "" !in Hosts(lib, others)
    ensures EmptyAmongMany(lib, ids)
  {
    Prefix(lib, others, HOST_ENTRIES);
    var front := others[..HOST_ENTRIES];
    ids := [unnamed] + front;
    assert Hosts(lib, ids) == [""] + Hosts(lib, front);
  }

  // ---------------------------------------------------------------- fetches within a second

  // Two fetches of one host, recorded in this order, less than a second apart.
  ghost predicate Rushed(s: State) {
    exists i, j :: 0 <= i < j < |s.log| && TooClose(s.log, i, j)
  }

  ghost predicate TooClose(log: seq<Event>, i: nat, j: nat)
    requires i < j < |log|
  {
    && log[i].Recorded? && log[j].Recorded? && log[i].host == log[j].host
    && log[j].at < log[i].at + HOST_RETRY_DELAY
  }

  // The call for ids[i] is cancelled, so that its id is free again.
  lemma FreeAgain(lib: UrlLibrary, ids: seq<string>, hosts: seq<string>, s: State, i: nat) returns (t: State)
    requires Reachable(lib, 0, s) && s.tables.cache == map[]
    requires i < |ids| && i < |s.procs| && i < |s.calls| && s.procs[i] == AwaitingSlot(ids[i], i)
    ensures Reachable(lib, 0, t)
    ensures t.tables == s.tables.(inflight := s.tables.inflight - {ids[i]})
    ensures t.clock == s.clock && |t.procs| == |s.procs| && |t.calls| == |s.calls|
    ensures forall k :: 0 <= k < |s.procs| && k != i ==> t.procs[k] == s.procs[k]
    ensures s.log <= t.log && (forall c :: InOrder(s.log, c) ==> InOrder(t.log, c))
  {
    t := CancelReachable(lib, 0, s, i);
    assert forall k :: 0 <= k < |s.log| ==> t.log[k] == s.log[k];
  }

  // 2048 hosts are enough when readings of the clock and locks come in
  // different orders: one call reads the clock, everything goes stale, another
  // call's registration clears the table, and the first enters.
  lemma RushedRun(lib: UrlLibrary, ids: seq<string>) returns (s: State)
    requires Distinct(lib, ids) && |ids| == HOST_ENTRIES
    ensures Reachable(lib, 0, s) && Rushed(s)
  {
    var hosts := Hosts(lib, ids);
    var both := TwoFree(lib, ids);
    assert ids[0] in ids && ids[1] in ids;
    assert hosts[0] == HostOf(lib, ids[0]) && hosts[1] == HostOf(lib, ids[1]);
    var late := ReadsEarly(lib, both, ids[0]);
    s := ClearedAndRushed(lib, hosts, late, ids[0], ids[1], |both.procs|);
  }

  // All hosts fetched, and the first two calls cancelled.
  lemma TwoFree(lib: UrlLibrary, ids: seq<string>) returns (s: State)
    requires Distinct(lib, ids) && |ids| == HOST_ENTRIES
    ensures Reachable(lib, 0, s) && s.clock == HOST_ENTRIES
    ensures s.tables.hostLastFetch == Times(Hosts(lib, ids)) && s.tables.cache == map[]
    ensures ids[0] !in s.tables.inflight && ids[1] !in s.tables.inflight
    ensures |s.log| >= 2 && s.log[1] == Recorded(Hosts(lib, ids)[0], 0)
  {
    var hosts := Hosts(lib, ids);
    var full := CrowdRun(lib, ids);
    var free := FreeAgain(lib, ids, hosts, full, 0);
    s := FreeAgain(lib, ids, hosts, free, 1);
  }

  // A call reads the clock, and two seconds pass before it enters.
  lemma ReadsEarly(lib: UrlLibrary, s: State, id: string) returns (t: State)
    requires Reachable(lib, 0, s) && ValidId(lib, id)
    ensures Reachable(lib, 0, t)
    ensures t == s.(procs := s.procs + [Arrived(id, s.clock)], clock := s.clock + 2 * HOST_RETRY_DELAY)
  {
    ArriveReachable(lib, 0, s, id);
    var one := s.(procs := s.procs + [Arrived(id, s.clock)]);
    TickReachable(lib, 0, one, 2 * HOST_RETRY_DELAY);
    t := one.(clock := one.clock + 2 * HOST_RETRY_DELAY);
  }

  lemma AllStale(hosts: seq<string>, now: Time)
    requires NoDuplicates(hosts) && now >= |hosts| + HOST_RETRY_DELAY
    ensures FreshHosts(Times(hosts), now) == map[]
  {
    TimesSize(hosts);
    forall h | h in Times(hosts) ensures !IsFresh(now, Times(hosts)[h]) {
      var i :| 0 <= i < |hosts| && hosts[i] == h;
      TimesAt(hosts, i);
    }
  }

  lemma ClearedAndRushed(lib: UrlLibrary, hosts: seq<string>, late: State, id: string, busyId: string, p: nat) returns (s: State)
    requires Reachable(lib, 0, late) && NoDuplicates(hosts) && |hosts| == HOST_ENTRIES
    requires ValidId(lib, busyId) && HostOf(lib, id) == hosts[0] && HostOf(lib, busyId) == hosts[1]
    requires late.tables.hostLastFetch == Times(hosts) && late.tables.cache == map[]
    requires id !in late.tables.inflight && busyId !in late.tables.inflight
    requires p < |late.procs| && late.procs[p] == Arrived(id, HOST_ENTRIES)
    requires late.clock == HOST_ENTRIES + 2 * HOST_RETRY_DELAY
    requires |late.log| >= 2 && late.log[1] == Recorded(hosts[0], 0)
    ensures Reachable(lib, 0, s) && Rushed(s)
  {
    AllStale(hosts, late.clock);
    TimesSize(hosts);
    TimesAt(hosts, 1);
    var none: seq<string> := [];
    assert Elements(none) == {};
    var cleared := Leads(lib, 0, late, busyId, none);
    assert cleared.tables.hostLastFetch == map[hosts[1] := late.clock];
    assert hosts[0] != hosts[1] && id != busyId;
    s := EnterRushed(lib, cleared, id, hosts[0], p);
  }

  lemma EnterRushed(lib: UrlLibrary, s: State, id: string, host: string, p: nat) returns (t: State)
    requires Reachable(lib, 0, s) && p < |s.procs| && s.procs[p] == Arrived(id, HOST_ENTRIES)
    requires HostOf(lib, id) == host && host !in s.tables.hostLastFetch
    requires id !in s.tables.cache && id !in s.tables.inflight
    requires |s.log| >= 2 && s.log[1] == Recorded(host, 0)
    ensures Reachable(lib, 0, t) && Rushed(t)
  {
    var order := SomeOrder(FreshHosts(s.tables.hostLastFetch, HOST_ENTRIES).Keys);
    EnterReachable(lib, 0, s, p, order);
    t := ApplyEnter(lib, s, p, order);
    var n := |s.log|;
    assert t.log[1] == s.log[1] && t.log[n + 1] == Recorded(host, HOST_ENTRIES);
    assert TooClose(t.log, 1, n + 1);
  }

  // Readings and locks in one order: one host more, and the full table of
  // fresh entries drops its oldest.
  lemma CrowdedOutRun(lib: UrlLibrary, ids: seq<string>) returns (s: State)
    requires Distinct(lib, ids) && |ids| == HOST_ENTRIES + 1 && "" !in Hosts(lib, ids)
    ensures Reachable(lib, 0, s) && Rushed(s) && InOrder(s.log, s.clock)
  {
    var front, last := ids[..HOST_ENTRIES], ids[HOST_ENTRIES];
    Prefix(lib, ids, HOST_ENTRIES);
    var hosts := Hosts(lib, front);
    assert hosts == Hosts(lib, ids)[..HOST_ENTRIES];
    assert forall h :: h in hosts ==> h in Hosts(lib, ids);
    var full := CrowdRun(lib, front);
    var free := FreeAgain(lib, front, hosts, full, 0);
    assert last !in full.tables.inflight by { assert last !in Elements(front); }
    assert hosts[0] == HostOf(lib, front[0]) && front[0] in front && front[0] != last;
    s := CrowdedOut(lib, hosts, free, front[0], last);
  }

  lemma CrowdedOut(lib: UrlLibrary, hosts: seq<string>, full: State, id: string, last: string) returns (s: State)
    requires Reachable(lib, 0, full) && NoDuplicates(hosts) && |hosts| == HOST_ENTRIES && "" !in hosts
    requires ValidId(lib, id) && ValidId(lib, last) && id != last
    requires HostOf(lib, id) == hosts[0] && HostOf(lib, last) !in hosts
    requires full.tables.hostLastFetch == Times(hosts) && full.tables.cache == map[]
    requires id !in full.tables.inflight && last !in full.tables.inflight
    requires full.clock == HOST_ENTRIES && InOrder(full.log, full.clock)
    requires |full.log| >= 2 && full.log[1] == Recorded(hosts[0], 0)
    ensures Reachable(lib, 0, s) && Rushed(s) && InOrder(s.log, s.clock)
  {
    TimesFresh(hosts, HOST_ENTRIES);
    var order := SomeOrder(Times(hosts).Keys);
    OldestGoes(hosts, order);
    TimesSize(hosts);
    var crowded := LeadsInOrder(lib, full, last, order);
    assert hosts[0] in hosts;
    var more := SomeOrder(FreshHosts(crowded.tables.hostLastFetch, crowded.clock).Keys);
    s := LeadsInOrder(lib, crowded, id, more);
    Rush(s.log, hosts[0], HOST_ENTRIES, |crowded.log| + 1);
  }

  // The first entry of the log and a later one fetch this host too soon.
  lemma Rush(log: seq<Event>, host: string, at: Time, j: nat)
    requires 1 < j < |log| && log[1] == Recorded(host, 0) && log[j] == Recorded(host, at) && at < HOST_RETRY_DELAY
    ensures exists i, k :: 0 <= i < k < |log| && TooClose(log, i, k)
  {
    assert TooClose(log, 1, j);
  }

  lemma LeadsInOrder(lib: UrlLibrary, s: State, id: string, order: seq<string>) returns (t: State)
    requires Reachable(lib, 0, s) && ValidId(lib, id) && InOrder(s.log, s.clock)
    requires Decide(s.tables, id, HostOf(lib, id), s.clock) == Lead
    requires Enumerates(order, FreshHosts(s.tables.hostLastFetch, s.clock).Keys)
    ensures Reachable(lib, 0, t) && InOrder(t.log, t.clock) && t.clock == s.clock
    ensures t.tables == Register(s.tables, id, HostOf(lib, id), s.clock, |s.calls|, order)
    ensures s.log <= t.log && |t.log| == |s.log| + 2 && t.log[|s.log| + 1] == Recorded(HostOf(lib, id), s.clock)
  {
    t := Leads(lib, 0, s, id, order);
    InOrderGrows(s.log, s.clock, EvictionFor(s.tables.hostLastFetch, t.tables.hostLastFetch, s.clock), HostOf(lib, id), 0);
  }

  lemma OldestGoes(hosts: seq<string>, order: seq<string>)
    requires NoDuplicates(hosts) && |hosts| == HOST_ENTRIES && "" !in hosts
    requires Enumerates(order, Times(hosts).Keys)
    requires FreshHosts(Times(hosts), HOST_ENTRIES) == Times(hosts)
    ensures hosts[0] !in EvictHosts(Times(hosts), order, HOST_ENTRIES)
  {
    TimesSize(hosts);
    TimesAt(hosts, 0);
    assert forall k :: k in Times(hosts) <==> k in Elements(order);
    assert forall k :: k in order ==> k in Elements(order);
    OldestSeenIsLeast(order, Times(hosts));
    var oldest := OldestSeen(order, Times(hosts)).0;
    var i :| 0 <= i < |hosts| && hosts[i] == oldest;
    TimesAt(hosts, i);
  }

  ghost predicate ReachesRush(lib: UrlLibrary, clock: Time, s: State) {
    Reachable(lib, clock, s) && Rushed(s)
  }

  ghost predicate ManyHosts(lib: UrlLibrary, ids: seq<string>) {
    Distinct(lib, ids) && |ids| == HOST_ENTRIES
  }

  // Some run fetches one host twice within a second exactly when the valid
  // client ids have at least 2048 hosts.
  lemma SpacingFailsExactly(lib: UrlLibrary)
    requires Lawful(lib)
    ensures (exists clock, s :: ReachesRush(lib, clock, s)) <==> (exists ids :: ManyHosts(lib, ids))
  {
    if clock, s :| ReachesRush(lib, clock, s) {
      var ids := RushNeeds(lib, clock, s);
    }
    if ids :| ManyHosts(lib, ids) {
      var s := RushedRun(lib, ids);
      assert ReachesRush(lib, 0, s);
    }
  }

  lemma RushNeeds(lib: UrlLibrary, clock: Time, s: State) returns (ids: seq<string>)
    requires Lawful(lib) && ReachesRush(lib, clock, s)
    ensures ManyHosts(lib, ids)
  {
    var steps :| Runs(lib, Init(clock), steps) && After(lib, Init(clock), steps) == s;
    var i, j :| 0 <= i < j < |s.log| && TooClose(s.log, i, j);
    var names := set step: Step | step in steps && step.Arrive? && ValidId(lib, step.id) :: HostOf(lib, step.id);
    if |names| < HOST_ENTRIES {
      SpacedWithFewHosts(lib, clock, steps, names, i, j);
    }
    forall h | h in names ensures Known(lib, h) {
      var step: Step :| step in steps && step.Arrive? && ValidId(lib, step.id) && HostOf(lib, step.id) == h;
      assert ValidId(lib, step.id);
    }
    var all := IdsOf(lib, names);
    Prefix(lib, all, HOST_ENTRIES);
    ids := all[..HOST_ENTRIES];
  }

  // ---------------------------------------------------------------- a library that meets both conditions

  predicate Numeric(s: string) {
    forall c :: c in s ==> CacheControl.IsDigit(c)
  }

  function PortId(host: string): string {
    "https://" + host + ":443/x"
  }

  // The URLs https://<digits>:443/x, also with no digits at all, and no others.
  function PortParse(raw: string): Option<Url> {
    if |raw| < 14 then None
    else
      var host := raw[8..|raw| - 6];
      if raw == PortId(host) && Numeric(host)
      then Some(Url("https", host + ":443", host, "443", false, "/x", "", "", [Some("x")]))
      else None
  }

  function PortLibrary(): UrlLibrary {
    UrlLibrary(PortParse, PortParse, (ip: string) => false)
  }

  lemma PortLibraryLawful()
    ensures Lawful(PortLibrary())
  {
    var lib := PortLibrary();
    assert lib.requestUri("") == PortParse("");
    assert forall raw :: lib.requestUri(raw) == PortParse(raw) && lib.parse(raw) == PortParse(raw);
  }

  lemma {:induction false} DecimalShort(n: nat)
    ensures |CacheControl.Decimal(n)| <= n / 2 + 1
  {
    if n >= 10 {
      DecimalShort(n / 10);
    }
  }

  lemma PortIdValid(host: string)
    requires Numeric(host) && |host| <= 1024
    ensures ValidId(PortLibrary(), PortId(host)) && HostOf(PortLibrary(), PortId(host)) == host
  {
    var raw, lib := PortId(host), PortLibrary();
    assert raw[8..|raw| - 6] == host;
    assert lib.requestUri(raw) == PortParse(raw);
    assert '#' !in raw by {
      assert '#' !in "https://" && '#' !in ":443/x";
      assert forall c :: c in raw ==> c in "https://" || c in host || c in ":443/x";
    }
    assert host + ":443" != "" && |host + ":443"| == |host| + 4;
    SameWhenNumeric(host);
  }

  // Lower-casing leaves digits alone.
  lemma SameWhenNumeric(host: string)
    requires Numeric(host)
    ensures ToLower(host) == host
  {
    assert forall i :: 0 <= i < |host| ==> host[i] in host;
  }

  // The decimal names from n down.
  function PortIds(n: nat): seq<string> {
    if n == 0 then [PortId("")] else PortIds(n - 1) + [PortId(CacheControl.Decimal(n - 1))]
  }

  lemma {:induction false} PortIdsAt(n: nat, i: nat)
    requires i <= n
    ensures |PortIds(n)| == n + 1
    ensures PortIds(n)[i] == if i == 0 then PortId("") else PortId(CacheControl.Decimal(i - 1))
  {
    if n > 0 {
      PortIdsAt(n - 1, if i == n then 0 else i);
    }
  }

  function PortHost(i: nat): string {
    if i == 0 then "" else CacheControl.Decimal(i - 1)
  }

  lemma DecimalInjective(m: nat, n: nat)
    requires m < n
    ensures CacheControl.Decimal(m) != CacheControl.Decimal(n)
  {
    var a, b := CacheControl.Decimal(m), CacheControl.Decimal(n);
    assert CacheControl.DigitsValue(a) == m by { CacheControl.DecimalRoundTrip(m); }
    assert CacheControl.DigitsValue(b) == n by { CacheControl.DecimalRoundTrip(n); }
  }

  lemma PortHostDistinct(i: nat, j: nat)
    requires i < j
    ensures PortHost(i) != PortHost(j)
  {
    if i > 0 {
      DecimalInjective(i - 1, j - 1);
    }
  }

  lemma PortHostValid(i: nat)
    requires i <= HOST_ENTRIES
    ensures ValidId(PortLibrary(), PortId(PortHost(i))) && HostOf(PortLibrary(), PortId(PortHost(i))) == PortHost(i)
  {
    if i > 0 {
      DecimalShort(i - 1);
    }
    PortIdValid(PortHost(i));
  }

  // Both conditions are met by a lawful library: its table overflows in some
  // run, and some run fetches one host twice within a second.
  lemma PortLibraryFails() returns (ids: seq<string>, s: State, t: State)
    ensures Lawful(PortLibrary()) && EmptyAmongMany(PortLibrary(), ids)
    ensures Overflows(PortLibrary(), 0, s) && ReachesRush(PortLibrary(), 0, t)
  {
    PortLibraryLawful();
    ids := PortIdsDistinct(PortLibrary());
    s := OverflowRun(PortLibrary(), ids);
    Prefix(PortLibrary(), ids, HOST_ENTRIES);
    t := RushedRun(PortLibrary(), ids[..HOST_ENTRIES]);
  }

  lemma PortIdsDistinct(lib: UrlLibrary) returns (ids: seq<string>)
    requires lib == PortLibrary()
    ensures EmptyAmongMany(lib, ids)
  {
    var n := HOST_ENTRIES;
    ids := PortIds(n);
    PortIdsAt(n, 0);
    forall i | 0 <= i <= n ensures ValidId(lib, ids[i]) && Hosts(lib, ids)[i] == PortHost(i) {
      PortIdsAt(n, i);
      PortHostValid(i);
    }
    forall i, j | 0 <= i < j <= n ensures PortHost(i) != PortHost(j) {
      PortHostDistinct(i, j);
    }
  }
}
