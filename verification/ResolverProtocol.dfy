// Any number of Resolve calls, interleaved: the state machine whose steps are
// the atomic stretches of Resolve, and what every reachable state satisfies.
//
// The clock is read before the lock is taken, so the times a process brings
// into a critical section need not follow the order in which locks are taken.

module ResolverProtocol {
  import opened Prelude
  import opened Text
  import opened Urls
  import opened ClientMetadata
  import opened ResolverTables

  const FETCH_CONCURRENCY := 8

  type Answer = Result<Metadata, ResolveError>

  // A metadataCall: its outcome fields are written by the leader before it
  // closes `done`.
  datatype Call = Call(id: string, leader: nat, result: Option<FetchResult>, closed: bool)

  datatype Process =
    | Arrived(id: string, now: Time)            // validated, clock read, lock not yet taken
    | Following(id: string, call: nat)          // waiting for another process's call
    | AwaitingSlot(id: string, call: nat)       // leader, registered
    | Fetching(id: string, call: nat)           // leader, holding a fetch slot
    | Finishing(id: string, call: nat)          // leader, outcome stored, lock not yet retaken
    | Abandoned(id: string, call: nat)          // follower whose own context was cancelled
    | Returned(id: string, via: Option<nat>, answer: Answer)
  {
    predicate Leads() { AwaitingSlot? || Fetching? || Finishing? }
    predicate Ended() { Abandoned? || Returned? }
  }

  datatype Event =
    | Recorded(host: string, at: Time)          // hostLastFetch[host] := at
    // hosts dropped by the eviction loop for a caller that read `now`; with
    // `crowded` the table was full of fresh entries
    | Evicted(hosts: set<string>, now: Time, crowded: bool)
    | Obtained(id: string, metadata: Metadata)  // a fetch of id succeeded with this record
    | Inserted(id: string, at: Time, entry: CacheEntry)
    | Served(id: string, now: Time, entry: CacheEntry)
    | Closed(call: nat, leader: nat)

  datatype State = State(
    tables: Tables,
    calls: seq<Call>,
    procs: seq<Process>,
    slots: nat,            // tokens in the fetchSlots channel
    clock: Time,
    log: seq<Event>)

  datatype Step =
    | Arrive(id: string)
    | Tick(elapsed: nat)
    | Enter(p: nat, order: seq<string>)
    | FollowerReturns(p: nat)
    | FollowerCancelled(p: nat)
    | TakeSlot(p: nat)
    | LeaderCancelled(p: nat)
    | FetchEnds(p: nat, response: Response)
    | Complete(p: nat, order: seq<string>)

  function HostOf(lib: UrlLibrary, id: string): string {
    match ValidateClientIdUrl(lib, id)
    case None => ""
    case Some(u) => ToLower(u.hostname)
  }

  function AnswerOf(result: FetchResult): Answer {
    match result
    case Fetched(m, _) => Ok(m)
    case Failed(e) => Err(e)
  }

  function Init(clock: Time): State {
    State(Tables(map[], map[], map[]), [], [], 0, clock, [])
  }

  predicate Enabled(s: State, step: Step) {
    match step
    case Arrive(_) => true
    case Tick(_) => true
    case Enter(p, order) =>
      p < |s.procs| && s.procs[p].Arrived? &&
      Enumerates(order, FreshHosts(s.tables.hostLastFetch, s.procs[p].now).Keys)
    case FollowerReturns(p) =>
      p < |s.procs| && s.procs[p].Following? && s.procs[p].call < |s.calls| &&
      s.calls[s.procs[p].call].closed && s.calls[s.procs[p].call].result.Some?
    case FollowerCancelled(p) => p < |s.procs| && s.procs[p].Following?
    case TakeSlot(p) => p < |s.procs| && s.procs[p].AwaitingSlot? && s.slots < FETCH_CONCURRENCY
    case LeaderCancelled(p) =>
      p < |s.procs| && s.procs[p].AwaitingSlot? && s.procs[p].call < |s.calls|
    case FetchEnds(p, _) =>
      p < |s.procs| && s.procs[p].Fetching? && s.procs[p].call < |s.calls| && s.slots > 0
    case Complete(p, order) =>
      p < |s.procs| && s.procs[p].Finishing? && s.procs[p].call < |s.calls| &&
      s.calls[s.procs[p].call].result.Some? && Enumerates(order, s.tables.cache.Keys)
  }

  function Apply(lib: UrlLibrary, s: State, step: Step): State
    requires Enabled(s, step)
  {
    match step
    case Arrive(id) =>
      var proc := if ValidateClientIdUrl(lib, id) == None then Returned(id, None, Err(InvalidClientId))
                  else Arrived(id, s.clock);
      s.(procs := s.procs + [proc])
    case Tick(elapsed) => s.(clock := s.clock + elapsed)
    case Enter(p, order) => ApplyEnter(lib, s, p, order)
    case FollowerReturns(p) =>
      var c := s.procs[p].call;
      s.(procs := s.procs[p := Returned(s.procs[p].id, Some(c), AnswerOf(s.calls[c].result.value))])
    case FollowerCancelled(p) =>
      s.(procs := s.procs[p := Abandoned(s.procs[p].id, s.procs[p].call)])
    case TakeSlot(p) =>
      s.(procs := s.procs[p := Fetching(s.procs[p].id, s.procs[p].call)], slots := s.slots + 1)
    case LeaderCancelled(p) => StoreResult(s, p, Failed(Cancelled))
    case FetchEnds(p, response) =>
      var result := Fetch(lib, s.procs[p].id, response);
      var stored := StoreResult(s, p, result).(slots := s.slots - 1);
      if result.Fetched? then stored.(log := s.log + [Obtained(s.procs[p].id, result.metadata)]) else stored
    case Complete(p, order) => ApplyComplete(s, p, order)
  }

  function ApplyEnter(lib: UrlLibrary, s: State, p: nat, order: seq<string>): State
    requires Enabled(s, Enter(p, order))
  {
    var Arrived(id, now) := s.procs[p];
    var host := HostOf(lib, id);
    match Decide(s.tables, id, host, now)
    case Hit(m) =>
      s.(procs := s.procs[p := Returned(id, None, Ok(m))],
         log := s.log + [Served(id, now, s.tables.cache[id])])
    case Follow(c) => s.(procs := s.procs[p := Following(id, c)])
    case Reject => s.(procs := s.procs[p := Returned(id, None, Err(RateExceeded))])
    case Lead =>
      var c := |s.calls|;
      var tables := Register(s.tables, id, host, now, c, order);
      s.(tables := tables,
         calls := s.calls + [Call(id, p, None, false)],
         procs := s.procs[p := AwaitingSlot(id, c)],
         log := s.log + [EvictionFor(s.tables.hostLastFetch, tables.hostLastFetch, now), Recorded(host, now)])
  }

  function EvictionFor(hosts: map<string, Time>, after: map<string, Time>, now: Time): Event {
    Evicted(hosts.Keys - after.Keys, now, |FreshHosts(hosts, now)| >= HOST_ENTRIES)
  }

  function StoreResult(s: State, p: nat, result: FetchResult): State
    requires p < |s.procs| && s.procs[p].Leads() && s.procs[p].call < |s.calls|
  {
    var c := s.procs[p].call;
    s.(calls := s.calls[c := s.calls[c].(result := Some(result))],
       procs := s.procs[p := Finishing(s.procs[p].id, c)])
  }

  // The completion time is read under the lock.
  function ApplyComplete(s: State, p: nat, order: seq<string>): State
    requires Enabled(s, Complete(p, order))
  {
    var Finishing(id, c) := s.procs[p];
    var result := s.calls[c].result.value;
    var inserted :=
      if result.Fetched? && result.ttl > 0
      then [Inserted(id, s.clock, CacheEntry(result.metadata, s.clock + result.ttl))] else [];
    s.(tables := Unregister(s.tables, id, result, s.clock, order),
       calls := s.calls[c := s.calls[c].(closed := true)],
       procs := s.procs[p := Returned(id, Some(c), AnswerOf(result))],
       log := s.log + inserted + [Closed(c, p)])
  }

  // ---------------------------------------------------------------- runs

  ghost predicate Runs(lib: UrlLibrary, s: State, steps: seq<Step>)
    decreases |steps|
  {
    steps == [] || (Enabled(s, steps[0]) && Runs(lib, Apply(lib, s, steps[0]), steps[1..]))
  }

  ghost function After(lib: UrlLibrary, s: State, steps: seq<Step>): State
    requires Runs(lib, s, steps)
    decreases |steps|
  {
    if steps == [] then s else After(lib, Apply(lib, s, steps[0]), steps[1..])
  }

  // ---------------------------------------------------------------- single flight

  // Open calls, leaders and in-flight entries correspond one to one; a closed
  // call has a result, and everyone who returned through it has that result.
  ghost predicate CallsAgree(s: State) {
    && (forall c :: 0 <= c < |s.calls| ==> CallOk(s, c))
    && (forall p :: 0 <= p < |s.procs| ==> ProcessOk(s, p))
    && (forall id :: id in s.tables.inflight ==> OpenCall(s, s.tables.inflight[id], id))
  }

  ghost predicate OpenCall(s: State, c: nat, id: string) {
    c < |s.calls| && s.calls[c].id == id && !s.calls[c].closed
  }

  ghost predicate CallOk(s: State, c: nat)
    requires c < |s.calls|
  {
    var call := s.calls[c];
    && call.leader < |s.procs|
    && if call.closed then
         call.result.Some? && s.procs[call.leader] == Returned(call.id, Some(c), AnswerOf(call.result.value))
       else
         && s.procs[call.leader].Leads()
         && s.procs[call.leader].call == c && s.procs[call.leader].id == call.id
         && call.id in s.tables.inflight && s.tables.inflight[call.id] == c
         && (call.result.Some? <==> s.procs[call.leader].Finishing?)
  }

  ghost predicate ProcessOk(s: State, p: nat)
    requires p < |s.procs|
  {
    var proc := s.procs[p];
    match proc
    case Arrived(_, now) => now <= s.clock
    case Following(id, c) => c < |s.calls| && s.calls[c].id == id
    case Abandoned(id, c) => c < |s.calls| && s.calls[c].id == id
    case Returned(id, via, answer) =>
      via.Some? ==>
        && via.value < |s.calls| && s.calls[via.value].id == id
        && s.calls[via.value].closed && s.calls[via.value].result.Some?
        && answer == AnswerOf(s.calls[via.value].result.value)
    case _ => OpenCall(s, proc.call, proc.id) && s.calls[proc.call].leader == p
  }

  lemma CallsAgreeEnter(lib: UrlLibrary, s: State, p: nat, order: seq<string>)
    requires CallsAgree(s) && Enabled(s, Enter(p, order))
    ensures CallsAgree(ApplyEnter(lib, s, p, order))
  {
    var s' := ApplyEnter(lib, s, p, order);
    assert ProcessOk(s, p);
    if Decide(s.tables, s.procs[p].id, HostOf(lib, s.procs[p].id), s.procs[p].now).Lead? {
      CallsAgreeLead(s, s', p, s.procs[p].id);
    } else {
      CallsAgreeProcess(s, s', p);
    }
  }

  // A call that leads for nobody moves on, and nothing else changes.
  lemma CallsAgreeProcess(s: State, s': State, p: nat)
    requires CallsAgree(s) && p < |s.procs| == |s'.procs| && s.procs[p].Arrived?
    requires s'.calls == s.calls && s'.tables.inflight == s.tables.inflight && s'.clock == s.clock
    requires forall q :: 0 <= q < |s.procs| && q != p ==> s'.procs[q] == s.procs[q]
    requires (s'.procs[p].Returned? && s'.procs[p].via == None) ||
             (s'.procs[p].Following? && s'.procs[p].id in s.tables.inflight &&
              s'.procs[p].call == s.tables.inflight[s'.procs[p].id])
    ensures CallsAgree(s')
  {
    forall c | 0 <= c < |s'.calls| ensures CallOk(s', c) {
      assert CallOk(s, c);
    }
    forall q | 0 <= q < |s'.procs| ensures ProcessOk(s', q) {
      assert ProcessOk(s, q);
      assert q == p && s'.procs[p].Following? ==> OpenCall(s, s'.procs[p].call, s'.procs[p].id);
    }
    forall id | id in s'.tables.inflight ensures OpenCall(s', s'.tables.inflight[id], id) {
      assert OpenCall(s, s.tables.inflight[id], id);
    }
  }

  // A call registers as the leader of a new call.
  lemma CallsAgreeLead(s: State, s': State, p: nat, id: string)
    requires CallsAgree(s) && p < |s.procs| && s.procs[p].Arrived? && id !in s.tables.inflight
    requires s'.calls == s.calls + [Call(id, p, None, false)] && s'.clock == s.clock
    requires s'.tables.inflight == s.tables.inflight[id := |s.calls|]
    requires s'.procs == s.procs[p := AwaitingSlot(id, |s.calls|)]
    ensures CallsAgree(s')
  {
    forall c | 0 <= c < |s'.calls| ensures CallOk(s', c) {
      assert c < |s.calls| ==> CallOk(s, c);
    }
    forall q | 0 <= q < |s'.procs| ensures ProcessOk(s', q) {
      assert ProcessOk(s, q);
    }
    forall k | k in s'.tables.inflight ensures OpenCall(s', s'.tables.inflight[k], k) {
      assert k != id ==> OpenCall(s, s.tables.inflight[k], k);
    }
  }

  lemma CallsAgreeStore(s: State, p: nat, result: FetchResult)
    requires CallsAgree(s) && p < |s.procs|
    requires (s.procs[p].AwaitingSlot? || s.procs[p].Fetching?) && s.procs[p].call < |s.calls|
    ensures CallsAgree(StoreResult(s, p, result))
  {
    var s' := StoreResult(s, p, result);
    assert ProcessOk(s, p);
    forall c | 0 <= c < |s'.calls| ensures CallOk(s', c) {
      assert CallOk(s, c);
    }
    forall q | 0 <= q < |s'.procs| ensures ProcessOk(s', q) {
      assert ProcessOk(s, q);
    }
    forall id | id in s'.tables.inflight ensures OpenCall(s', s'.tables.inflight[id], id) {
      assert OpenCall(s, s.tables.inflight[id], id);
    }
  }

  lemma CallsAgreeComplete(s: State, p: nat, order: seq<string>)
    requires CallsAgree(s) && Enabled(s, Complete(p, order))
    ensures CallsAgree(ApplyComplete(s, p, order))
  {
    var s' := ApplyComplete(s, p, order);
    assert ProcessOk(s, p);
    assert CallOk(s, s.procs[p].call);
    forall c | 0 <= c < |s'.calls| ensures CallOk(s', c) {
      assert CallOk(s, c);
    }
    forall q | 0 <= q < |s'.procs| ensures ProcessOk(s', q) {
      assert ProcessOk(s, q);
    }
    forall id | id in s'.tables.inflight ensures OpenCall(s', s'.tables.inflight[id], id) {
      assert OpenCall(s, s.tables.inflight[id], id);
    }
  }

  lemma CallsAgreeStep(lib: UrlLibrary, s: State, step: Step)
    requires CallsAgree(s) && Enabled(s, step)
    ensures CallsAgree(Apply(lib, s, step))
  {
    match step
    case Enter(p, order) => CallsAgreeEnter(lib, s, p, order);
    case LeaderCancelled(p) => CallsAgreeStore(s, p, Failed(Cancelled));
    case FetchEnds(p, response) =>
      CallsAgreeStore(s, p, Fetch(lib, s.procs[p].id, response));
      CallsAgreeFrame(StoreResult(s, p, Fetch(lib, s.procs[p].id, response)), Apply(lib, s, step));
    case Complete(p, order) => CallsAgreeComplete(s, p, order);
    case _ => CallsAgreeOther(lib, s, step);
  }

  // Slots and log play no part.
  lemma CallsAgreeFrame(s: State, t: State)
    requires CallsAgree(s)
    requires s.tables == t.tables && s.calls == t.calls && s.procs == t.procs && s.clock == t.clock
    ensures CallsAgree(t)
  {
    forall c | 0 <= c < |t.calls| ensures CallOk(t, c) {
      assert CallOk(s, c);
    }
    forall p | 0 <= p < |t.procs| ensures ProcessOk(t, p) {
      assert ProcessOk(s, p);
    }
    forall id | id in t.tables.inflight ensures OpenCall(t, t.tables.inflight[id], id) {
      assert OpenCall(s, s.tables.inflight[id], id);
    }
  }

  lemma CallsAgreeOther(lib: UrlLibrary, s: State, step: Step)
    requires CallsAgree(s) && Enabled(s, step)
    requires step.Arrive? || step.Tick? || step.FollowerReturns? || step.FollowerCancelled? || step.TakeSlot?
    ensures CallsAgree(Apply(lib, s, step))
  {
    var s' := Apply(lib, s, step);
    forall c | 0 <= c < |s'.calls| ensures CallOk(s', c) {
      assert CallOk(s, c);
    }
    forall q | 0 <= q < |s'.procs| ensures ProcessOk(s', q) {
      assert q < |s.procs| ==> ProcessOk(s, q);
    }
    forall id | id in s'.tables.inflight ensures OpenCall(s', s'.tables.inflight[id], id) {
      assert OpenCall(s, s.tables.inflight[id], id);
    }
  }
}
