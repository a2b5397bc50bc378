// What the steps of a resolver do to its tables, calls and processes, and what
// follows for a client from the end of a fetch to an answer out of the cache.

module ResolverOutcomes {
  import opened Prelude
  import opened Urls
  import opened ClientMetadata
  import opened NormalForms
  import opened ResolverTables
  import opened ResolverProtocol
  import opened ResolverSafety
  import CacheControl

  // ---------------------------------------------------------------- single steps

  // Only process `p` moves, to `proc`.
  ghost predicate Moves(s: State, s': State, p: nat, proc: Process) {
    && p < |s.procs| == |s'.procs| && s'.procs[p] == proc && s'.clock == s.clock
    && forall q :: 0 <= q < |s.procs| && q != p ==> s'.procs[q] == s.procs[q]
  }

  ghost predicate Gets(answer: Answer, result: FetchResult) {
    match result
    case Fetched(m, _) => answer == Ok(m)
    case Failed(e) => answer == Err(e)
  }

  ghost predicate EntersWith(lib: UrlLibrary, s: State, s': State, p: nat, id: string, now: Time, d: Decision) {
    && Admission(s.tables, s'.tables, id, HostOf(lib, id), now, |s.calls|, d)
    && match d
       case Hit(m) => Moves(s, s', p, Returned(id, None, Ok(m))) && s'.calls == s.calls
       case Follow(c) => Moves(s, s', p, Following(id, c)) && s'.calls == s.calls
       case Reject => Moves(s, s', p, Returned(id, None, Err(RateExceeded))) && s'.calls == s.calls
       case Lead =>
         && Moves(s, s', p, AwaitingSlot(id, |s.calls|)) && s'.calls == s.calls + [Call(id, p, None, false)]
         && LogsRegistration(s, s', HostOf(lib, id), now)
  }

  // A registration puts on record the hosts it dropped, whether it found the
  // table full of hosts fetched within the second, and its own fetch time.
  ghost predicate LogsRegistration(s: State, s': State, host: string, now: Time) {
    var hosts := s.tables.hostLastFetch;
    var gone := set h | h in hosts && h !in s'.tables.hostLastFetch;
    var recent := set h | h in hosts && now - hosts[h] < 1_000_000_000;
    s'.log == s.log + [Evicted(gone, now, |recent| >= 2048), Recorded(host, now)]
  }

  lemma LeadLogs(lib: UrlLibrary, s: State, p: nat, order: seq<string>)
    requires Enabled(s, Enter(p, order))
    requires Decide(s.tables, s.procs[p].id, HostOf(lib, s.procs[p].id), s.procs[p].now).Lead?
    ensures LogsRegistration(s, ApplyEnter(lib, s, p, order), HostOf(lib, s.procs[p].id), s.procs[p].now)
  {
    var hosts, now := s.tables.hostLastFetch, s.procs[p].now;
    var after := ApplyEnter(lib, s, p, order).tables.hostLastFetch;
    assert FreshHosts(hosts, now).Keys == set h | h in hosts && now - hosts[h] < 1_000_000_000;
    assert hosts.Keys - after.Keys == set h | h in hosts && h !in after;
  }

  // Storing `result` for the call that `p` leads.
  ghost predicate EndsWith(s: State, s': State, p: nat, id: string, c: nat, result: FetchResult) {
    && s'.tables == s.tables && Moves(s, s', p, Finishing(id, c))
    && c < |s.calls| == |s'.calls| && s'.calls[c].result == Some(result)
    && forall k :: 0 <= k < |s.calls| && k != c ==> s'.calls[k] == s.calls[k]
  }

  ghost predicate CompletesWith(s: State, s': State, p: nat, id: string, c: nat, result: FetchResult) {
    && TablesAfterEnd(s.tables, s'.tables, id, result, s.clock)
    && c < |s.calls| && s'.calls == s.calls[c := s.calls[c].(closed := true)]
    && exists answer :: Gets(answer, result) && Moves(s, s', p, Returned(id, Some(c), answer))
  }

  lemma EnterOutcome(lib: UrlLibrary, s: State, p: nat, order: seq<string>)
    requires Enabled(s, Enter(p, order))
    ensures exists d :: EntersWith(lib, s, Apply(lib, s, Enter(p, order)), p, s.procs[p].id, s.procs[p].now, d)
  {
    var Arrived(id, now) := s.procs[p];
    var host := HostOf(lib, id);
    EnterExactly(s.tables, id, host, now, |s.calls|, order);
    if Decide(s.tables, id, host, now).Lead? {
      LeadLogs(lib, s, p, order);
    }
    var s' := Apply(lib, s, Enter(p, order));
    assert EntersWith(lib, s, s', p, s.procs[p].id, s.procs[p].now, Decide(s.tables, id, host, now));
  }

  lemma FetchOutcome(lib: UrlLibrary, s: State, p: nat, r: Response) returns (result: FetchResult)
    requires Enabled(s, FetchEnds(p, r))
    ensures FetchGives(lib, s.procs[p].id, r, result)
    ensures EndsWith(s, Apply(lib, s, FetchEnds(p, r)), p, s.procs[p].id, s.procs[p].call, result)
  {
    FetchExactly(lib, s.procs[p].id, r);
    result := Fetch(lib, s.procs[p].id, r);
  }

  lemma CacheHasRoom(lib: UrlLibrary, s: State)
    requires Lawful(lib) && Invariant(lib, s)
    ensures "" !in s.tables.cache && |s.tables.cache| <= CACHE_ENTRIES
  {
    EmptyIdInvalid(lib);
  }

  lemma CompleteOutcome(s: State, p: nat, order: seq<string>)
    requires Enabled(s, Complete(p, order))
    requires "" !in s.tables.cache && |s.tables.cache| <= CACHE_ENTRIES
    ensures CompletesWith(s, ApplyComplete(s, p, order), p, s.procs[p].id, s.procs[p].call,
                          s.calls[s.procs[p].call].result.value)
  {
    var Finishing(id, c) := s.procs[p];
    var result := s.calls[c].result.value;
    UnregisterExactly(s.tables, id, result, s.clock, order);
    assert Gets(AnswerOf(result), result);
    assert Moves(s, ApplyComplete(s, p, order), p, Returned(id, Some(c), AnswerOf(result)));
  }

  // What each step of a call does, in every reachable state.
  ghost predicate StepOutcome(lib: UrlLibrary, s: State, step: Step, s': State)
    requires Enabled(s, step)
  {
    match step
    case Arrive(id) =>
      && s'.tables == s.tables && s'.calls == s.calls && |s'.procs| == |s.procs| + 1
      && (forall q :: 0 <= q < |s.procs| ==> s'.procs[q] == s.procs[q])
      && s'.procs[|s.procs|] == (if ValidId(lib, id) then Arrived(id, s.clock)
                                 else Returned(id, None, Err(InvalidClientId)))
    case Tick(elapsed) =>
      s'.tables == s.tables && s'.calls == s.calls && s'.procs == s.procs && s'.clock == s.clock + elapsed
    case Enter(p, _) => exists d :: EntersWith(lib, s, s', p, s.procs[p].id, s.procs[p].now, d)
    case FollowerReturns(p) =>
      && s'.tables == s.tables && s'.calls == s.calls
      && exists answer :: Gets(answer, s.calls[s.procs[p].call].result.value) &&
                          Moves(s, s', p, Returned(s.procs[p].id, Some(s.procs[p].call), answer))
    case FollowerCancelled(p) =>
      s'.tables == s.tables && s'.calls == s.calls && Moves(s, s', p, Abandoned(s.procs[p].id, s.procs[p].call))
    case TakeSlot(p) =>
      s'.tables == s.tables && s'.calls == s.calls && Moves(s, s', p, Fetching(s.procs[p].id, s.procs[p].call))
    case LeaderCancelled(p) => EndsWith(s, s', p, s.procs[p].id, s.procs[p].call, Failed(Cancelled))
    case FetchEnds(p, r) =>
      exists result :: FetchGives(lib, s.procs[p].id, r, result) &&
                       EndsWith(s, s', p, s.procs[p].id, s.procs[p].call, result)
    case Complete(p, _) =>
      CompletesWith(s, s', p, s.procs[p].id, s.procs[p].call, s.calls[s.procs[p].call].result.value)
  }

  lemma StepsDo(lib: UrlLibrary, clock: Time, steps: seq<Step>, step: Step)
    requires Lawful(lib) && Runs(lib, Init(clock), steps) && Enabled(After(lib, Init(clock), steps), step)
    ensures var s := After(lib, Init(clock), steps);
            StepOutcome(lib, s, step, Apply(lib, s, step))
  {
    InvariantReachable(lib, clock, steps);
    StepDoes(lib, After(lib, Init(clock), steps), step);
  }

  lemma StepDoes(lib: UrlLibrary, s: State, step: Step)
    requires Lawful(lib) && Invariant(lib, s) && Enabled(s, step)
    ensures StepOutcome(lib, s, step, Apply(lib, s, step))
  {
    if step.Enter? {
      EnterOutcome(lib, s, step.p, step.order);
    } else if step.FetchEnds? {
      var result := FetchOutcome(lib, s, step.p, step.response);
    } else if step.Complete? {
      CacheHasRoom(lib, s);
      CompleteOutcome(s, step.p, step.order);
    } else if step.FollowerReturns? {
      FollowerOutcome(lib, s, step.p);
    }
  }

  lemma FollowerOutcome(lib: UrlLibrary, s: State, p: nat)
    requires Enabled(s, FollowerReturns(p))
    ensures StepOutcome(lib, s, FollowerReturns(p), Apply(lib, s, FollowerReturns(p)))
  {
    var result := s.calls[s.procs[p].call].result.value;
    assert Gets(AnswerOf(result), result);
    assert Moves(s, Apply(lib, s, FollowerReturns(p)), p, Returned(s.procs[p].id, Some(s.procs[p].call), AnswerOf(result)));
  }

  // ---------------------------------------------------------------- from fetch to cache to answer

  // The call of `p` has this result, and `p` has still to take the lock.
  ghost predicate Pending(s: State, p: nat, id: string, c: nat, result: FetchResult) {
    && p < |s.procs| && s.procs[p] == Finishing(id, c)
    && c < |s.calls| && s.calls[c].result == Some(result)
  }

  // Nobody but `p` ends this: the result stays until `p` completes.
  lemma PendingStep(lib: UrlLibrary, s: State, step: Step, p: nat, id: string, c: nat, result: FetchResult)
    requires Lawful(lib) && Invariant(lib, s) && Enabled(s, step) && Pending(s, p, id, c, result)
    ensures var s' := Apply(lib, s, step);
            if step.Complete? && step.p == p then s'.procs[p].Returned? else Pending(s', p, id, c, result)
  {
    assert ProcessOk(s, p);
    if step.LeaderCancelled? || step.FetchEnds? {
      assert ProcessOk(s, step.p);
      PendingStored(lib, s, step, p, id, c, result);
    } else if step.Enter? {
      PendingEnter(lib, s, step.p, step.order, p, id, c, result);
    } else if step.Complete? {
      PendingComplete(s, step.p, step.order, p, id, c, result);
    } else {
      PendingOther(lib, s, step, p, id, c, result);
    }
  }

  lemma PendingEnter(lib: UrlLibrary, s: State, q: nat, order: seq<string>, p: nat, id: string, c: nat, result: FetchResult)
    requires Enabled(s, Enter(q, order)) && Pending(s, p, id, c, result)
    ensures Pending(ApplyEnter(lib, s, q, order), p, id, c, result)
  {
  }

  lemma PendingComplete(s: State, q: nat, order: seq<string>, p: nat, id: string, c: nat, result: FetchResult)
    requires Enabled(s, Complete(q, order)) && Pending(s, p, id, c, result)
    ensures var s' := ApplyComplete(s, q, order);
            if q == p then s'.procs[p].Returned? else Pending(s', p, id, c, result)
  {
  }

  lemma PendingOther(lib: UrlLibrary, s: State, step: Step, p: nat, id: string, c: nat, result: FetchResult)
    requires Enabled(s, step) && Pending(s, p, id, c, result)
    requires step.Arrive? || step.Tick? || step.FollowerReturns? || step.FollowerCancelled? || step.TakeSlot?
    ensures Pending(Apply(lib, s, step), p, id, c, result)
  {
  }

  lemma PendingStored(lib: UrlLibrary, s: State, step: Step, p: nat, id: string, c: nat, result: FetchResult)
    requires (step.LeaderCancelled? || step.FetchEnds?) && Enabled(s, step) && Pending(s, p, id, c, result)
    requires s.procs[step.p].call == c ==> step.p == p
    ensures Pending(Apply(lib, s, step), p, id, c, result)
  {
  }

  lemma ReturnedStaysStep(lib: UrlLibrary, s: State, step: Step, p: nat)
    requires Enabled(s, step) && p < |s.procs| && s.procs[p].Returned?
    ensures p < |Apply(lib, s, step).procs| && Apply(lib, s, step).procs[p] == s.procs[p]
  {
    if step.Enter? {
      var s' := ApplyEnter(lib, s, step.p, step.order);
      assert |s'.procs| == |s.procs| && s'.procs[p] == s.procs[p];
    }
  }

  lemma {:induction false} ReturnedStays(lib: UrlLibrary, s: State, steps: seq<Step>, p: nat)
    requires Runs(lib, s, steps) && p < |s.procs| && s.procs[p].Returned?
    ensures p < |After(lib, s, steps).procs| && After(lib, s, steps).procs[p] == s.procs[p]
    decreases |steps|
  {
    if steps != [] {
      ReturnedStaysStep(lib, s, steps[0], p);
      ReturnedStays(lib, Apply(lib, s, steps[0]), steps[1..], p);
    }
  }

  lemma {:induction false} PendingRun(lib: UrlLibrary, s: State, steps: seq<Step>, p: nat, id: string, c: nat,
                                      result: FetchResult)
    requires Lawful(lib) && Invariant(lib, s) && Runs(lib, s, steps) && Pending(s, p, id, c, result)
    ensures var s' := After(lib, s, steps);
            p < |s'.procs| && (s'.procs[p].Returned? || Pending(s', p, id, c, result))
    decreases |steps|
  {
    if steps != [] {
      var next := Apply(lib, s, steps[0]);
      PendingStep(lib, s, steps[0], p, id, c, result);
      if next.procs[p].Returned? {
        ReturnedStays(lib, next, steps[1..], p);
      } else {
        InvariantStep(lib, s, steps[0]);
        PendingRun(lib, next, steps[1..], p, id, c, result);
      }
    }
  }

  lemma PendingCompletes(lib: UrlLibrary, s: State, steps: seq<Step>, p: nat, id: string, c: nat,
                         result: FetchResult, order: seq<string>)
    requires Lawful(lib) && Invariant(lib, s) && Runs(lib, s, steps) && Pending(s, p, id, c, result)
    requires Enabled(After(lib, s, steps), Complete(p, order))
    ensures var s' := After(lib, s, steps);
            CompletesWith(s', Apply(lib, s', Complete(p, order)), p, id, c, result)
  {
    PendingRun(lib, s, steps, p, id, c, result);
    InvariantRun(lib, s, steps);
    CacheHasRoom(lib, After(lib, s, steps));
    CompleteOutcome(After(lib, s, steps), p, order);
  }

  // `p` fetches from `s0` on, others step in between, and `p` completes in `s1`.
  ghost predicate FetchAndComplete(lib: UrlLibrary, s0: State, p: nat, r: Response, between: seq<Step>, s1: State,
                                   order: seq<string>) {
    && Enabled(s0, FetchEnds(p, r)) && Runs(lib, Apply(lib, s0, FetchEnds(p, r)), between)
    && s1 == After(lib, Apply(lib, s0, FetchEnds(p, r)), between) && Enabled(s1, Complete(p, order))
  }

  // From the end of a fetch to the completion of the call, whatever happens in
  // between: the caller gets what the response is worth, and so does the cache.
  lemma FetchedIsReturnedAndCached(lib: UrlLibrary, clock: Time, before: seq<Step>, p: nat, r: Response,
                                   between: seq<Step>, s0: State, s1: State, order: seq<string>)
      returns (result: FetchResult)
    requires Lawful(lib) && Runs(lib, Init(clock), before) && s0 == After(lib, Init(clock), before)
    requires FetchAndComplete(lib, s0, p, r, between, s1, order)
    ensures FetchGives(lib, s0.procs[p].id, r, result)
    ensures CompletesWith(s1, Apply(lib, s1, Complete(p, order)), p, s0.procs[p].id, s0.procs[p].call, result)
  {
    InvariantReachable(lib, clock, before);
    InvariantStep(lib, s0, FetchEnds(p, r));
    result := FetchOutcome(lib, s0, p, r);
    PendingCompletes(lib, Apply(lib, s0, FetchEnds(p, r)), between, p, s0.procs[p].id, s0.procs[p].call, result, order);
  }

  // A response that forbids caching, or whose age cannot be read or is not
  // positive, leaves the cache as it is.
  lemma UncacheableIsNotCached(lib: UrlLibrary, clock: Time, before: seq<Step>, p: nat, r: Response,
                               between: seq<Step>, s0: State, s1: State, order: seq<string>)
    requires Lawful(lib) && Runs(lib, Init(clock), before) && s0 == After(lib, Init(clock), before)
    requires FetchAndComplete(lib, s0, p, r, between, s1, order)
    requires r.Response?
    requires || CacheControl.NoCaching(r.cacheControl)
             || exists age :: CacheControl.FirstAge(r.cacheControl, age) &&
                              forall n :: CacheControl.Counts(age, n) ==> n <= 0
    ensures Apply(lib, s1, Complete(p, order)).tables.cache == s1.tables.cache
  {
    var result := FetchedIsReturnedAndCached(lib, clock, before, p, r, between, s0, s1, order);
  }

  // ---------------------------------------------------------------- answers out of the cache

  // No call for this client completes, and none while the cache is full.
  ghost predicate Undisturbed(lib: UrlLibrary, s: State, steps: seq<Step>, id: string)
    requires Runs(lib, s, steps)
    decreases |steps|
  {
    steps != [] ==>
      && (steps[0].Complete? ==> s.procs[steps[0].p].id != id && |s.tables.cache| < 1024)
      && Undisturbed(lib, Apply(lib, s, steps[0]), steps[1..], id)
  }

  lemma EntryStaysStep(lib: UrlLibrary, s: State, step: Step, id: string)
    requires Lawful(lib) && Invariant(lib, s) && Enabled(s, step) && id in s.tables.cache
    requires step.Complete? ==> s.procs[step.p].id != id && |s.tables.cache| < 1024
    ensures var cache := Apply(lib, s, step).tables.cache;
            id in cache && cache[id] == s.tables.cache[id]
  {
    StepDoes(lib, s, step);
  }

  lemma {:induction false} EntryStays(lib: UrlLibrary, s: State, steps: seq<Step>, id: string)
    requires Lawful(lib) && Invariant(lib, s) && Runs(lib, s, steps) && id in s.tables.cache
    requires Undisturbed(lib, s, steps, id)
    ensures var cache := After(lib, s, steps).tables.cache;
            id in cache && cache[id] == s.tables.cache[id]
    decreases |steps|
  {
    if steps != [] {
      EntryStaysStep(lib, s, steps[0], id);
      InvariantStep(lib, s, steps[0]);
      EntryStays(lib, Apply(lib, s, steps[0]), steps[1..], id);
    }
  }

  // A call whose reading of the clock is before the expiry of a present entry
  // is answered with it at once, and nothing else changes.
  lemma LiveEntryAnswers(lib: UrlLibrary, clock: Time, steps: seq<Step>, q: nat, order: seq<string>)
    requires Lawful(lib) && Runs(lib, Init(clock), steps)
    requires Enabled(After(lib, Init(clock), steps), Enter(q, order))
    requires var s := After(lib, Init(clock), steps);
             var id := s.procs[q].id;
             id in s.tables.cache && s.procs[q].now < s.tables.cache[id].expiresAt
    ensures var s := After(lib, Init(clock), steps);
            var s' := Apply(lib, s, Enter(q, order));
            var id := s.procs[q].id;
            && s'.tables == s.tables && s'.calls == s.calls
            && Moves(s, s', q, Returned(id, None, Ok(s.tables.cache[id].metadata)))
  {
    EnterOutcome(lib, After(lib, Init(clock), steps), q, order);
  }

  // A call that completes with a record of positive lifetime makes every later
  // call for that client an answer with that record, up to the expiry and as
  // long as the entry is not disturbed.
  lemma CompletedCallAnswersLater(lib: UrlLibrary, clock: Time, before: seq<Step>, p: nat, order: seq<string>,
                                  between: seq<Step>, q: nat, order': seq<string>, m: Metadata, ttl: Time)
    requires Lawful(lib) && Runs(lib, Init(clock), before)
    requires var s0 := After(lib, Init(clock), before);
             && Enabled(s0, Complete(p, order))
             && s0.calls[s0.procs[p].call].result == Some(Fetched(m, ttl)) && ttl > 0
    requires var s0 := After(lib, Init(clock), before);
             var s1 := Apply(lib, s0, Complete(p, order));
             && Runs(lib, s1, between) && Undisturbed(lib, s1, between, s0.procs[p].id)
             && Enabled(After(lib, s1, between), Enter(q, order'))
             && var caller := After(lib, s1, between).procs[q];
                caller.id == s0.procs[p].id && caller.now < s0.clock + ttl
    ensures var s0 := After(lib, Init(clock), before);
            var s2 := After(lib, Apply(lib, s0, Complete(p, order)), between);
            var s3 := Apply(lib, s2, Enter(q, order'));
            s3.tables == s2.tables && Moves(s2, s3, q, Returned(s0.procs[p].id, None, Ok(m)))
  {
    var s0 := After(lib, Init(clock), before);
    var s1 := Apply(lib, s0, Complete(p, order));
    InvariantReachable(lib, clock, before);
    CacheHasRoom(lib, s0);
    CompleteOutcome(s0, p, order);
    InvariantStep(lib, s0, Complete(p, order));
    EntryStays(lib, s1, between, s0.procs[p].id);
    EnterOutcome(lib, After(lib, s1, between), q, order');
  }
}
