// Liveness of the resolver, assuming fetches end: nothing waits forever for
// something that cannot happen, and every call takes a bounded number of steps.

module ResolverProgress {
  import opened Urls
  import opened ResolverTables
  import opened ResolverProtocol
  import opened ResolverSafety

  // Steps of a process that is not being cancelled.
  predicate Advances(step: Step) {
    step.Enter? || step.FollowerReturns? || step.TakeSlot? || step.FetchEnds? || step.Complete?
  }

  lemma {:induction false} SomeoneFetches(procs: seq<Process>) returns (p: nat)
    requires CountFetching(procs) > 0
    ensures p < |procs| && procs[p].Fetching?
  {
    p := |procs| - 1;
    if !procs[p].Fetching? {
      p := SomeoneFetches(procs[..p]);
    }
  }

  lemma FetchCanEnd(lib: UrlLibrary, s: State, p: nat) returns (step: Step)
    requires Invariant(lib, s) && p < |s.procs| && s.procs[p].Fetching?
    ensures Advances(step) && Enabled(s, step)
  {
    assert ProcessOk(s, p);
    CountAfterUpdate(s.procs, p, s.procs[p]);
    step := FetchEnds(p, TransportFailure);
  }

  lemma LeaderCanMove(lib: UrlLibrary, s: State, p: nat) returns (step: Step)
    requires Invariant(lib, s) && p < |s.procs| && s.procs[p].Leads()
    ensures Advances(step) && Enabled(s, step)
  {
    assert ProcessOk(s, p) && CallOk(s, s.procs[p].call);
    match s.procs[p]
    case AwaitingSlot(_, _) =>
      if s.slots < FETCH_CONCURRENCY {
        step := TakeSlot(p);
      } else {
        var q := SomeoneFetches(s.procs);
        step := FetchCanEnd(lib, s, q);
      }
    case Fetching(_, _) => step := FetchCanEnd(lib, s, p);
    case Finishing(_, _) =>
      var order := SomeOrder(s.tables.cache.Keys);
      step := Complete(p, order);
  }

  lemma UnfinishedCanMove(lib: UrlLibrary, s: State, p: nat) returns (step: Step)
    requires Invariant(lib, s) && p < |s.procs| && !s.procs[p].Ended()
    ensures Advances(step) && Enabled(s, step)
  {
    assert ProcessOk(s, p);
    match s.procs[p]
    case Arrived(_, now) =>
      var order := SomeOrder(FreshHosts(s.tables.hostLastFetch, now).Keys);
      step := Enter(p, order);
    case Following(_, c) =>
      assert CallOk(s, c);
      if s.calls[c].closed {
        step := FollowerReturns(p);
      } else {
        step := LeaderCanMove(lib, s, s.calls[c].leader);
      }
    case _ => step := LeaderCanMove(lib, s, p);
  }

  // No reachable state with an unfinished call is stuck.
  lemma NoDeadlock(lib: UrlLibrary, clock: Time, steps: seq<Step>)
    requires Lawful(lib) && Runs(lib, Init(clock), steps)
    requires exists p :: 0 <= p < |After(lib, Init(clock), steps).procs| &&
                         !After(lib, Init(clock), steps).procs[p].Ended()
    ensures exists step :: Advances(step) && Enabled(After(lib, Init(clock), steps), step)
  {
    InvariantReachable(lib, clock, steps);
    var s := After(lib, Init(clock), steps);
    var p :| 0 <= p < |s.procs| && !s.procs[p].Ended();
    var step := UnfinishedCanMove(lib, s, p);
  }

  // ---------------------------------------------------------------- bounded work

  function Rank(proc: Process): nat {
    match proc
    case Arrived(_, _) => 4
    case AwaitingSlot(_, _) => 3
    case Fetching(_, _) => 2
    case Finishing(_, _) => 1
    case Following(_, _) => 1
    case Abandoned(_, _) => 0
    case Returned(_, _, _) => 0
  }

  function Measure(procs: seq<Process>): nat {
    if procs == [] then 0 else Measure(procs[..|procs| - 1]) + Rank(procs[|procs| - 1])
  }

  lemma {:induction false} MeasureAfterUpdate(procs: seq<Process>, p: nat, proc: Process)
    requires p < |procs|
    ensures Measure(procs[p := proc]) + Rank(procs[p]) == Measure(procs) + Rank(proc)
  {
    var n := |procs| - 1;
    if p == n {
      assert procs[p := proc][..n] == procs[..n];
    } else {
      MeasureAfterUpdate(procs[..n], p, proc);
      assert procs[p := proc][..n] == procs[..n][p := proc];
    }
  }

  // Every step of a process, cancellation included, lowers the measure.
  lemma MeasureFalls(lib: UrlLibrary, s: State, step: Step)
    requires Enabled(s, step) && !step.Arrive? && !step.Tick?
    ensures Measure(Apply(lib, s, step).procs) < Measure(s.procs)
  {
    var s' := Apply(lib, s, step);
    var p := step.p;
    MeasureAfterUpdate(s.procs, p, s'.procs[p]);
    assert s'.procs == s.procs[p := s'.procs[p]];
  }

  function Moves(steps: seq<Step>): nat {
    if steps == [] then 0
    else (if steps[0].Tick? then 0 else 1) + Moves(steps[1..])
  }

  // However the steps interleave, calls already made take at most Measure
  // moves in all; and where no move is left, every call has returned.
  lemma {:induction false} CallsFinish(lib: UrlLibrary, s: State, steps: seq<Step>)
    requires Lawful(lib) && Invariant(lib, s) && Runs(lib, s, steps)
    requires forall i :: 0 <= i < |steps| ==> !steps[i].Arrive?
    ensures var final := After(lib, s, steps);
            && Moves(steps) + Measure(final.procs) <= Measure(s.procs)
            && ((forall step :: Advances(step) ==> !Enabled(final, step)) ==>
                  forall p :: 0 <= p < |final.procs| ==> final.procs[p].Ended())
    decreases |steps|
  {
    if steps == [] {
      if p :| 0 <= p < |s.procs| && !s.procs[p].Ended() {
        var step := UnfinishedCanMove(lib, s, p);
      }
    } else {
      InvariantStep(lib, s, steps[0]);
      if !steps[0].Tick? {
        MeasureFalls(lib, s, steps[0]);
      }
      CallsFinish(lib, Apply(lib, s, steps[0]), steps[1..]);
    }
  }
}
