// Any number of EnsureCIMDClient calls in any number of facade replicas, against
// one admin store that outsiders also change. Requests travel: a write whose
// caller has given up may still take effect later, or never.

module HydraProtocol {
  import opened Prelude
  import opened Urls
  import opened ClientMetadata
  import opened HydraClients
  import opened NormalForms

  // What is fixed for a run. `lockOf` is the index of the striped lock: each
  // replica has its own locks, so they order calls of one replica only.
  // `orderly` says that outsiders keep to the rely condition.
  datatype World = World(lib: UrlLibrary, resourceUrl: string, lockOf: string -> nat, orderly: bool)

  datatype Pc =
    | Locking
    | Reading(first: bool)                     // GET sent
    | HasRead(first: bool, reply: GetReply)
    | Posting                                  // POST sent
    | HasPosted(written: WriteReply)
    | Putting                                  // PUT sent
    | HasPut(written: WriteReply)
    | Done(ok: bool)                           // returned nil (ok) or an error
  {
    predicate HoldsLock() { !Locking? && !Done? }
  }

  datatype Process = Process(replica: nat, desired: HydraClient, pc: Pc)

  datatype Write = Post(client: HydraClient) | Put(client: HydraClient)

  // A process has at most one write on the wire.
  datatype State = State(store: Store, procs: seq<Process>, wire: map<nat, Write>)

  datatype Step =
    | Begin(replica: nat, input: Metadata)
    | Lock(p: nat)
    | ServeGet(p: nat, lost: bool)
    | AfterRead(p: nat)
    | Deliver(p: nat, fault: Fault)            // the server handles a write
    | GiveUp(p: nat)                           // the caller sees an error, the write stays on the wire
    | Lose(p: nat)                             // the write will never arrive
    | AfterPost(p: nat)
    | AfterPut(p: nat)
    | Outsider(after: Store)

  function Init(store: Store): State {
    State(store, [], map[])
  }

  ghost predicate Enabled(w: World, s: State, step: Step) {
    match step
    case Begin(_, input) => true
    case Lock(p) =>
      p < |s.procs| && s.procs[p].pc.Locking? &&
      forall q :: 0 <= q < |s.procs| && s.procs[q].pc.HoldsLock() ==> !SameLock(w, s.procs[p], s.procs[q])
    case ServeGet(p, _) => p < |s.procs| && s.procs[p].pc.Reading?
    case AfterRead(p) => p < |s.procs| && s.procs[p].pc.HasRead?
    case Deliver(p, _) => p < |s.procs| && p in s.wire
    case GiveUp(p) => p < |s.procs| && (s.procs[p].pc.Posting? || s.procs[p].pc.Putting?)
    case Lose(p) => p < |s.procs| && p in s.wire
    case AfterPost(p) => p < |s.procs| && s.procs[p].pc.HasPosted?
    case AfterPut(p) => p < |s.procs| && s.procs[p].pc.HasPut?
    case Outsider(after) => w.orderly ==> Rely(w.lib, s.store, after)
  }

  predicate SameLock(w: World, a: Process, b: Process) {
    a.replica == b.replica && w.lockOf(a.desired.id) == w.lockOf(b.desired.id)
  }

  function SetPc(s: State, p: nat, pc: Pc): State
    requires p < |s.procs|
  {
    s.(procs := s.procs[p := s.procs[p].(pc := pc)])
  }

  // Lines up to the lock: a record that does not normalise, or whose id is not
  // a valid URL, ends the call before any request.
  function Started(w: World, replica: nat, input: Metadata): Process {
    match Normalized(w.lib, input, true)
    case Err(_) => Process(replica, Desired(w.resourceUrl, input), Done(false))
    case Ok(m) =>
      Process(replica, Desired(w.resourceUrl, m),
              if ValidateClientIdUrl(w.lib, m.clientId) == None then Done(false) else Locking)
  }

  // What the caller does with the reply to a GET.
  function Decide(w: World, desired: HydraClient, first: bool, reply: GetReply): Pc {
    match reply
    case GetError => Done(false)
    case NotFound => if first then Posting else Done(false)
    case Found(existing) =>
      if !IsManaged(w.lib, existing) then Done(false)
      else if ClientsEqual(w.lib, existing, desired) then Done(true)
      else Putting
  }

  function Effect(store: Store, write: Write): (Store, WriteReply) {
    match write
    case Post(client) => CreateIn(store, client)
    case Put(client) => PutIn(store, client)
  }

  function AfterWrite(pc: Pc, reply: WriteReply): Pc {
    if pc.Posting? then HasPosted(reply) else if pc.Putting? then HasPut(reply) else pc
  }

  function Apply(w: World, s: State, step: Step): State
    requires Enabled(w, s, step)
  {
    match step
    case Begin(replica, input) => s.(procs := s.procs + [Started(w, replica, input)])
    case Lock(p) => SetPc(s, p, Reading(true))
    case ServeGet(p, lost) =>
      var reply := if lost then GetError else Lookup(s.store, s.procs[p].desired.id);
      SetPc(s, p, HasRead(s.procs[p].pc.first, reply))
    case AfterRead(p) =>
      var desired := s.procs[p].desired;
      var next := Decide(w, desired, s.procs[p].pc.first, s.procs[p].pc.reply);
      SetPc(s, p, next).(wire := if next.Posting? then s.wire[p := Post(desired)]
                                 else if next.Putting? then s.wire[p := Put(desired)]
                                 else s.wire)
    case Deliver(p, fault) =>
      var (after, answer) := Effect(s.store, s.wire[p]);
      var reply := if fault == Answered then answer else WriteError;
      SetPc(s, p, AfterWrite(s.procs[p].pc, reply)).(
        store := if fault == LostRequest then s.store else after, wire := s.wire - {p})
    case GiveUp(p) => SetPc(s, p, Done(false))
    case Lose(p) => SetPc(s, p, AfterWrite(s.procs[p].pc, WriteError)).(wire := s.wire - {p})
    case AfterPost(p) =>
      SetPc(s, p, match s.procs[p].pc.written
                  case Accepted => Done(true)
                  case Conflict => Reading(false)
                  case WriteError => Done(false))
    case AfterPut(p) => SetPc(s, p, Done(s.procs[p].pc.written == Accepted))
    case Outsider(after) => s.(store := after)
  }

  ghost predicate Runs(w: World, s: State, steps: seq<Step>)
    decreases |steps|, 0
  {
    steps == [] ||
    (Runs(w, s, steps[..|steps| - 1]) && Enabled(w, After(w, s, steps[..|steps| - 1]), steps[|steps| - 1]))
  }

  ghost function After(w: World, s: State, steps: seq<Step>): State
    requires Runs(w, s, steps)
    decreases |steps|, 1
  {
    if steps == [] then s
    else Apply(w, After(w, s, steps[..|steps| - 1]), steps[|steps| - 1])
  }

  lemma {:induction false} PrefixRuns(w: World, s: State, steps: seq<Step>, k: nat)
    requires Runs(w, s, steps) && k <= |steps|
    ensures Runs(w, s, steps[..k])
  {
    if k < |steps| {
      assert steps[..|steps| - 1][..k] == steps[..k];
      PrefixRuns(w, s, steps[..|steps| - 1], k);
    } else {
      assert steps[..k] == steps;
    }
  }

  // ---------------------------------------------------------------- what no outsider can break

  function OnWire(s: State, p: nat): Option<Write> {
    if p in s.wire then Some(s.wire[p]) else None
  }

  ghost predicate Carries(w: World, proc: Process) {
    proc.pc == Done(false) || FacadeRecord(w.lib, w.resourceUrl, proc.desired)
  }

  // A process and its write on the wire: a caller that waits for an answer has
  // sent the write, and a write carries the facade record its process wants.
  ghost predicate ProcessSound(w: World, proc: Process, write: Option<Write>) {
    && Carries(w, proc)
    && (proc.pc.Posting? ==> write.Some? && write.value.Post?)
    && (proc.pc.Putting? ==> write.Some? && write.value.Put?)
    && (write.Some? ==>
          && write.value.client == proc.desired && FacadeRecord(w.lib, w.resourceUrl, proc.desired)
          && (proc.pc.Posting? || proc.pc.Putting? || proc.pc == Done(false)))
  }

  ghost predicate Exclusive(w: World, procs: seq<Process>) {
    forall p, q :: 0 <= p < q < |procs| && procs[p].pc.HoldsLock() && procs[q].pc.HoldsLock() ==>
      !SameLock(w, procs[p], procs[q])
  }

  // Nothing here speaks of the store.
  ghost predicate Sound(w: World, s: State) {
    && (forall p :: 0 <= p < |s.procs| ==> ProcessSound(w, s.procs[p], OnWire(s, p)))
    && (forall p :: p in s.wire ==> p < |s.procs|)
    && Exclusive(w, s.procs)
  }

  // A lock is taken by p only when no holder has it.
  ghost predicate LockFree(w: World, procs: seq<Process>, p: nat)
    requires p < |procs|
  {
    forall q :: 0 <= q < |procs| && procs[q].pc.HoldsLock() ==> !SameLock(w, procs[p], procs[q])
  }

  // From s to t process p moves, and perhaps its wire entry.
  ghost predicate Moves(w: World, s: State, t: State, p: nat) {
    && p < |s.procs| == |t.procs| && t.procs == s.procs[p := s.procs[p].(pc := t.procs[p].pc)]
    && (forall q: nat :: q != p ==> OnWire(t, q) == OnWire(s, q))
    && (t.procs[p].pc.HoldsLock() ==> s.procs[p].pc.HoldsLock() || LockFree(w, s.procs, p))
  }

  lemma ExclusiveMove(w: World, procs: seq<Process>, p: nat, pc: Pc)
    requires Exclusive(w, procs) && p < |procs|
    requires pc.HoldsLock() ==> procs[p].pc.HoldsLock() || LockFree(w, procs, p)
    ensures Exclusive(w, procs[p := procs[p].(pc := pc)])
  {
  }

  lemma SoundMove(w: World, s: State, t: State, p: nat)
    requires Sound(w, s) && Moves(w, s, t, p) && ProcessSound(w, t.procs[p], OnWire(t, p))
    ensures Sound(w, t)
  {
    ExclusiveMove(w, s.procs, p, t.procs[p].pc);
    forall q: nat | q in t.wire ensures q < |t.procs| {
      assert q != p ==> OnWire(t, q) == OnWire(s, q);
    }
  }

  predicate IsMove(step: Step) {
    !step.Begin? && !step.Outsider?
  }

  lemma StepMoves(w: World, s: State, step: Step)
    requires Enabled(w, s, step) && IsMove(step)
    ensures Moves(w, s, Apply(w, s, step), step.p)
  {
  }

  lemma MoverSound(w: World, s: State, step: Step)
    requires Enabled(w, s, step) && IsMove(step)
    requires ProcessSound(w, s.procs[step.p], OnWire(s, step.p))
    ensures var t := Apply(w, s, step); ProcessSound(w, t.procs[step.p], OnWire(t, step.p))
  {
    if step.AfterRead? {
      ReaderSound(w, s, step.p);
    } else if step.Deliver? {
      SenderSound(w, s, step.p, step.fault);
    }
  }

  lemma ReaderSound(w: World, s: State, p: nat)
    requires Enabled(w, s, AfterRead(p)) && ProcessSound(w, s.procs[p], OnWire(s, p))
    ensures var t := Apply(w, s, AfterRead(p)); ProcessSound(w, t.procs[p], OnWire(t, p))
  {
  }

  lemma SenderSound(w: World, s: State, p: nat, fault: Fault)
    requires Enabled(w, s, Deliver(p, fault)) && ProcessSound(w, s.procs[p], OnWire(s, p))
    ensures var t := Apply(w, s, Deliver(p, fault)); ProcessSound(w, t.procs[p], OnWire(t, p))
  {
  }

  lemma StartedOk(w: World, replica: nat, input: Metadata)
    requires Lawful(w.lib)
    ensures var proc := Started(w, replica, input);
            proc.pc == Done(false) || (proc.pc == Locking && FacadeRecord(w.lib, w.resourceUrl, proc.desired))
  {
    match Normalized(w.lib, input, true)
    case Err(_) =>
    case Ok(m) =>
      if ValidateClientIdUrl(w.lib, m.clientId).Some? {
        DesiredIsFacadeRecord(w.lib, w.resourceUrl, m);
      }
  }

  // A process joins that has not sent anything.
  lemma SoundJoin(w: World, s: State, proc: Process)
    requires Sound(w, s)
    requires proc.pc == Done(false) || (proc.pc == Locking && FacadeRecord(w.lib, w.resourceUrl, proc.desired))
    ensures Sound(w, s.(procs := s.procs + [proc]))
  {
    var t := s.(procs := s.procs + [proc]);
    forall p | 0 <= p < |t.procs| ensures ProcessSound(w, t.procs[p], OnWire(t, p)) {
      assert p < |s.procs| ==> t.procs[p] == s.procs[p] && OnWire(t, p) == OnWire(s, p);
    }
  }

  lemma SoundStep(w: World, s: State, step: Step)
    requires Lawful(w.lib) && Sound(w, s) && Enabled(w, s, step)
    ensures Sound(w, Apply(w, s, step))
  {
    if IsMove(step) {
      StepMoves(w, s, step);
      MoverSound(w, s, step);
      SoundMove(w, s, Apply(w, s, step), step.p);
    } else if step.Begin? {
      StartedOk(w, step.replica, step.input);
      SoundJoin(w, s, Started(w, step.replica, step.input));
    } else {
      StoreIsIrrelevant(w, s, step.after);
    }
  }

  lemma StoreIsIrrelevant(w: World, s: State, after: Store)
    requires Sound(w, s)
    ensures Sound(w, s.(store := after))
  {
    var t := s.(store := after);
    assert forall p: nat :: OnWire(t, p) == OnWire(s, p);
  }

  // Every run, over any store and whatever outsiders do.
  lemma {:induction false} SoundReachable(w: World, store: Store, steps: seq<Step>)
    requires Lawful(w.lib) && Runs(w, Init(store), steps)
    ensures Sound(w, After(w, Init(store), steps))
    decreases |steps|
  {
    if steps != [] {
      var front := steps[..|steps| - 1];
      SoundReachable(w, store, front);
      SoundStep(w, After(w, Init(store), front), steps[|steps| - 1]);
    }
  }

  // No two calls of one replica are at work under the same lock.
  lemma OneHolderPerLock(w: World, store: Store, steps: seq<Step>, p: nat, q: nat)
    requires Lawful(w.lib) && Runs(w, Init(store), steps)
    requires var procs := After(w, Init(store), steps).procs;
             && p < |procs| && q < |procs| && procs[p].pc.HoldsLock() && procs[q].pc.HoldsLock()
             && SameLock(w, procs[p], procs[q])
    ensures p == q
  {
    SoundReachable(w, store, steps);
  }

  // ---------------------------------------------------------------- orderly outsiders

  // A reply found in the store names the record asked for, and a managed one
  // is managed there still.
  ghost predicate ReadOk(w: World, proc: Process, store: Store) {
    proc.pc.HasRead? && proc.pc.reply.Found? ==>
      && proc.pc.reply.client.id == proc.desired.id
      && (IsManaged(w.lib, proc.pc.reply.client) ==> HoldsManaged(w.lib, store, proc.desired.id))
  }

  // An update is aimed at an id that is managed in the store right now.
  ghost predicate WriteOk(w: World, write: Write, store: Store) {
    write.Put? ==> HoldsManaged(w.lib, store, write.client.id)
  }

  ghost predicate Aimed(w: World, s: State) {
    && Keyed(s.store)
    && (forall p :: 0 <= p < |s.procs| ==> ReadOk(w, s.procs[p], s.store))
    && (forall p :: p in s.wire ==> WriteOk(w, s.wire[p], s.store))
  }

  ghost predicate Invariant(w: World, s: State) {
    Sound(w, s) && Aimed(w, s)
  }

  // Whoever changes the store keeps managed records managed.
  lemma AimedStoreChange(w: World, s: State, after: Store)
    requires Aimed(w, s) && Keyed(after)
    requires forall id :: HoldsManaged(w.lib, s.store, id) ==> HoldsManaged(w.lib, after, id)
    ensures Aimed(w, s.(store := after))
  {
    var t := s.(store := after);
    forall p | 0 <= p < |t.procs| ensures ReadOk(w, t.procs[p], t.store) {
      assert ReadOk(w, s.procs[p], s.store);
    }
    forall p | p in t.wire ensures WriteOk(w, t.wire[p], t.store) {
      assert WriteOk(w, s.wire[p], s.store);
    }
  }

  lemma AimedMove(w: World, s: State, t: State, p: nat)
    requires Aimed(w, s) && Moves(w, s, t, p) && t.store == s.store
    requires ReadOk(w, t.procs[p], t.store) && (p in t.wire ==> WriteOk(w, t.wire[p], t.store))
    ensures Aimed(w, t)
  {
    forall q: nat | q in t.wire ensures WriteOk(w, t.wire[q], t.store) {
      if q != p {
        assert OnWire(t, q) == OnWire(s, q);
        assert WriteOk(w, s.wire[q], s.store);
      }
    }
  }

  // A process moves and the store stays.
  lemma MoverAimed(w: World, s: State, step: Step)
    requires Aimed(w, s) && Enabled(w, s, step) && IsMove(step) && !step.Deliver?
    ensures var t, p := Apply(w, s, step), step.p;
            ReadOk(w, t.procs[p], t.store) && (p in t.wire ==> WriteOk(w, t.wire[p], t.store))
  {
    var p := step.p;
    assert ReadOk(w, s.procs[p], s.store);
    if p in s.wire {
      assert WriteOk(w, s.wire[p], s.store);
    }
  }

  // A write keeps the guarantee unless it updates an unmanaged record.
  lemma EffectGuarantee(w: World, store: Store, write: Write)
    requires FacadeRecord(w.lib, w.resourceUrl, write.client)
    ensures Guarantee(w.lib, w.resourceUrl, store, Effect(store, write).0) <==>
            !(write.Put? && write.client.id in store && !IsManaged(w.lib, store[write.client.id]))
  {
    match write
    case Post(client) => CreateGuarantee(w.lib, w.resourceUrl, store, client);
    case Put(client) => PutGuarantee(w.lib, w.resourceUrl, store, client);
  }

  lemma WireCarries(w: World, s: State, p: nat)
    requires Sound(w, s) && p in s.wire
    ensures p < |s.procs| && s.wire[p].client == s.procs[p].desired && FacadeRecord(w.lib, w.resourceUrl, s.wire[p].client)
  {
    assert ProcessSound(w, s.procs[p], OnWire(s, p));
  }

  // A delivery is a change of the store under the guarantee.
  lemma DeliveryKeepsGuarantee(w: World, s: State, p: nat, fault: Fault)
    requires Invariant(w, s) && Enabled(w, s, Deliver(p, fault))
    ensures var s' := Apply(w, s, Deliver(p, fault));
            Guarantee(w.lib, w.resourceUrl, s.store, s'.store) && Keyed(s'.store)
  {
    WireCarries(w, s, p);
    assert WriteOk(w, s.wire[p], s.store);
    EffectGuarantee(w, s.store, s.wire[p]);
  }

  lemma AimedDeliver(w: World, s: State, p: nat, fault: Fault)
    requires Invariant(w, s) && Enabled(w, s, Deliver(p, fault))
    ensures Aimed(w, Apply(w, s, Deliver(p, fault)))
  {
    var t := Apply(w, s, Deliver(p, fault));
    DeliveryKeepsGuarantee(w, s, p, fault);
    GuaranteeImpliesRely(w.lib, w.resourceUrl, s.store, t.store);
    AimedStoreChange(w, s, t.store);
    var mid := s.(store := t.store);
    StepMoves(w, s, Deliver(p, fault));
    assert ReadOk(w, mid.procs[p], mid.store);
    AimedMove(w, mid, t, p);
  }

  lemma InvariantStep(w: World, s: State, step: Step)
    requires Lawful(w.lib) && w.orderly && Invariant(w, s) && Enabled(w, s, step)
    ensures Invariant(w, Apply(w, s, step))
  {
    SoundStep(w, s, step);
    if step.Deliver? {
      AimedDeliver(w, s, step.p, step.fault);
    } else if step.Outsider? {
      AimedStoreChange(w, s, step.after);
    } else if IsMove(step) {
      StepMoves(w, s, step);
      MoverAimed(w, s, step);
      AimedMove(w, s, Apply(w, s, step), step.p);
    }
  }

  // Every run in which outsiders keep to the rely condition.
  lemma {:induction false} InvariantReachable(w: World, store: Store, steps: seq<Step>)
    requires Lawful(w.lib) && w.orderly && Keyed(store) && Runs(w, Init(store), steps)
    ensures Invariant(w, After(w, Init(store), steps))
    decreases |steps|
  {
    if steps != [] {
      var front := steps[..|steps| - 1];
      InvariantReachable(w, store, front);
      InvariantStep(w, After(w, Init(store), front), steps[|steps| - 1]);
    }
  }

  // ---------------------------------------------------------------- safety

  // The store has this unmanaged record, and no call is about to update its id.
  ghost predicate Spared(w: World, s: State, id: string, record: HydraClient) {
    && id in s.store && s.store[id] == record && !IsManaged(w.lib, record)
    && (forall p :: 0 <= p < |s.procs| ==> !FoundManaged(w, s.procs[p], id))
    && (forall p :: p in s.wire && s.wire[p].Put? ==> s.wire[p].client.id != id)
  }

  predicate FoundManaged(w: World, proc: Process, id: string) {
    proc.desired.id == id && proc.pc.HasRead? && proc.pc.reply.Found? && IsManaged(w.lib, proc.pc.reply.client)
  }

  lemma SparedStep(w: World, s: State, step: Step, id: string, record: HydraClient)
    requires Spared(w, s, id, record) && Enabled(w, s, step)
    requires step.Outsider? ==> id in step.after && step.after[id] == record
    ensures Spared(w, Apply(w, s, step), id, record)
  {
    if step.Deliver? {
      SparedDeliver(w, s, step.p, step.fault, id, record);
    } else if step.AfterRead? {
      SparedRead(w, s, step.p, id, record);
    } else if step.Begin? {
      assert !FoundManaged(w, Started(w, step.replica, step.input), id);
    } else if !step.Outsider? {
      SparedMove(w, s, step, id, record);
    }
  }

  lemma SparedDeliver(w: World, s: State, p: nat, fault: Fault, id: string, record: HydraClient)
    requires Spared(w, s, id, record) && Enabled(w, s, Deliver(p, fault))
    ensures Spared(w, Apply(w, s, Deliver(p, fault)), id, record)
  {
  }

  lemma SparedRead(w: World, s: State, p: nat, id: string, record: HydraClient)
    requires Spared(w, s, id, record) && Enabled(w, s, AfterRead(p))
    ensures Spared(w, Apply(w, s, AfterRead(p)), id, record)
  {
    assert !FoundManaged(w, s.procs[p], id);
  }

  lemma SparedMove(w: World, s: State, step: Step, id: string, record: HydraClient)
    requires Spared(w, s, id, record) && Enabled(w, s, step)
    requires !step.Deliver? && !step.AfterRead? && !step.Begin? && !step.Outsider?
    ensures Spared(w, Apply(w, s, step), id, record)
  {
  }

  // Over any run in which outsiders leave one unmanaged record alone, whatever
  // they do to others, the facade leaves it alone too.
  lemma {:induction false} UnmanagedRecordSurvives(w: World, store: Store, steps: seq<Step>, id: string)
    requires Runs(w, Init(store), steps)
    requires id in store && !IsManaged(w.lib, store[id])
    requires forall k :: 0 <= k < |steps| && steps[k].Outsider? ==>
                           id in steps[k].after && steps[k].after[id] == store[id]
    ensures Spared(w, After(w, Init(store), steps), id, store[id])
    ensures var final := After(w, Init(store), steps).store;
            id in final && final[id] == store[id]
    decreases |steps|
  {
    if steps != [] {
      var front, last := steps[..|steps| - 1], steps[|steps| - 1];
      UnmanagedRecordSurvives(w, store, front, id);
      SparedStep(w, After(w, Init(store), front), last, id, store[id]);
    }
  }

  // Every record a facade step changes becomes a facade record: managed, never
  // skipping consent, with the resource as its only audience. And a pending
  // update is aimed at a managed record.
  lemma FacadeWritesOnlyFacadeRecords(w: World, store: Store, steps: seq<Step>, step: Step)
    requires Lawful(w.lib) && w.orderly && Keyed(store) && Runs(w, Init(store), steps)
    requires Enabled(w, After(w, Init(store), steps), step) && !step.Outsider?
    ensures var s := After(w, Init(store), steps);
            && Guarantee(w.lib, w.resourceUrl, s.store, Apply(w, s, step).store)
            && (forall p :: p in s.wire && s.wire[p].Put? ==> HoldsManaged(w.lib, s.store, s.wire[p].client.id))
  {
    InvariantReachable(w, store, steps);
    var s := After(w, Init(store), steps);
    forall p | p in s.wire && s.wire[p].Put? ensures HoldsManaged(w.lib, s.store, s.wire[p].client.id) {
      assert WriteOk(w, s.wire[p], s.store);
    }
    InvariantGuarantee(w, s, step);
  }

  lemma InvariantGuarantee(w: World, s: State, step: Step)
    requires Invariant(w, s) && Enabled(w, s, step) && !step.Outsider?
    ensures Guarantee(w.lib, w.resourceUrl, s.store, Apply(w, s, step).store)
  {
    if step.Deliver? {
      DeliveryKeepsGuarantee(w, s, step.p, step.fault);
    } else {
      StoreStays(w, s, step);
    }
  }

  lemma StoreStays(w: World, s: State, step: Step)
    requires Enabled(w, s, step) && !step.Outsider? && !step.Deliver?
    ensures Apply(w, s, step).store == s.store
  {
  }

  // ---------------------------------------------------------------- without the assumption on outsiders

  // Every record that a facade step adds or changes becomes a facade record,
  // and none goes, whatever outsiders do and whatever the store held.
  lemma FacadeStepsLeaveFacadeRecords(w: World, store: Store, steps: seq<Step>, step: Step)
    requires Lawful(w.lib) && Runs(w, Init(store), steps)
    requires Enabled(w, After(w, Init(store), steps), step) && !step.Outsider?
    ensures var s := After(w, Init(store), steps);
            AddsFacadeRecords(w.lib, w.resourceUrl, s.store, Apply(w, s, step).store)
  {
    SoundReachable(w, store, steps);
    StepAdds(w, After(w, Init(store), steps), step);
  }

  lemma StepAdds(w: World, s: State, step: Step)
    requires Sound(w, s) && Enabled(w, s, step) && !step.Outsider?
    ensures AddsFacadeRecords(w.lib, w.resourceUrl, s.store, Apply(w, s, step).store)
  {
    if step.Deliver? {
      WireCarries(w, s, step.p);
      EffectAdds(w, s.store, s.wire[step.p]);
    } else {
      StoreStays(w, s, step);
    }
  }

  lemma EffectAdds(w: World, store: Store, write: Write)
    requires FacadeRecord(w.lib, w.resourceUrl, write.client)
    ensures AddsFacadeRecords(w.lib, w.resourceUrl, store, Effect(store, write).0)
  {
  }

  // An update reaches the store and meets an unmanaged record.
  ghost predicate OverwritesUnmanaged(w: World, s: State, step: Step)
    requires Enabled(w, s, step)
  {
    && step.Deliver? && step.fault != LostRequest && s.wire[step.p].Put?
    && var id := s.wire[step.p].client.id; id in s.store && !IsManaged(w.lib, s.store[id])
  }

  // After any run, with outsiders that keep to no condition, a step of the
  // facade keeps the guarantee unless it is such an update.
  lemma GuaranteeExactly(w: World, store: Store, steps: seq<Step>, step: Step)
    requires Lawful(w.lib) && Runs(w, Init(store), steps)
    requires Enabled(w, After(w, Init(store), steps), step) && !step.Outsider?
    ensures var s := After(w, Init(store), steps);
            Guarantee(w.lib, w.resourceUrl, s.store, Apply(w, s, step).store) <==> !OverwritesUnmanaged(w, s, step)
  {
    SoundReachable(w, store, steps);
    StepGuarantee(w, After(w, Init(store), steps), step);
  }

  lemma StepGuarantee(w: World, s: State, step: Step)
    requires Sound(w, s) && Enabled(w, s, step) && !step.Outsider?
    ensures Guarantee(w.lib, w.resourceUrl, s.store, Apply(w, s, step).store) <==> !OverwritesUnmanaged(w, s, step)
  {
    if step.Deliver? {
      WireCarries(w, s, step.p);
      EffectGuarantee(w, s.store, s.wire[step.p]);
    } else {
      StoreStays(w, s, step);
    }
  }

  lemma Extend(w: World, s: State, steps: seq<Step>, step: Step)
    requires Runs(w, s, steps) && Enabled(w, After(w, s, steps), step)
    ensures Runs(w, s, steps + [step]) && After(w, s, steps + [step]) == Apply(w, After(w, s, steps), step)
  {
    assert (steps + [step])[..|steps|] == steps;
  }

  // One call alone, up to its update: the record it finds is managed but not
  // the one it wants.
  lemma UpdateSent(w: World, store: Store, replica: nat, input: Metadata, m: Metadata) returns (steps: seq<Step>)
    requires Lawful(w.lib) && Keyed(store)
    requires Normalized(w.lib, input, true) == Ok(m) && ValidateClientIdUrl(w.lib, m.clientId).Some?
    requires HoldsManaged(w.lib, store, m.clientId) && store[m.clientId] != Desired(w.resourceUrl, m)
    ensures steps == [Begin(replica, input), Lock(0), ServeGet(0, false), AfterRead(0)]
    ensures var desired := Desired(w.resourceUrl, m);
            && Runs(w, Init(store), steps)
            && After(w, Init(store), steps) == State(store, [Process(replica, desired, Putting)], map[0 := Put(desired)])
  {
    var start, desired := Init(store), Desired(w.resourceUrl, m);
    EqualToDesired(w.lib, w.resourceUrl, m, store[m.clientId]);
    Extend(w, start, [], Begin(replica, input));
    var begun := [] + [Begin(replica, input)];
    assert After(w, start, begun) == State(store, [Process(replica, desired, Locking)], map[]);
    steps := LookedUp(w, start, begun, store, replica, desired);
    assert Decide(w, desired, true, Found(store[desired.id])) == Putting;
    Extend(w, start, steps, AfterRead(0));
    steps := steps + [AfterRead(0)];
  }

  lemma LookedUp(w: World, start: State, begun: seq<Step>, store: Store, replica: nat, desired: HydraClient)
    returns (steps: seq<Step>)
    requires Runs(w, start, begun) && desired.id in store && store[desired.id].id == desired.id
    requires After(w, start, begun) == State(store, [Process(replica, desired, Locking)], map[])
    ensures steps == begun + [Lock(0), ServeGet(0, false)] && Runs(w, start, steps)
    ensures After(w, start, steps) ==
            State(store, [Process(replica, desired, HasRead(true, Found(store[desired.id])))], map[])
  {
    Extend(w, start, begun, Lock(0));
    steps := begun + [Lock(0)];
    assert After(w, start, steps) == State(store, [Process(replica, desired, Reading(true))], map[]);
    Extend(w, start, steps, ServeGet(0, false));
    steps := steps + [ServeGet(0, false)];
  }

  lemma UpdateDelivered(w: World, store: Store, replica: nat, desired: HydraClient)
    requires desired.id in store
    ensures var s := State(store, [Process(replica, desired, Putting)], map[0 := Put(desired)]);
            var t := State(store[desired.id := desired], [Process(replica, desired, HasPut(Accepted))], map[]);
            && Apply(w, s, Deliver(0, Answered)) == t
            && Apply(w, t, AfterPut(0)) == t.(procs := [Process(replica, desired, Done(true))])
  {
  }

  lemma RunToTheEnd(w: World, start: State, sent: seq<Step>, store: Store, replica: nat, desired: HydraClient)
    returns (steps: seq<Step>)
    requires Runs(w, start, sent) && desired.id in store
    requires After(w, start, sent) == State(store, [Process(replica, desired, Putting)], map[0 := Put(desired)])
    ensures steps == sent + [Deliver(0, Answered), AfterPut(0)] && Runs(w, start, steps)
    ensures After(w, start, steps) == State(store[desired.id := desired], [Process(replica, desired, Done(true))], map[])
  {
    UpdateDelivered(w, store, replica, desired);
    Extend(w, start, sent, Deliver(0, Answered));
    var delivered := sent + [Deliver(0, Answered)];
    Extend(w, start, delivered, AfterPut(0));
    steps := delivered + [AfterPut(0)];
  }

  // The assumption on outsiders is needed: with one that replaces the managed
  // record between the lookup and the update, the call overwrites a record
  // that it does not manage and returns nil.
  lemma ReplacedRecordIsOverwritten(w: World, store: Store, replica: nat, input: Metadata, m: Metadata,
                                    unmanaged: HydraClient) returns (sent: seq<Step>, steps: seq<Step>)
    requires Lawful(w.lib) && Keyed(store) && !w.orderly
    requires Normalized(w.lib, input, true) == Ok(m) && ValidateClientIdUrl(w.lib, m.clientId).Some?
    requires HoldsManaged(w.lib, store, m.clientId) && store[m.clientId] != Desired(w.resourceUrl, m)
    requires unmanaged.id == m.clientId && !IsManaged(w.lib, unmanaged)
    ensures sent == [Begin(replica, input), Lock(0), ServeGet(0, false), AfterRead(0),
                     Outsider(store[unmanaged.id := unmanaged])]
    ensures steps == sent + [Deliver(0, Answered), AfterPut(0)]
    ensures Runs(w, Init(store), sent) && Enabled(w, After(w, Init(store), sent), Deliver(0, Answered))
    ensures OverwritesUnmanaged(w, After(w, Init(store), sent), Deliver(0, Answered))
    ensures Runs(w, Init(store), steps)
    ensures var final := After(w, Init(store), steps);
            && final.store == store[m.clientId := Desired(w.resourceUrl, m)]
            && final.procs == [Process(replica, Desired(w.resourceUrl, m), Done(true))]
  {
    var start, desired := Init(store), Desired(w.resourceUrl, m);
    var begun := UpdateSent(w, store, replica, input, m);
    var replace := Outsider(store[unmanaged.id := unmanaged]);
    Extend(w, start, begun, replace);
    sent := begun + [replace];
    steps := RunToTheEnd(w, start, sent, store[unmanaged.id := unmanaged], replica, desired);
    assert store[unmanaged.id := unmanaged][desired.id := desired] == store[desired.id := desired];
  }

  // ---------------------------------------------------------------- linearisation

  // The process is inside its call and the store shows its desired record.
  ghost predicate InStep(w: World, s: State, p: nat) {
    && p < |s.procs| && s.procs[p].pc.HoldsLock()
    && s.procs[p].desired.id in s.store
    && ClientsEqual(w.lib, s.store[s.procs[p].desired.id], s.procs[p].desired)
  }

  // The process knows that the store showed its desired record.
  predicate Confirmed(w: World, proc: Process) {
    match proc.pc
    case HasRead(_, Found(c)) => IsManaged(w.lib, c) && ClientsEqual(w.lib, c, proc.desired)
    case HasPosted(reply) => reply == Accepted
    case HasPut(reply) => reply == Accepted
    case Done(ok) => ok
    case _ => false
  }

  // A write answered with success leaves the record it carries.
  lemma AcceptedShows(w: World, store: Store, write: Write)
    requires FacadeRecord(w.lib, w.resourceUrl, write.client) && Effect(store, write).1 == Accepted
    ensures var after := Effect(store, write).0;
            write.client.id in after && ClientsEqual(w.lib, after[write.client.id], write.client)
  {
  }

  lemma ConfirmingDelivery(w: World, s: State, p: nat, fault: Fault)
    requires Sound(w, s) && Enabled(w, s, Deliver(p, fault))
    requires Confirmed(w, Apply(w, s, Deliver(p, fault)).procs[p])
    ensures InStep(w, Apply(w, s, Deliver(p, fault)), p)
  {
    assert ProcessSound(w, s.procs[p], OnWire(s, p));
    if Effect(s.store, s.wire[p]).1 == Accepted {
      AcceptedShows(w, s.store, s.wire[p]);
    }
  }

  lemma ConfirmingStep(w: World, s: State, step: Step, p: nat)
    requires Sound(w, s) && Enabled(w, s, step)
    requires p < |Apply(w, s, step).procs| && Confirmed(w, Apply(w, s, step).procs[p])
    ensures (p < |s.procs| && Confirmed(w, s.procs[p])) || InStep(w, Apply(w, s, step), p)
  {
    if step.Deliver? {
      if step.p == p {
        ConfirmingDelivery(w, s, p, step.fault);
      }
    } else if step.Begin? {
      assert p < |s.procs| ==> Apply(w, s, step).procs[p] == s.procs[p];
    } else if !step.Outsider? && step.p == p {
      ConfirmingMove(w, s, step);
    }
  }

  lemma ConfirmingMove(w: World, s: State, step: Step)
    requires Enabled(w, s, step) && !step.Deliver? && !step.Begin? && !step.Outsider?
    requires Confirmed(w, Apply(w, s, step).procs[step.p])
    ensures Confirmed(w, s.procs[step.p]) || InStep(w, Apply(w, s, step), step.p)
  {
  }

  // A call that returned nil has an instant, while it ran, at which the store
  // showed the record it wanted, whatever outsiders do.
  lemma {:induction false} SuccessHasAnInstant(w: World, store: Store, steps: seq<Step>, p: nat) returns (k: nat)
    requires Lawful(w.lib) && Runs(w, Init(store), steps)
    requires p < |After(w, Init(store), steps).procs| && Confirmed(w, After(w, Init(store), steps).procs[p])
    ensures k <= |steps| && Runs(w, Init(store), steps[..k]) && InStep(w, After(w, Init(store), steps[..k]), p)
    ensures After(w, Init(store), steps[..k]).procs[p].desired == After(w, Init(store), steps).procs[p].desired
    decreases |steps|
  {
    var front, last := steps[..|steps| - 1], steps[|steps| - 1];
    var s := After(w, Init(store), front);
    SoundReachable(w, store, front);
    ConfirmingStep(w, s, last, p);
    if p < |s.procs| && Confirmed(w, s.procs[p]) {
      k := SuccessHasAnInstant(w, store, front, p);
      assert front[..k] == steps[..k];
    } else {
      k := |steps|;
      assert steps[..k] == steps;
    }
  }

  // ---------------------------------------------------------------- the document of a call

  // The documents the calls of a run began with, in order.
  function Inputs(steps: seq<Step>): seq<Metadata> {
    if steps == [] then []
    else
      var last := steps[|steps| - 1];
      Inputs(steps[..|steps| - 1]) + if last.Begin? then [last.input] else []
  }

  // A call that has not failed wants the record of its document.
  ghost predicate BegunWith(w: World, proc: Process, input: Metadata) {
    proc.pc == Done(false) ||
    exists m :: Registrable(w.lib, input, m) && Registers(proc.desired, w.resourceUrl, m)
  }

  lemma StartedFor(w: World, replica: nat, input: Metadata)
    ensures BegunWith(w, Started(w, replica, input), input)
  {
    match Normalized(w.lib, input, true)
    case Err(_) =>
    case Ok(m) =>
      NormalizedExactly(w.lib, input, true, m);
      DesiredExactly(w.resourceUrl, m, Desired(w.resourceUrl, m));
  }

  ghost predicate BegunAs(w: World, procs: seq<Process>, inputs: seq<Metadata>) {
    |procs| == |inputs| && forall p :: 0 <= p < |procs| ==> BegunWith(w, procs[p], inputs[p])
  }

  lemma BegunMove(w: World, s: State, step: Step, inputs: seq<Metadata>)
    requires Sound(w, s) && Enabled(w, s, step) && !step.Begin? && BegunAs(w, s.procs, inputs)
    ensures BegunAs(w, Apply(w, s, step).procs, inputs)
  {
    var t := Apply(w, s, step);
    if !step.Outsider? {
      StepMoves(w, s, step);
      assert ProcessSound(w, s.procs[step.p], OnWire(s, step.p));
      assert s.procs[step.p].pc == Done(false) ==> t.procs[step.p].pc == Done(false);
    }
  }

  lemma {:induction false} BegunReachable(w: World, store: Store, steps: seq<Step>)
    requires Lawful(w.lib) && Runs(w, Init(store), steps)
    ensures BegunAs(w, After(w, Init(store), steps).procs, Inputs(steps))
    decreases |steps|
  {
    if steps != [] {
      var front, last := steps[..|steps| - 1], steps[|steps| - 1];
      var s := After(w, Init(store), front);
      BegunReachable(w, store, front);
      SoundReachable(w, store, front);
      if last.Begin? {
        StartedFor(w, last.replica, last.input);
      } else {
        BegunMove(w, s, last, Inputs(front));
      }
    }
  }

  // A call that returned nil was made for an admitted document, and at some
  // instant of the run the store held that document's record under its id,
  // field by field, whatever outsiders do.
  lemma NilMeansRegistered(w: World, store: Store, steps: seq<Step>, p: nat) returns (k: nat)
    requires Lawful(w.lib) && Runs(w, Init(store), steps)
    requires p < |After(w, Init(store), steps).procs| && After(w, Init(store), steps).procs[p].pc == Done(true)
    ensures p < |Inputs(steps)|
    ensures k <= |steps| && Runs(w, Init(store), steps[..k]) && InStep(w, After(w, Init(store), steps[..k]), p)
    ensures HoldsRecordOf(w.lib, w.resourceUrl, Inputs(steps)[p], After(w, Init(store), steps[..k]).store)
  {
    k := SuccessHasAnInstant(w, store, steps, p);
    BegunReachable(w, store, steps);
    var proc, instant := After(w, Init(store), steps).procs[p], After(w, Init(store), steps[..k]).store;
    assert BegunWith(w, proc, Inputs(steps)[p]);
    var m :| Registrable(w.lib, Inputs(steps)[p], m) && Registers(proc.desired, w.resourceUrl, m);
    DesiredExactly(w.resourceUrl, m, proc.desired);
    EqualToDesired(w.lib, w.resourceUrl, m, instant[m.clientId]);
  }

  // ---------------------------------------------------------------- a call alone

  // A step of the first call that loses nothing.
  predicate Smooth(step: Step) {
    match step
    case Lock(p) => p == 0
    case ServeGet(p, lost) => p == 0 && !lost
    case AfterRead(p) => p == 0
    case Deliver(p, fault) => p == 0 && fault == Answered
    case AfterPost(p) => p == 0
    case AfterPut(p) => p == 0
    case _ => false
  }

  // Where a call can be that nobody disturbs: `record` is what it wants.
  ghost predicate Undisturbed(w: World, store: Store, s: State, record: HydraClient) {
    && |s.procs| == 1 && s.procs[0].desired == record
    && var stored := store[record.id := record];
       match s.procs[0].pc
       case Locking => s.store == store && s.wire == map[]
       case Reading(first) => first && s.store == store && s.wire == map[]
       case HasRead(first, reply) => first && reply == Lookup(store, record.id) && s.store == store && s.wire == map[]
       case Posting => record.id !in store && s.store == store && s.wire == map[0 := Post(record)]
       case Putting => record.id in store && s.store == store && s.wire == map[0 := Put(record)]
       case HasPosted(reply) => reply == Accepted && s.store == stored && s.wire == map[]
       case HasPut(reply) => reply == Accepted && s.store == stored && s.wire == map[]
       case Done(ok) => ok && s.store == stored && s.wire == map[]
  }

  // The record may be put into the store, and only equals itself.
  ghost predicate Welcome(w: World, store: Store, record: HydraClient) {
    && (record.id in store ==> store[record.id].id == record.id && IsManaged(w.lib, store[record.id]))
    && forall other :: ClientsEqual(w.lib, other, record) ==> other == record
  }

  lemma UndisturbedStep(w: World, store: Store, s: State, step: Step, record: HydraClient)
    requires Welcome(w, store, record) && Undisturbed(w, store, s, record) && Enabled(w, s, step) && Smooth(step)
    ensures Undisturbed(w, store, Apply(w, s, step), record)
  {
    if step.Deliver? {
      assert s.wire - {0} == map[];
    } else if step.AfterRead? && record.id in store && store[record.id] == record {
      assert store[record.id := record] == store;
    }
  }

  lemma UnfinishedGoesOn(w: World, store: Store, s: State, record: HydraClient) returns (step: Step)
    requires Undisturbed(w, store, s, record) && !s.procs[0].pc.Done?
    ensures Smooth(step) && Enabled(w, s, step)
  {
    var pc := s.procs[0].pc;
    step := if pc.Locking? then Lock(0)
            else if pc.Reading? then ServeGet(0, false)
            else if pc.HasRead? then AfterRead(0)
            else if pc.Posting? || pc.Putting? then Deliver(0, Answered)
            else if pc.HasPosted? then AfterPost(0)
            else AfterPut(0);
  }

  lemma {:induction false} UndisturbedRun(w: World, store: Store, s: State, steps: seq<Step>, record: HydraClient)
    requires Welcome(w, store, record) && Undisturbed(w, store, s, record) && Runs(w, s, steps)
    requires forall k :: 0 <= k < |steps| ==> Smooth(steps[k])
    ensures Undisturbed(w, store, After(w, s, steps), record)
    decreases |steps|
  {
    if steps != [] {
      var front := steps[..|steps| - 1];
      UndisturbedRun(w, store, s, front, record);
      UndisturbedStep(w, store, After(w, s, front), steps[|steps| - 1], record);
    }
  }

  // How far such a call has come.
  function Stage(pc: Pc): nat {
    match pc
    case Locking => 0
    case Reading(_) => 1
    case HasRead(_, _) => 2
    case Posting => 3
    case Putting => 3
    case HasPosted(_) => 4
    case HasPut(_) => 4
    case Done(_) => 5
  }

  lemma SmoothStepAdvances(w: World, store: Store, s: State, step: Step, record: HydraClient)
    requires Undisturbed(w, store, s, record) && Enabled(w, s, step) && Smooth(step)
    ensures Stage(Apply(w, s, step).procs[0].pc) > Stage(s.procs[0].pc)
  {
  }

  lemma {:induction false} SmoothRunIsShort(w: World, store: Store, s: State, steps: seq<Step>, record: HydraClient)
    requires Welcome(w, store, record) && Undisturbed(w, store, s, record) && Runs(w, s, steps)
    requires forall k :: 0 <= k < |steps| ==> Smooth(steps[k])
    ensures |After(w, s, steps).procs| == 1 && |steps| <= Stage(After(w, s, steps).procs[0].pc)
    decreases |steps|
  {
    UndisturbedRun(w, store, s, steps, record);
    if steps != [] {
      var front := steps[..|steps| - 1];
      SmoothRunIsShort(w, store, s, front, record);
      UndisturbedRun(w, store, s, front, record);
      SmoothStepAdvances(w, store, After(w, s, front), steps[|steps| - 1], record);
    }
  }

  // The state of a call for an admitted document right after its start.
  lemma AloneStarts(w: World, store: Store, replica: nat, input: Metadata, m: Metadata)
    requires Lawful(w.lib) && Registrable(w.lib, input, m)
    requires m.clientId in store ==> store[m.clientId].id == m.clientId && IsManaged(w.lib, store[m.clientId])
    ensures var s := Apply(w, Init(store), Begin(replica, input));
            Undisturbed(w, store, s, Desired(w.resourceUrl, m)) && Welcome(w, store, Desired(w.resourceUrl, m))
  {
    NormalizedExactly(w.lib, input, true, m);
    forall other ensures ClientsEqual(w.lib, other, Desired(w.resourceUrl, m)) ==> other == Desired(w.resourceUrl, m) {
      EqualToDesired(w.lib, w.resourceUrl, m, other);
    }
  }

  // A call alone, for an admitted document whose id is free or managed: however
  // far it is driven without a loss it has not failed; it can go on until it
  // returns nil; it does so after at most five steps; and the store then holds
  // its document's record, all others as before.
  lemma AloneRegisters(w: World, store: Store, replica: nat, input: Metadata, m: Metadata, steps: seq<Step>)
    requires Lawful(w.lib) && Registrable(w.lib, input, m)
    requires m.clientId in store ==> store[m.clientId].id == m.clientId && IsManaged(w.lib, store[m.clientId])
    requires Runs(w, Apply(w, Init(store), Begin(replica, input)), steps)
    requires forall k :: 0 <= k < |steps| ==> Smooth(steps[k])
    ensures var s := After(w, Apply(w, Init(store), Begin(replica, input)), steps);
            && |steps| <= 5 && |s.procs| == 1 && s.procs[0].pc != Done(false)
            && (s.procs[0].pc != Done(true) ==> exists step: Step :: Smooth(step) && Enabled(w, s, step))
            && (s.procs[0].pc == Done(true) ==>
                  && m.clientId in s.store && Registers(s.store[m.clientId], w.resourceUrl, m)
                  && s.store - {m.clientId} == store - {m.clientId})
  {
    var start, record := Apply(w, Init(store), Begin(replica, input)), Desired(w.resourceUrl, m);
    AloneStarts(w, store, replica, input, m);
    UndisturbedRun(w, store, start, steps, record);
    SmoothRunIsShort(w, store, start, steps, record);
    DesiredExactly(w.resourceUrl, m, record);
    var s := After(w, start, steps);
    if !s.procs[0].pc.Done? {
      var step := UnfinishedGoesOn(w, store, s, record);
    }
  }

  // ---------------------------------------------------------------- repeating a call

  function Gets(steps: seq<Step>, p: nat): nat {
    if steps == [] then 0
    else Gets(steps[..|steps| - 1], p) +
         (var last := steps[|steps| - 1]; if last.ServeGet? && last.p == p then 1 else 0)
  }

  // Where a call can be that finds its record in place: no write, one lookup.
  ghost predicate Undemanding(w: World, proc: Process, gets: nat) {
    match proc.pc
    case Locking => gets == 0
    case Reading(first) => first && gets == 0
    case HasRead(first, reply) =>
      first && gets == 1 && (reply == GetError || (reply.Found? && IsManaged(w.lib, reply.client) &&
                                          ClientsEqual(w.lib, reply.client, proc.desired)))
    case Done(_) => gets == 1
    case _ => false
  }

  // So far the call made at most one lookup and sent no write; a failure goes
  // back to a lost lookup.
  ghost predicate Unobtrusive(w: World, s: State, p: nat, desired: HydraClient, steps: seq<Step>) {
    && p < |s.procs| && s.procs[p].desired == desired && p !in s.wire
    && Undemanding(w, s.procs[p], Gets(steps, p))
    && (s.procs[p].pc == Done(false) || s.procs[p].pc == HasRead(true, GetError) ==> ServeGet(p, true) in steps)
  }

  // At every instant of the run the store shows this record.
  ghost predicate AlwaysShows(w: World, start: State, steps: seq<Step>, desired: HydraClient) {
    forall k :: 0 <= k <= |steps| && Runs(w, start, steps[..k]) ==> Shows(After(w, start, steps[..k]).store, desired)
  }

  lemma ShowsInFront(w: World, start: State, steps: seq<Step>, desired: HydraClient)
    requires steps != [] && Runs(w, start, steps) && AlwaysShows(w, start, steps, desired)
    ensures AlwaysShows(w, start, steps[..|steps| - 1], desired)
    ensures Shows(After(w, start, steps[..|steps| - 1]).store, desired)
  {
    var front := steps[..|steps| - 1];
    assert forall k :: 0 <= k <= |front| ==> front[..k] == steps[..k];
    assert front[..|front|] == front;
  }

  // While the store keeps showing the record a call wants, whatever outsiders do
  // to others, the call makes at most one lookup, sends no write, and can only
  // fail by a lost lookup.
  lemma {:induction false} RepeatIsOneGet(w: World, start: State, steps: seq<Step>, p: nat)
    requires Lawful(w.lib) && Sound(w, start) && Runs(w, start, steps)
    requires p < |start.procs| && start.procs[p].pc.Locking?
    requires AlwaysShows(w, start, steps, start.procs[p].desired)
    ensures Sound(w, After(w, start, steps))
    ensures Unobtrusive(w, After(w, start, steps), p, start.procs[p].desired, steps)
    decreases |steps|
  {
    if steps == [] {
      NothingYet(w, start, p);
    } else {
      var front, last := steps[..|steps| - 1], steps[|steps| - 1];
      ShowsInFront(w, start, steps, start.procs[p].desired);
      RepeatIsOneGet(w, start, front, p);
      SoundStep(w, After(w, start, front), last);
      UnobtrusiveStep(w, After(w, start, front), p, start.procs[p].desired, steps);
    }
  }

  lemma NothingYet(w: World, s: State, p: nat)
    requires Sound(w, s) && p < |s.procs| && s.procs[p].pc.Locking?
    ensures Unobtrusive(w, s, p, s.procs[p].desired, [])
  {
    assert ProcessSound(w, s.procs[p], OnWire(s, p));
  }

  lemma UnobtrusiveStep(w: World, s: State, p: nat, desired: HydraClient, steps: seq<Step>)
    requires steps != [] && Sound(w, s) && Enabled(w, s, steps[|steps| - 1]) && Shows(s.store, desired)
    requires Unobtrusive(w, s, p, desired, steps[..|steps| - 1])
    ensures Unobtrusive(w, Apply(w, s, steps[|steps| - 1]), p, desired, steps)
  {
    var front, last := steps[..|steps| - 1], steps[|steps| - 1];
    UndemandingStep(w, s, last, p, Gets(front, p));
    assert steps == front + [last];
  }

  lemma UndemandingStep(w: World, s: State, step: Step, p: nat, gets: nat)
    requires Sound(w, s) && Enabled(w, s, step) && p < |s.procs| && p !in s.wire
    requires Undemanding(w, s.procs[p], gets) && Shows(s.store, s.procs[p].desired)
    ensures var after := Apply(w, s, step);
            && p < |after.procs| && after.procs[p].desired == s.procs[p].desired && p !in after.wire
            && Undemanding(w, after.procs[p], gets + if step.ServeGet? && step.p == p then 1 else 0)
            && (after.procs[p].pc == Done(false) || after.procs[p].pc == HasRead(true, GetError) ==>
                  step == ServeGet(p, true) || s.procs[p].pc == Done(false) || s.procs[p].pc == HasRead(true, GetError))
  {
    if step.Deliver? || step.GiveUp? || step.Lose? || step.AfterPost? || step.AfterPut? || step.Outsider? || step.Begin? {
      assert ProcessSound(w, s.procs[p], OnWire(s, p));
    } else {
      UndemandingMove(w, s, step, p, gets);
    }
  }

  lemma UndemandingMove(w: World, s: State, step: Step, p: nat, gets: nat)
    requires Sound(w, s) && Enabled(w, s, step) && p < |s.procs| && p !in s.wire
    requires Undemanding(w, s.procs[p], gets) && Shows(s.store, s.procs[p].desired)
    requires step.Lock? || step.ServeGet? || step.AfterRead?
    ensures var after := Apply(w, s, step);
            && p < |after.procs| && after.procs[p].desired == s.procs[p].desired && p !in after.wire
            && Undemanding(w, after.procs[p], gets + if step.ServeGet? && step.p == p then 1 else 0)
            && (after.procs[p].pc == Done(false) || after.procs[p].pc == HasRead(true, GetError) ==>
                  step == ServeGet(p, true) || s.procs[p].pc == Done(false) || s.procs[p].pc == HasRead(true, GetError))
  {
    assert ProcessSound(w, s.procs[p], OnWire(s, p));
  }
}
