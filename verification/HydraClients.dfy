// The Hydra client records the facade manages, and EnsureCIMDClient as code
// over an admin API whose store other parties change between any two requests.

module HydraClients {
  import opened Prelude
  import opened Urls
  import opened ClientMetadata
  import opened NormalForms

  const MARKER_KIND := "mcp_cimd_v1"
  const HYDRA_CLIENT_SCOPE := SCOPE + " " + OFFLINE_ACCESS_SCOPE

  // The raw JSON of a record's `metadata` member: absent, not an object, or an
  // object whose members are strings, null or something else.
  datatype JsonMember = JsonString(value: string) | JsonNull | JsonOther
  datatype RawMetadata = NoMetadata | NotAnObject | Object(members: map<string, JsonMember>)

  datatype HydraClient = HydraClient(
    id: string,
    name: string,
    redirectUris: seq<string>,
    grantTypes: seq<string>,
    responseTypes: seq<string>,
    scope: string,
    audience: seq<string>,
    authMethod: string,
    authAlg: string,
    jwksUri: string,
    logoUri: string,
    clientUri: string,
    policyUri: string,
    tosUri: string,
    contacts: seq<string>,
    skipConsent: bool,
    metadata: RawMetadata)

  // Decoding a member into a Go string: null leaves the empty string.
  function AsString(member: JsonMember): Option<string> {
    match member
    case JsonString(s) => Some(s)
    case JsonNull => Some("")
    case JsonOther => None
  }

  predicate IsManaged(lib: UrlLibrary, client: HydraClient) {
    && client.metadata.Object?
    && var members := client.metadata.members;
       && |members| == 2 && "kind" in members && "client_id" in members
       && AsString(members["kind"]) == Some(MARKER_KIND)
       && AsString(members["client_id"]) == Some(client.id)
       && LooksLikeUrlClientId(lib, client.id)
  }

  predicate ClientsEqual(lib: UrlLibrary, left: HydraClient, right: HydraClient) {
    && left.id == right.id && left.name == right.name
    && left.redirectUris == right.redirectUris && left.grantTypes == right.grantTypes
    && left.responseTypes == right.responseTypes && left.scope == right.scope
    && left.audience == right.audience
    && left.authMethod == right.authMethod && left.authAlg == right.authAlg && left.jwksUri == right.jwksUri
    && left.logoUri == "" && left.clientUri == "" && left.policyUri == "" && left.tosUri == ""
    && left.contacts == [] && !left.skipConsent && IsManaged(lib, left)
  }

  function Marker(clientId: string): RawMetadata {
    Object(map["kind" := JsonString(MARKER_KIND), "client_id" := JsonString(clientId)])
  }

  function Desired(resourceUrl: string, m: Metadata): HydraClient {
    HydraClient(m.clientId, m.clientName, m.redirectUris, m.grantTypes, ["code"], HYDRA_CLIENT_SCOPE, [resourceUrl],
                m.authMethod, m.authAlg, m.jwksUri, "", "", "", "", [], false, Marker(m.clientId))
  }

  // The record holds the client's own metadata, field by field, and what the
  // facade gives every client: the code response, its scope, the resource as
  // only audience, no skipped consent, no presentation, and the marker.
  ghost predicate Registers(record: HydraClient, resourceUrl: string, m: Metadata) {
    && record.id == m.clientId && record.name == m.clientName
    && record.redirectUris == m.redirectUris && record.grantTypes == m.grantTypes
    && record.authMethod == m.authMethod && record.authAlg == m.authAlg && record.jwksUri == m.jwksUri
    && record.responseTypes == ["code"] && record.scope == "mcp offline_access" && record.audience == [resourceUrl]
    && !record.skipConsent
    && record.logoUri == "" && record.clientUri == "" && record.policyUri == "" && record.tosUri == ""
    && record.contacts == []
    && record.metadata ==
       Object(map["kind" := JsonString("mcp_cimd_v1"), "client_id" := JsonString(m.clientId)])
  }

  lemma DesiredExactly(resourceUrl: string, m: Metadata, record: HydraClient)
    ensures Registers(record, resourceUrl, m) <==> record == Desired(resourceUrl, m)
  {
    assert HYDRA_CLIENT_SCOPE == "mcp offline_access";
  }

  // The store holds, under its own id, the record of an admitted document.
  ghost predicate HoldsRecordOf(lib: UrlLibrary, resourceUrl: string, input: Metadata, store: Store) {
    exists m :: NormalForm(lib, input, true, m) && m.clientId in store && Registers(store[m.clientId], resourceUrl, m)
  }

  // The document is admitted, with this normal form, and its id is a valid URL.
  ghost predicate Registrable(lib: UrlLibrary, input: Metadata, m: Metadata) {
    NormalForm(lib, input, true, m) && ValidateClientIdUrl(lib, m.clientId).Some?
  }

  // What every record the facade writes looks like.
  predicate FacadeRecord(lib: UrlLibrary, resourceUrl: string, client: HydraClient) {
    && IsManaged(lib, client) && !client.skipConsent && client.audience == [resourceUrl]
    && ClientsEqual(lib, client, client)
  }

  lemma DesiredIsFacadeRecord(lib: UrlLibrary, resourceUrl: string, m: Metadata)
    requires Lawful(lib) && ValidateClientIdUrl(lib, m.clientId).Some?
    ensures FacadeRecord(lib, resourceUrl, Desired(resourceUrl, m))
  {
    ValidClientIdIsUrlClientId(lib, m.clientId);
    var members := Marker(m.clientId).members;
    assert members.Keys == {"kind", "client_id"};
    assert "kind" != "client_id";
  }

  // Against a desired record the field-by-field comparison is plain equality.
  lemma EqualToDesired(lib: UrlLibrary, resourceUrl: string, m: Metadata, stored: HydraClient)
    requires Lawful(lib) && ValidateClientIdUrl(lib, m.clientId).Some?
    ensures ClientsEqual(lib, stored, Desired(resourceUrl, m)) <==> stored == Desired(resourceUrl, m)
  {
    DesiredIsFacadeRecord(lib, resourceUrl, m);
    if ClientsEqual(lib, stored, Desired(resourceUrl, m)) {
      TwoMembers(stored.metadata.members);
      TwoMembers(Marker(m.clientId).members);
      assert stored.metadata.members["kind"] == JsonString(MARKER_KIND);
      assert stored.metadata.members["client_id"] == JsonString(m.clientId) by {
        assert m.clientId != "" by { ValidClientIdIsUrlClientId(lib, m.clientId); }
      }
      assert stored.metadata.members == Marker(m.clientId).members;
    }
  }

  lemma TwoMembers(members: map<string, JsonMember>)
    requires "kind" in members && "client_id" in members
    requires |members| == 2 || members.Keys <= {"kind", "client_id"}
    ensures members.Keys == {"kind", "client_id"}
  {
    if |members| == 2 {
      SubsetOfSameSize({"kind", "client_id"}, members.Keys, 2);
    }
  }

  // A record is managed exactly when its metadata is the marker with its own id,
  // which may be null for an empty id, and that id is a URL.
  lemma ManagedExactly(lib: UrlLibrary, client: HydraClient)
    ensures IsManaged(lib, client) <==>
            && LooksLikeUrlClientId(lib, client.id)
            && (|| client.metadata ==
                   Object(map["kind" := JsonString("mcp_cimd_v1"), "client_id" := JsonString(client.id)])
                || (client.id == "" && client.metadata ==
                   Object(map["kind" := JsonString("mcp_cimd_v1"), "client_id" := JsonNull])))
  {
    assert "kind" != "client_id" && "mcp_cimd_v1" != "";
    if IsManaged(lib, client) {
      var members := client.metadata.members;
      TwoMembers(members);
      assert members == map["kind" := members["kind"], "client_id" := members["client_id"]];
    }
    var text := map["kind" := JsonString("mcp_cimd_v1"), "client_id" := JsonString(client.id)];
    var empty := map["kind" := JsonString("mcp_cimd_v1"), "client_id" := JsonNull];
    assert text.Keys == {"kind", "client_id"} && empty.Keys == {"kind", "client_id"};
    assert |text| == |text.Keys| == 2 && |empty| == |empty.Keys| == 2;
  }

  // ---------------------------------------------------------------- the store

  type Store = map<string, HydraClient>

  predicate Keyed(store: Store) {
    forall id :: id in store ==> store[id].id == id
  }

  predicate HoldsManaged(lib: UrlLibrary, store: Store, id: string) {
    id in store && IsManaged(lib, store[id])
  }

  // What others may do: anything except removing or unmarking a managed record.
  ghost predicate Rely(lib: UrlLibrary, before: Store, after: Store) {
    && (Keyed(before) ==> Keyed(after))
    && forall id :: HoldsManaged(lib, before, id) ==> HoldsManaged(lib, after, id)
  }

  // What one write of the facade does: unmanaged records stay as they are and a
  // record that differs afterwards is a facade record.
  ghost predicate Guarantee(lib: UrlLibrary, resourceUrl: string, before: Store, after: Store) {
    && (forall id :: id in before && !IsManaged(lib, before[id]) ==> id in after && after[id] == before[id])
    && AddsFacadeRecords(lib, resourceUrl, before, after)
  }

  // Nothing goes, and what is new or different is a facade record.
  ghost predicate AddsFacadeRecords(lib: UrlLibrary, resourceUrl: string, before: Store, after: Store) {
    && (forall id :: id in before ==> id in after)
    && (forall id :: id in after && (id in before ==> after[id] != before[id]) ==>
          FacadeRecord(lib, resourceUrl, after[id]))
  }

  lemma GuaranteeImpliesRely(lib: UrlLibrary, resourceUrl: string, before: Store, after: Store)
    requires Guarantee(lib, resourceUrl, before, after)
    ensures forall id :: HoldsManaged(lib, before, id) ==> HoldsManaged(lib, after, id)
  {
    forall id | HoldsManaged(lib, before, id) ensures HoldsManaged(lib, after, id) {
      assert after[id] == before[id] || FacadeRecord(lib, resourceUrl, after[id]);
    }
  }

  // A request fails without effect, fails after taking effect, or is answered.
  datatype Fault = Answered | LostRequest | LostReply

  datatype GetReply = Found(client: HydraClient) | NotFound | GetError
  datatype WriteReply = Accepted | Conflict | WriteError

  function Lookup(store: Store, id: string): GetReply {
    if id !in store then NotFound
    else if store[id].id != id then GetError
    else Found(store[id])
  }

  function CreateIn(store: Store, client: HydraClient): (Store, WriteReply) {
    if client.id in store then (store, Conflict) else (store[client.id := client], Accepted)
  }

  // Hydra answers 404 to an update of a client it does not have.
  function PutIn(store: Store, client: HydraClient): (Store, WriteReply) {
    if client.id in store then (store[client.id := client], Accepted) else (store, WriteError)
  }

  lemma CreateGuarantee(lib: UrlLibrary, resourceUrl: string, store: Store, client: HydraClient)
    requires FacadeRecord(lib, resourceUrl, client)
    ensures Guarantee(lib, resourceUrl, store, CreateIn(store, client).0)
  {
  }

  // An update keeps the guarantee exactly when it meets no unmanaged record.
  lemma PutGuarantee(lib: UrlLibrary, resourceUrl: string, store: Store, client: HydraClient)
    requires FacadeRecord(lib, resourceUrl, client)
    ensures Guarantee(lib, resourceUrl, store, PutIn(store, client).0) <==>
            (client.id !in store || IsManaged(lib, store[client.id]))
  {
    var after := PutIn(store, client).0;
    if client.id in store && !IsManaged(lib, store[client.id]) {
      assert after[client.id] == client && IsManaged(lib, client);
    }
  }

  ghost predicate AllKept(lib: UrlLibrary, resourceUrl: string, writes: seq<(Store, Store)>) {
    forall i :: 0 <= i < |writes| ==> Guarantee(lib, resourceUrl, writes[i].0, writes[i].1)
  }

  lemma OneMoreKept(lib: UrlLibrary, resourceUrl: string, writes: seq<(Store, Store)>, before: Store, after: Store)
    requires AllKept(lib, resourceUrl, writes) && Guarantee(lib, resourceUrl, before, after)
    ensures AllKept(lib, resourceUrl, writes + [(before, after)])
  {
  }

  // A creation or an admissible update, put on record.
  lemma CreateKept(lib: UrlLibrary, resourceUrl: string, writes: seq<(Store, Store)>, store: Store, client: HydraClient)
    requires AllKept(lib, resourceUrl, writes) && Keyed(store) && FacadeRecord(lib, resourceUrl, client)
    ensures AllKept(lib, resourceUrl, writes + [(store, CreateIn(store, client).0)]) && Keyed(CreateIn(store, client).0)
  {
    CreateGuarantee(lib, resourceUrl, store, client);
    OneMoreKept(lib, resourceUrl, writes, store, CreateIn(store, client).0);
  }

  lemma PutKept(lib: UrlLibrary, resourceUrl: string, writes: seq<(Store, Store)>, store: Store, client: HydraClient)
    requires AllKept(lib, resourceUrl, writes) && Keyed(store) && FacadeRecord(lib, resourceUrl, client)
    requires HoldsManaged(lib, store, client.id)
    ensures AllKept(lib, resourceUrl, writes + [(store, PutIn(store, client).0)]) && Keyed(PutIn(store, client).0)
  {
    PutGuarantee(lib, resourceUrl, store, client);
    OneMoreKept(lib, resourceUrl, writes, store, PutIn(store, client).0);
  }

  // ---------------------------------------------------------------- what a call is for

  ghost predicate Unregistrable(lib: UrlLibrary, input: Metadata) {
    forall m :: !Registrable(lib, input, m)
  }

  // From some instant on, the store held the record of the document.
  ghost predicate HeldSince(lib: UrlLibrary, resourceUrl: string, input: Metadata, history: seq<Store>, start: nat) {
    exists i :: start <= i < |history| && HoldsRecordOf(lib, resourceUrl, input, history[i])
  }

  // Alone, a call for a registrable document succeeds unless it meets an
  // unmanaged record; then that document's record is in the store, and nothing
  // else has changed.
  ghost predicate RegistersAlone(lib: UrlLibrary, resourceUrl: string, input: Metadata, before: Store, after: Store, ok: bool) {
    forall m :: Registrable(lib, input, m) ==>
      && (ok <==> m.clientId !in before || IsManaged(lib, before[m.clientId]))
      && (ok ==> m.clientId in after && Registers(after[m.clientId], resourceUrl, m))
      && (forall id :: (ok ==> id != m.clientId) ==> (id in after <==> id in before) && (id in after ==> after[id] == before[id]))
  }

  // The same in terms of the desired record.
  ghost predicate LoneOutcome(lib: UrlLibrary, before: Store, after: Store, desired: HydraClient, ok: bool) {
    && (ok <==> desired.id !in before || IsManaged(lib, before[desired.id]))
    && after == if ok then before[desired.id := desired] else before
  }

  lemma NothingToRegister(lib: UrlLibrary, resourceUrl: string, input: Metadata, store: Store)
    requires Normalized(lib, input, true).Err? ||
             ValidateClientIdUrl(lib, Normalized(lib, input, true).value.clientId) == None
    ensures Unregistrable(lib, input) && RegistersAlone(lib, resourceUrl, input, store, store, false)
  {
    forall m ensures !Registrable(lib, input, m) {
      NormalizedExactly(lib, input, true, m);
    }
  }

  lemma SomethingToRegister(lib: UrlLibrary, input: Metadata, m: Metadata)
    requires Normalized(lib, input, true) == Ok(m) && ValidateClientIdUrl(lib, m.clientId).Some?
    ensures Registrable(lib, input, m)
  {
    NormalizedExactly(lib, input, true, m);
  }

  lemma HeldMeaning(lib: UrlLibrary, resourceUrl: string, input: Metadata, m: Metadata, history: seq<Store>, start: nat)
    requires Registrable(lib, input, m)
    requires exists i :: start <= i < |history| && Shows(history[i], Desired(resourceUrl, m))
    ensures HeldSince(lib, resourceUrl, input, history, start)
  {
    var i :| start <= i < |history| && Shows(history[i], Desired(resourceUrl, m));
    DesiredExactly(resourceUrl, m, Desired(resourceUrl, m));
    assert HoldsRecordOf(lib, resourceUrl, input, history[i]);
  }

  lemma AloneMeaning(lib: UrlLibrary, resourceUrl: string, input: Metadata, m: Metadata, before: Store, after: Store, ok: bool)
    requires Normalized(lib, input, true) == Ok(m) && LoneOutcome(lib, before, after, Desired(resourceUrl, m), ok)
    ensures RegistersAlone(lib, resourceUrl, input, before, after, ok)
  {
    DesiredExactly(resourceUrl, m, Desired(resourceUrl, m));
    forall n | Registrable(lib, input, n) ensures n == m {
      NormalizedExactly(lib, input, true, n);
    }
  }

  // ---------------------------------------------------------------- the manager over a shared store

  // `others(n, store)` is the store after what everyone else did up to the
  // n-th instant, `faults(n)` the fate of the request made there. Both are
  // arbitrary, so a statement about this class covers every interference.
  class AdminApi {
    const lib: UrlLibrary
    const resourceUrl: string
    const others: (nat, Store) -> Store
    const faults: nat -> Fault
    var clients: Store
    var instant: nat
    var gets: nat
    var sends: nat
    ghost var history: seq<Store>          // the store at every instant so far
    ghost var writes: seq<(Store, Store)>  // the store around each write that took effect

    ghost predicate Valid()
      reads this
    {
      && Lawful(lib) && Keyed(clients)
      && (forall n, store :: Rely(lib, store, others(n, store)))
      && AllKept(lib, resourceUrl, writes)
    }

    constructor (lib: UrlLibrary, resourceUrl: string, clients: Store,
                 others: (nat, Store) -> Store, faults: nat -> Fault)
      requires Lawful(lib) && Keyed(clients) && forall n, store :: Rely(lib, store, others(n, store))
      ensures Valid() && this.clients == clients && gets == 0 && sends == 0 && history == [] && writes == []
    {
      this.lib, this.resourceUrl, this.others, this.faults := lib, resourceUrl, others, faults;
      this.clients, this.instant, this.gets, this.sends := clients, 0, 0, 0;
      this.history, this.writes := [], [];
    }

    // No request is lost and nobody else changes the store.
    ghost predicate Quiet() {
      && (forall n :: faults(n) == Answered)
      && (forall n, store :: others(n, store) == store)
    }

    // Everyone else runs for a while.
    method Interfere()
      requires Valid()
      modifies this`clients, this`instant
      ensures Valid() && Rely(lib, old(clients), clients)
      ensures Quiet() ==> clients == old(clients)
    {
      clients := others(instant, clients);
      instant := instant + 1;
    }

    // `seen` is the store the request meets, `after` the one it leaves.
    method Get(id: string) returns (reply: GetReply, ghost seen: Store)
      requires Valid()
      modifies this
      ensures Valid() && gets == old(gets) + 1 && sends == old(sends) && writes == old(writes)
      ensures Rely(lib, old(clients), seen) && Rely(lib, seen, clients) && history == old(history) + [seen]
      ensures reply == GetError || reply == Lookup(seen, id)
      ensures Quiet() ==> clients == seen == old(clients) && reply == Lookup(seen, id)
    {
      Interfere();
      seen := clients;
      history := history + [seen];
      gets := gets + 1;
      reply := if faults(instant) == Answered then Lookup(clients, id) else GetError;
      Interfere();
    }

    method Create(client: HydraClient) returns (reply: WriteReply, ghost seen: Store, ghost after: Store)
      requires Valid() && FacadeRecord(lib, resourceUrl, client)
      modifies this
      ensures Valid() && gets == old(gets) && sends == old(sends) + 1
      ensures Rely(lib, old(clients), seen) && Rely(lib, after, clients) && history == old(history) + [after]
      ensures after == seen || after == CreateIn(seen, client).0
      ensures reply != WriteError ==> (after, reply) == CreateIn(seen, client)
      ensures Quiet() ==> (clients, reply) == CreateIn(old(clients), client)
      ensures writes == if after == seen then old(writes) else old(writes) + [(seen, after)]
    {
      Interfere();
      seen, after := clients, clients;
      sends := sends + 1;
      reply := WriteError;
      if faults(instant) != LostRequest {
        CreateKept(lib, resourceUrl, writes, clients, client);
        var (created, answer) := CreateIn(clients, client);
        clients := created;
        after := created;
        if after != seen {
          writes := writes + [(seen, after)];
        }
        if faults(instant) == Answered {
          reply := answer;
        }
      }
      history := history + [clients];
      Interfere();
    }

    method Put(client: HydraClient) returns (reply: WriteReply, ghost seen: Store, ghost after: Store)
      requires Valid() && FacadeRecord(lib, resourceUrl, client) && HoldsManaged(lib, clients, client.id)
      modifies this
      ensures Valid() && gets == old(gets) && sends == old(sends) + 1
      ensures Rely(lib, old(clients), seen) && Rely(lib, after, clients) && history == old(history) + [after]
      ensures HoldsManaged(lib, seen, client.id)
      ensures after == seen || after == PutIn(seen, client).0
      ensures reply != WriteError ==> (after, reply) == PutIn(seen, client)
      ensures Quiet() ==> (clients, reply) == PutIn(old(clients), client)
      ensures writes == if after == seen then old(writes) else old(writes) + [(seen, after)]
    {
      Interfere();
      seen, after := clients, clients;
      sends := sends + 1;
      reply := WriteError;
      if faults(instant) != LostRequest {
        PutKept(lib, resourceUrl, writes, clients, client);
        var (updated, answer) := PutIn(clients, client);
        clients := updated;
        after := updated;
        if after != seen {
          writes := writes + [(seen, after)];
        }
        if faults(instant) == Answered {
          reply := answer;
        }
      }
      history := history + [clients];
      Interfere();
    }

    // The common end of both branches that found a record: refuse an unmanaged
    // one, keep an equal one, update any other.
    method Reconcile(metadata: Metadata, existing: HydraClient) returns (ok: bool)
      requires Valid() && ValidateClientIdUrl(lib, metadata.clientId).Some?
      requires existing.id == metadata.clientId
      requires history != [] && existing.id in history[|history| - 1] && history[|history| - 1][existing.id] == existing
      requires IsManaged(lib, existing) ==> HoldsManaged(lib, clients, existing.id)
      modifies this
      ensures Valid() && old(writes) <= writes && old(history) <= history
      ensures gets == old(gets) && sends <= old(sends) + 1
      ensures var desired := Desired(resourceUrl, metadata);
              && (ok ==> Shows(history[|history| - 1], desired))
              && (existing == desired ==> ok && sends == old(sends) && history == old(history))
              && (!IsManaged(lib, existing) ==> !ok && sends == old(sends) && writes == old(writes))
              && (!IsManaged(lib, existing) || existing == desired ==> clients == old(clients))
              && (Quiet() && IsManaged(lib, existing) && existing != desired ==>
                    ok && clients == old(clients)[existing.id := desired])
    {
      var desired := Desired(resourceUrl, metadata);
      DesiredIsFacadeRecord(lib, resourceUrl, metadata);
      EqualToDesired(lib, resourceUrl, metadata, existing);
      if !IsManaged(lib, existing) {
        return false;
      }
      if ClientsEqual(lib, existing, desired) {
        return true;
      }
      var reply, _, after := Put(desired);
      return reply == Accepted;
    }

    // No record was found: create one, or read again when another replica was
    // faster.
    method CreateOrReread(metadata: Metadata) returns (ok: bool)
      requires Valid() && ValidateClientIdUrl(lib, metadata.clientId).Some?
      modifies this
      ensures Valid() && old(writes) <= writes && old(history) < history
      ensures gets <= old(gets) + 1 && sends <= old(sends) + 2
      ensures ok ==> exists i :: |old(history)| <= i < |history| && Shows(history[i], Desired(resourceUrl, metadata))
      ensures Quiet() && metadata.clientId !in old(clients) ==>
                ok && clients == old(clients)[metadata.clientId := Desired(resourceUrl, metadata)]
    {
      DesiredIsFacadeRecord(lib, resourceUrl, metadata);
      var created, _, after := Create(Desired(resourceUrl, metadata));
      if created == Accepted {
        assert Shows(history[|history| - 1], Desired(resourceUrl, metadata));
        return true;
      }
      if created != Conflict {
        return false;
      }

      // Another replica may have created the client after the lookup.
      var reread, _ := Get(metadata.clientId);
      if !reread.Found? {
        return false;
      }
      ok := Reconcile(metadata, reread.client);
    }

    // The locked part of the call, for a record already normalised. Success
    // means the store showed the desired record at some instant of this call;
    // a record found up to date costs one lookup and no write.
    method Synchronize(metadata: Metadata) returns (ok: bool)
      requires Valid() && ValidateClientIdUrl(lib, metadata.clientId).Some?
      modifies this
      ensures Valid() && old(writes) <= writes && old(history) < history
      ensures gets <= old(gets) + 2 && sends <= old(sends) + 2
      ensures var desired := Desired(resourceUrl, metadata);
              && (ok ==> exists i :: |old(history)| <= i < |history| && Shows(history[i], desired))
              && (Shows(history[|old(history)|], desired) ==> gets == old(gets) + 1 && sends == old(sends))
              && (Quiet() ==> LoneOutcome(lib, old(clients), clients, desired, ok))
    {
      var existing, _ := Get(metadata.clientId);
      if existing.GetError? {
        return false;
      }
      if existing.Found? {
        ok := Reconcile(metadata, existing.client);
        return;
      }
      ok := CreateOrReread(metadata);
    }

    // Whatever the outcome, each write kept the guarantee (Valid).
    method EnsureCimdClient(input: Metadata) returns (ok: bool)
      requires Valid()
      modifies this
      ensures Valid() && old(writes) <= writes && old(history) <= history
      ensures Normalized(lib, input, true).Err? ==> !ok && gets == old(gets) && sends == old(sends)
      ensures Unregistrable(lib, input) ==> !ok && gets == old(gets) && sends == old(sends) && clients == old(clients)
      ensures ok ==> HeldSince(lib, resourceUrl, input, history, |old(history)|)
      ensures Quiet() ==> RegistersAlone(lib, resourceUrl, input, old(clients), clients, ok)
      ensures Normalized(lib, input, true).Ok? ==>
                var desired := Desired(resourceUrl, Normalized(lib, input, true).value);
                && (ok ==> exists i :: |old(history)| <= i < |history| && Shows(history[i], desired))
                && (|history| > |old(history)| && Shows(history[|old(history)|], desired) ==>
                      gets == old(gets) + 1 && sends == old(sends))
    {
      var normalized := NormalizeClientMetadata(lib, input, true);
      if normalized.Err? {
        NothingToRegister(lib, resourceUrl, input, clients);
        return false;
      }
      if ValidateClientIdUrl(lib, normalized.value.clientId) == None {
        NothingToRegister(lib, resourceUrl, input, clients);
        return false;
      }
      ok := Synchronize(normalized.value);
      SomethingToRegister(lib, input, normalized.value);
      if ok {
        HeldMeaning(lib, resourceUrl, input, normalized.value, history, |old(history)|);
      }
      if Quiet() {
        AloneMeaning(lib, resourceUrl, input, normalized.value, old(clients), clients, ok);
      }
    }
  }

  ghost predicate Shows(store: Store, desired: HydraClient) {
    desired.id in store && store[desired.id] == desired
  }
}
