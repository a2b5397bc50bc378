# Identity services: a verified model

This project models the decision logic of the identity services in Dafny and
proves what that logic is meant to keep. `dafny verify dfyconfig.toml` checks
all of it.

The model has five parts.

**The client metadata resolver** (`internal/mcpoauth/metadata_resolver.go`).
`ResolverTables` holds the three maps of the resolver as a class whose methods
are the critical sections and the two eviction loops. `ResolverProtocol` runs
any number of `Resolve` calls as a step relation: a call reads the clock, takes
the lock, is answered from the cache, follows an open call, is refused, or
leads; a leader waits for one of eight fetch slots, fetches, and completes.
Steps interleave freely, so two calls may take the lock in the opposite order
of their clock readings. `ResolverSafety` and `ResolverProgress` prove single
flight, agreement of followers and leader, the origin of every answer, the size
of the tables, the spacing of fetches to one host, and that calls finish.
`ResolverOutcomes` says what each step does to the tables and follows a record
from its fetch into the cache and out of it.
`ResolverWitnesses` builds the runs from the initial state in which a bound or
the spacing fails, and says for which client ids there are such runs.
`CacheControl` is the lifetime read from a `Cache-Control` header, with the
wrap-around of 64-bit multiplication; `TtlMeaning` says what it is from the text
of the header alone.

**The Hydra client synchroniser** (`internal/mcpoauth/hydra_clients.go`).
`HydraClients` has the calls against an admin store that others change between
any two requests, where a request or its answer may be lost. `HydraProtocol`
runs any number of calls in any number of replicas; a write may still take
effect after its caller gave up. Outsiders may create, change and delete
records as they like, except that they leave records managed that are managed;
without that exception `GuaranteeExactly` says which step goes wrong. What a
call promises its caller holds for any outsiders: a call that returned nil had
the record of its document stored, field by field, and a call left alone
succeeds.

**Access rules and their rendering** (`internal/oathkeeperrules/generator.go`,
`internal/oathkeeperconfig/render.go`). `Regexes` gives the fragment of regular
expressions in use a syntax tree, its text, a parser and a language. `RoleTables`
collects the procedures by role, `RoleRules` writes a role's matcher and proves
which URLs the written text matches, `AccessRules` treats the whole rule file and
`StaticRules` says which requests each of its fixed rules is for.
`Substitution` and `Renderer` model the replacement loop and `AuthBoundary` the
check of the header names. `RuleFile` and `RuleTemplate` give the generated file
as its rules, site and header names between arbitrary texts, and prove that
rendering it is generating it for the deployment exactly when no name holds a
placeholder; `Marks` has the facts about the placeholders that this rests on,
and `RuleSample` a deployment for which it goes wrong.
`RuleRouting` puts the two together: which rule of the written and the rendered
file a request meets. `Base64Url` treats the pattern the MCP context is checked
with, and `ContextPattern` its text.

**Metadata normalisation and the authorisation facade**
(`internal/mcpoauth/client_metadata.go`, `internal/mcpoauth/handler.go`), in
`Urls`, `ClientMetadata` and `Facade`. `NormalForms` says which documents are
admitted and what each field becomes, without the branches of the code.

**The permission schema** (`config/spicedb/schema.generated.zed`). `Relations`
defines what a schema means over a set of tuples, cyclic ones included, as a
least fixed point; `Permissions` holds the schema and says of every permission
who holds it, in tuples.

## What the proofs found

- The scan of `evictHostRateEntryLocked` uses the empty string for "none yet".
  A client id such as `https://:443/x` has an empty host name, which is a key of
  the map. With that key met last the loop evicts nothing although every entry
  is fresh, and the table grows past its bound. `HostEvictionMakesRoom` says
  exactly when every order of the visit makes room, and
  `HostTableOverflowsExactly` that some run from the start overflows the table
  exactly when the client ids have the empty and 2048 other host names.
- `metadataCacheTTL` multiplies before it caps. The product wraps, so
  `max-age=18446744074` is a lifetime of 0.29 s. `SecondsTtlExact` says for
  which values the result is the smaller of the value and one hour.
- Evicting a host forgets its last fetch time, so a second fetch may be recorded
  less than a second after the first. There are two ways. Readings of the clock
  and entries into the lock may come in different orders, and a late reading
  clears the table before an early one enters (`RushedRun`, 2048 hosts). Or a
  full table of fresh hosts drops its oldest one, with all readings in order
  (`CrowdedOutRun`, 2049 hosts). `EvictionForgetsSpacing` says exactly when one
  registration turns a refusal into a fetch, and `SpacingFailsExactly` that some
  run breaks the spacing exactly when the client ids have at least 2048 hosts.
- The replacement loop reads what it wrote. An internal service header name may
  hold the placeholder of the authentication header: `NewNames` accepts it, and it
  comes out of the renderer with the authentication header's name in that place
  (`SampleFails`). `HeaderNameIsSubstitutedTwice` gives the outcome for the one order
  that sorting by length leaves, and `RenderingTheRuleFile` the exact condition
  for the wanted file: none of the site and the two header names holds a
  placeholder.
- An administrator of the platform holds every permission of a post but
  `collaborator_edit`.
- A follower that was not cancelled is handed its leader's cancellation as the
  answer of the call (`CancellationIsRelayed`).
- A PUT keeps the records of others exactly when it meets a managed or no record
  (`PutGuarantee`). An outsider that replaces a managed record between lookup
  and PUT has it overwritten, and the call returns nil
  (`ReplacedRecordIsOverwritten`).

## Reading the model

- Text is a sequence of characters. Where the services count bytes the model
  counts characters, and lower-casing is that of ASCII.
- Times are integers in nanoseconds on one clock.
- URL parsing, media types and JSON decoding are parameters: `Urls.UrlLibrary`
  stands for `net/url`, with the few facts needed in `Urls.Lawful`, and a
  response to a fetch carries what decoding made of its body.
- The order in which a Go map is visited is arbitrary in the methods that loop
  over one. The specification functions take that order as an argument.
- The striped lock of a client id is any function of the id.
- The admin store keeps records as sent, answers 409 to a POST of a known id
  and 404 to a PUT of an unknown one.
- A site origin is trimmed and has no backslash, which the renderer's own check
  of origins ensures.
- Origins in the route file are scheme, `://` and an authority without a slash,
  which is what the route check leaves; service names hold no slash, and a
  procedure is declared once.
- Functions that a method is proved against follow the branches of the code. What
  they mean is said a second time without naming them: in texts, tuples, fields
  of records or places in files.
- Oathkeeper matches the text between the angle brackets against the whole URL.

## Model

| member | source | states |
|---|---|---|
| Urls.ValidClientIdIsUrlClientId | internal/mcpoauth/client_metadata.go:336-372 | a valid client id URL is not empty and is recognised as a URL-form client id |
| ClientMetadata.SameStringSetMeaning | internal/mcpoauth/client_metadata.go:409-419 | the index-by-index test holds exactly when both lists are free of duplicates and have the same elements |
| ClientMetadata.SameSetIgnoresOrder | internal/mcpoauth/client_metadata.go:409-419 | the test does not depend on the order of its left argument |
| ClientMetadata.DeclaredErrorMeaning | internal/mcpoauth/client_metadata.go:256-273 | the scan of a declared list fails exactly for an empty, repeated or symmetric method |
| ClientMetadata.ScanDeclaredMethods | internal/mcpoauth/client_metadata.go:256-273 | the loop reports the first error, or fills the two sets with the declared and the supported methods |
| ClientMetadata.SelectTokenEndpointAuthMethod | internal/mcpoauth/client_metadata.go:240-292 | the method with its loop computes the selection function |
| ClientMetadata.SelectDeclaredMeaning | internal/mcpoauth/client_metadata.go:252-292 | selection gives m exactly when the list is acceptable, a preference is a member, and m is the supported preference or else the only supported member |
| ClientMetadata.SelectDeclaredIgnoresOrder | internal/mcpoauth/client_metadata.go:252-292 | permuting the declared list never changes the selected method |
| ClientMetadata.RedirectErrorMeaning | internal/mcpoauth/client_metadata.go:145-154 | the redirect loop accepts exactly the lists of distinct valid redirect URIs |
| ClientMetadata.CheckRedirects | internal/mcpoauth/client_metadata.go:145-154 | the loop with its seen-set reports the first error of the list |
| ClientMetadata.NormalizeClientMetadata | internal/mcpoauth/client_metadata.go:126-238 | the method computes the normal form, and a success is a canonical record |
| ClientMetadata.NormalizedIsCanonical | internal/mcpoauth/client_metadata.go:126-238 | normal forms are canonical: method none without algorithm and key set, private_key_jwt only with RS256, a valid key set and a required client id |
| ClientMetadata.CanonicalIffFixed | internal/mcpoauth/client_metadata.go:126-238 | a record is canonical exactly when normalising it succeeds and changes nothing |
| ClientMetadata.NormalizeIdempotent | internal/mcpoauth/client_metadata.go:126-238 | normalising twice is normalising once, for either flag |
| ClientMetadata.NormalizeIgnoresGrantOrder | internal/mcpoauth/client_metadata.go:156-181 | permuting grant_types never changes the outcome, error included |
| NormalForms.ScopeMeaning | internal/mcpoauth/client_metadata.go:222-225 | a scope is accepted exactly when its text is mcp, with or without offline_access, in either order and between any white space |
| NormalForms.GrantsMeaning | internal/mcpoauth/client_metadata.go:156-181 | no grants and authorization_code alone become authorization_code, and either order with refresh_token becomes the pair; everything else is refused |
| NormalForms.MethodMeaning | internal/mcpoauth/client_metadata.go:240-292 | without a declared list the method is the given one, or none; with one it is the negotiated method |
| NormalForms.NormalizedExactly | internal/mcpoauth/client_metadata.go:126-238 | normalisation succeeds with a record exactly when every field of the document is admissible and every field of the record is the kept, defaulted, dropped or sorted one |
| CacheControl.MetadataCacheTtl | internal/mcpoauth/metadata_resolver.go:214-241 | the two loops compute the lifetime that TtlMeaning is about, at most one hour |
| CacheControl.ForbidsMeaning | internal/mcpoauth/metadata_resolver.go:216-221 | a directive forbids caching exactly when its text is no-store or no-cache in any case, between white space, with or without an argument |
| CacheControl.AgeMeaning | internal/mcpoauth/metadata_resolver.go:222-227 | a directive has this max-age argument exactly when its text is max-age in any case, an equals sign and the argument, between white space |
| CacheControl.CountsMeaning | internal/mcpoauth/metadata_resolver.go:229 | an argument is a number exactly when it is quotes around a sign or none and digits within 64 bits |
| CacheControl.TtlMeaning | internal/mcpoauth/metadata_resolver.go:214-241 | read off the header text: nothing where some directive is no-store or no-cache; fifteen minutes without these and without a max-age; otherwise the first max-age decides, with nothing for what is no positive number |
| CacheControl.TtlBounded | internal/mcpoauth/metadata_resolver.go:214-241 | no header gives more than one hour, wrapped products included |
| CacheControl.LeftmostAgeDecides | internal/mcpoauth/metadata_resolver.go:222-240 | the first max-age with an argument decides; without one the lifetime is fifteen minutes |
| CacheControl.SecondsTtlExact | internal/mcpoauth/metadata_resolver.go:229-237 | for a positive count of seconds the result is the smaller of it and one hour exactly when the product fits 64 bits or wraps to at least one hour |
| CacheControl.MaxAgeHeader | internal/mcpoauth/metadata_resolver.go:214-237 | max-age=n gives min(n s, 1 h) for every n from 1 to 9223372036, from header text to result |
| CacheControl.MaxAgeWraps | internal/mcpoauth/metadata_resolver.go:233-237 | a header asking for centuries gives 0.29 s |
| CacheControl.DecimalRoundTrip | internal/mcpoauth/metadata_resolver.go:229 | reading the decimal text of a number gives the number back |
| ResolverTables.FetchContract | internal/mcpoauth/metadata_resolver.go:146-185 | a successful fetch returns a normalised record whose client id is the requested one, with a lifetime of at most one hour |
| ResolverTables.FetchExactly | internal/mcpoauth/metadata_resolver.go:146-185 | a fetch succeeds exactly for a readable JSON response of status 200 and at most 5120 bytes whose document has no reserved field, repeats the id and has a normal form; it gives that form and the lifetime of the header, and in every other case the one failure |
| ResolverTables.OldestSeenIsLeast | internal/mcpoauth/metadata_resolver.go:129-140 | without an empty key the scan ends on a least entry, whatever the order |
| ResolverTables.OldestSeenIsEmpty | internal/mcpoauth/metadata_resolver.go:129-140 | the scan ends on the sentinel exactly when nothing was visited, or the empty key came last and is strictly oldest |
| ResolverTables.EvictHostsExactly | internal/mcpoauth/metadata_resolver.go:125-144 | below the bound nothing goes; at it exactly the stale entries go; if none is stale one oldest entry goes; there is room afterwards |
| ResolverTables.HostEvictionMakesRoom | internal/mcpoauth/metadata_resolver.go:125-144 | eviction makes room in every order of the visit exactly when the table is not full, has a stale entry, lacks the empty key, or has a key at least as old as it |
| ResolverTables.EvictCacheExactly | internal/mcpoauth/metadata_resolver.go:199-212 | a full cache loses exactly one entry of least expiry, any other cache nothing |
| ResolverTables.RegisterKeepsBound | internal/mcpoauth/metadata_resolver.go:97-100 | registering a call under a non-empty host keeps the host table within 2048 entries |
| ResolverTables.UnregisterKeepsBound | internal/mcpoauth/metadata_resolver.go:111-118 | completing a call keeps the cache within 1024 entries and adds no key but its own |
| ResolverTables.UnregisterExactly | internal/mcpoauth/metadata_resolver.go:111-118 | a completed call caches exactly its record until now plus its lifetime where that is positive, a full cache giving up one entry of least expiry, and leaves the cache alone otherwise; its id alone leaves the open calls |
| ResolverTables.EnterExactly | internal/mcpoauth/metadata_resolver.go:79-101 | a live entry answers, else an open call is followed, else a host fetched within a second is refused, else the caller leads: its id is open under its call, its host is fetched now, and a full host table loses the stale hosts or one of the oldest |
| ResolverTables.EvictedExactly | internal/mcpoauth/metadata_resolver.go:125-144 | a registration drops a host exactly when the table is full and the host is stale, or all entries are fresh and the scan picks it |
| ResolverTables.SomeOrderPicks | internal/mcpoauth/metadata_resolver.go:129-143 | over all orders of the visit the scan picks exactly the entries of least time |
| ResolverTables.EvictionForgetsSpacing | internal/mcpoauth/metadata_resolver.go:93-100 | another host's registration turns a refusal into a lead exactly when the refused reading is within a second of the last fetch and the registration drops the host: the table is full, and the host is stale for the registering reading, or every entry is fresh and the scan picks it |
| ResolverTables.MetadataTables.constructor | internal/mcpoauth/metadata_resolver.go:53-69 | the tables start empty |
| ResolverTables.MetadataTables.EvictHostRateEntryLocked | internal/mcpoauth/metadata_resolver.go:125-144 | the loop, deleting while it visits, leaves the table of the eviction function for the order it met the fresh entries in |
| ResolverTables.MetadataTables.EvictCacheEntryLocked | internal/mcpoauth/metadata_resolver.go:199-212 | the loop removes what the eviction function removes for some order of the entries |
| ResolverTables.MetadataTables.Enter | internal/mcpoauth/metadata_resolver.go:79-101 | the first critical section takes the decision on the old tables, only a leader changes them, and both are as EnterExactly says |
| ResolverTables.MetadataTables.Complete | internal/mcpoauth/metadata_resolver.go:111-120 | the second critical section removes the open call and caches a success of positive lifetime |
| ResolverProtocol.CallsAgreeStep | internal/mcpoauth/metadata_resolver.go:79-122 | every step keeps open calls, leaders and in-flight entries in one-to-one correspondence |
| ResolverSafety.SlotsMatchStep | internal/mcpoauth/metadata_resolver.go:103-109 | every step keeps the count of taken slots equal to the number of fetching calls, at most eight |
| ResolverSafety.InvariantReachable | internal/mcpoauth/metadata_resolver.go:71-123 | every interleaving of any number of calls keeps the whole invariant |
| ResolverSafety.SingleFlight | internal/mcpoauth/metadata_resolver.go:84-120 | an id is in flight exactly while one call leads for it, and never two |
| ResolverSafety.FollowersAgreeWithLeader | internal/mcpoauth/metadata_resolver.go:84-121 | whoever waits for a call to its end returns what that call's leader returned, a cancellation of the leader included; only a follower whose own context ends leaves earlier |
| ResolverSafety.AnswersAreFetched | internal/mcpoauth/metadata_resolver.go:80-122 | every success is the normalised result of a fetch of that id; a cache hit lies before its expiry, which lies more than nothing and at most one hour after insertion |
| ResolverSafety.TablesStayBounded | internal/mcpoauth/metadata_resolver.go:97-118 | after every step at most 1024 cached entries, 2048 hosts if no host name is empty, and eight fetches |
| ResolverSafety.FetchesOfOneHostSpaced | internal/mcpoauth/metadata_resolver.go:76-101 | recorded fetch times of one host grow by at least a second unless in between the host was evicted, by a registration that met 2048 fresh entries or whose reading of the clock is later than the second fetch's |
| ResolverSafety.SpacedWithFewHosts | internal/mcpoauth/metadata_resolver.go:76-101 | in a run whose arrivals have fewer than 2048 host names they always grow by at least a second |
| ResolverSafety.EachCallClosedOnce | internal/mcpoauth/metadata_resolver.go:97-120 | a call is closed at most once, and what closed it is the completion of its leader, which returned through it |
| ResolverSafety.ClosingStep | internal/mcpoauth/metadata_resolver.go:111-120 | a step closes a call exactly when it completes the process that leads it |
| ResolverOutcomes.StepsDo | internal/mcpoauth/metadata_resolver.go:71-123 | in every reachable state each step does to tables, calls, processes and record what the text of Resolve says it does |
| ResolverOutcomes.FetchedIsReturnedAndCached | internal/mcpoauth/metadata_resolver.go:103-122 | from the end of a fetch to the completion of its call, whatever happens in between, the caller is answered with what the response is worth and the cache holds it for its lifetime |
| ResolverOutcomes.UncacheableIsNotCached | internal/mcpoauth/metadata_resolver.go:113-118 | after a response with no-store, no-cache or a max-age that is no positive number the cache is as it was |
| ResolverOutcomes.LiveEntryAnswers | internal/mcpoauth/metadata_resolver.go:79-83 | a call that reads the clock before the expiry of a present entry returns its record at once, and no table changes |
| ResolverOutcomes.CompletedCallAnswersLater | internal/mcpoauth/metadata_resolver.go:79-118 | a record cached by one call answers every later call for the client until it expires, while no call for the client completes and none completes on a full cache |
| ResolverProgress.UnfinishedCanMove | internal/mcpoauth/metadata_resolver.go:84-122 | for every unfinished call there is an enabled step that is no cancellation |
| ResolverProgress.NoDeadlock | internal/mcpoauth/metadata_resolver.go:84-122 | no reachable state with an unfinished call is stuck |
| ResolverProgress.MeasureFalls | internal/mcpoauth/metadata_resolver.go:84-122 | every step but an arrival or a tick of the clock lowers the measure |
| ResolverProgress.CallsFinish | internal/mcpoauth/metadata_resolver.go:84-122 | without arrivals a run has at most as many moves as its measure, and where it can go no further every call has returned |
| ResolverWitnesses.CancellationIsRelayed | internal/mcpoauth/metadata_resolver.go:84-120 | for every client id a run in which a follower that was not cancelled returns its leader's cancellation |
| ResolverWitnesses.HostTableOverflowsExactly | internal/mcpoauth/metadata_resolver.go:71-144 | some run takes the host table past 2048 entries exactly when the valid client ids have the empty host name and 2048 others |
| ResolverWitnesses.OverflowRun | internal/mcpoauth/metadata_resolver.go:71-144 | from 2049 such ids a run from the initial state with 2049 entries |
| ResolverWitnesses.RushedRun | internal/mcpoauth/metadata_resolver.go:76-101 | from ids of 2048 hosts a run that records two fetches of one host within a second, readings and locks being out of order |
| ResolverWitnesses.CrowdedOutRun | internal/mcpoauth/metadata_resolver.go:76-101 | from ids of 2049 hosts such a run with all readings in order |
| ResolverWitnesses.SpacingFailsExactly | internal/mcpoauth/metadata_resolver.go:76-144 | some run records two fetches of one host within a second exactly when the valid client ids have at least 2048 hosts |
| ResolverWitnesses.PortLibraryFails | internal/mcpoauth/client_metadata.go:336-372 | a lawful URL parser, with ids such as https://:443/x and https://7:443/x, for which both bounds fail |
| HydraClients.DesiredIsFacadeRecord | internal/mcpoauth/hydra_clients.go:84-101 | the desired record is managed, equal to itself, asks for consent and has the resource as its only audience |
| HydraClients.DesiredExactly | internal/mcpoauth/hydra_clients.go:84-101 | a record is the desired one exactly when it holds the id, name, redirects, grants, method, algorithm and key set of the document, and the response type, scope, audience, consent and marker of the facade |
| HydraClients.ManagedExactly | internal/mcpoauth/hydra_clients.go:220-236 | a record is managed exactly when its metadata is the marker with its own id, null standing for an empty one, and the id is a URL |
| HydraClients.EqualToDesired | internal/mcpoauth/hydra_clients.go:220-252 | the comparison with a desired record is equality of records |
| HydraClients.GuaranteeImpliesRely | internal/mcpoauth/hydra_clients.go:107-139 | what one replica does to the store is what another may rely on |
| HydraClients.CreateGuarantee | internal/mcpoauth/hydra_clients.go:171-184 | a POST of a facade record adds it under a free id or changes nothing |
| HydraClients.PutGuarantee | internal/mcpoauth/hydra_clients.go:186-196 | a PUT of a facade record leaves all unmanaged records alone exactly when it meets a managed record or none |
| HydraClients.AdminApi.constructor | internal/mcpoauth/hydra_clients.go:57-73 | a fresh client of the store has sent nothing |
| HydraClients.AdminApi.Get | internal/mcpoauth/hydra_clients.go:143-169 | one lookup, answered from the store of one moment or failed, and no write |
| HydraClients.AdminApi.Create | internal/mcpoauth/hydra_clients.go:171-184 | one POST; a clear answer tells what became of the store, an error leaves both outcomes open |
| HydraClients.AdminApi.Put | internal/mcpoauth/hydra_clients.go:186-196 | one PUT, aimed at an id that is managed when it takes effect |
| HydraClients.AdminApi.Reconcile | internal/mcpoauth/hydra_clients.go:111-118 | an unmanaged record is refused without a request, an equal one accepted without a request, another overwritten once |
| HydraClients.AdminApi.CreateOrReread | internal/mcpoauth/hydra_clients.go:120-138 | without a record one POST, and on a conflict one more GET and at most one PUT; success only if some moment of it showed the desired record |
| HydraClients.AdminApi.Synchronize | internal/mcpoauth/hydra_clients.go:103-139 | success only if some moment of the call showed the desired record; if the first lookup shows it, one GET and no write |
| HydraClients.AdminApi.EnsureCimdClient | internal/mcpoauth/hydra_clients.go:75-139 | success means that some moment of the call showed the record of the document, field by field; a document that is not admitted sends nothing; and a call that nobody disturbs succeeds unless it meets an unmanaged record, its record then being stored and nothing else changed |
| HydraProtocol.SoundReachable | internal/mcpoauth/hydra_clients.go:103-139 | in every run, over any store and whatever outsiders do, a caller that waits for a write has sent it, each write carries the facade record its caller wants, and no lock of a replica has two holders |
| HydraProtocol.OneHolderPerLock | internal/mcpoauth/hydra_clients.go:103-105 | in every run two calls of one replica at work under the same lock are one call |
| HydraProtocol.InvariantReachable | internal/mcpoauth/hydra_clients.go:107-139 | when outsiders leave managed records managed, every run also keeps pending PUTs aimed at managed ids |
| HydraProtocol.UnmanagedRecordSurvives | internal/mcpoauth/hydra_clients.go:107-139 | over any run an unmanaged record that outsiders leave alone, whatever they do to others, is left alone and no PUT at its id is ever sent |
| HydraProtocol.FacadeStepsLeaveFacadeRecords | internal/mcpoauth/hydra_clients.go:88-138 | in every run, whatever outsiders do, a step of the facade removes nothing and what it adds or changes is a facade record |
| HydraProtocol.FacadeWritesOnlyFacadeRecords | internal/mcpoauth/hydra_clients.go:88-138 | when outsiders leave managed records managed, such a step also leaves unmanaged records alone, and every pending PUT aims at a managed id |
| HydraProtocol.GuaranteeExactly | internal/mcpoauth/hydra_clients.go:88-138 | after any run, with outsiders that keep to nothing, a step of the facade leaves unmanaged records alone unless it is the delivery of a PUT that meets an unmanaged one |
| HydraProtocol.ReplacedRecordIsOverwritten | internal/mcpoauth/hydra_clients.go:107-118 | a run from the start in which one outsider replaces a managed record between lookup and PUT: the PUT overwrites it and the call returns nil |
| HydraProtocol.SuccessHasAnInstant | internal/mcpoauth/hydra_clients.go:107-138 | in every run, over any store and whatever outsiders do, a call that returns nil has an instant, while it holds its lock, at which the stored record equals the desired one |
| HydraProtocol.NilMeansRegistered | internal/mcpoauth/hydra_clients.go:75-139 | a call that returned nil began with an admitted document, and at some instant while it ran the store held the record of that document, field by field |
| HydraProtocol.AloneRegisters | internal/mcpoauth/hydra_clients.go:103-125 | a call that nobody disturbs, for a document whose id is free or managed, never fails, can always go on, and returns nil after at most five steps with the record of its document stored and all others as before |
| HydraProtocol.RepeatIsOneGet | internal/mcpoauth/hydra_clients.go:107-117 | while the store keeps showing the desired record, whatever happens to others, a call sends at most one GET and no write, and fails only by a lost GET |
| Facade.ForwardedIsSound | internal/mcpoauth/handler.go:144-224 | every forwarded query has one resource and one audience, both the resource URL, an S256 challenge and at most one verifier name |
| Facade.FirstLegAcceptedIffSound | internal/mcpoauth/handler.go:144-194 | first legs pass exactly when they have no verifier and no audience and are sound once the audience is added |
| Facade.SecondLegAcceptedIffSound | internal/mcpoauth/handler.go:144-194 | continuations pass exactly when they are sound as they are |
| Facade.ContinuationExactly | internal/mcpoauth/handler.go:226-244 | a query is a continuation exactly with one of the two verifiers, given once with 1 to 2048 characters, and a first leg exactly with neither |
| Facade.AuthorizeRefusals | internal/mcpoauth/handler.go:144-194 | which refusal a query meets: response type, scope and target are named in this order once verifier, client and redirect are right, and anything else is an invalid request |
| Facade.VerifierOnForwardedQueryAccepted | internal/mcpoauth/handler.go:144-244 | a forwarded first leg with one valid verifier added passes and is forwarded unchanged |
| Facade.LaterLegs | internal/mcpoauth/handler.go:144-244 | in a flow of any length after an accepted first query each later leg carries the same request, and is accepted and passed on unchanged exactly when it has one valid verifier, otherwise refused |
| Facade.ForwardedTokenForm | internal/mcpoauth/handler.go:246-281 | a forwarded token form differs from the received one in its audience only, has a valid code verifier where one is due, and would not pass again |
| Facade.TokenFormExactly | internal/mcpoauth/handler.go:246-281 | a form is forwarded exactly when the resource is given once, the audience not at all, a code comes with its verifier or a refresh token is given, and the scope is absent or the facade's |
| Facade.TokenRefusals | internal/mcpoauth/handler.go:252-277 | which refusal a form meets, as an exact condition for each of the four codes |
| Facade.Handler.BeginDynamic | internal/mcpoauth/handler.go:380-389 | a slot is taken exactly when fewer than 32 are |
| Facade.Handler.EndDynamic | internal/mcpoauth/handler.go:391-393 | one slot is given back |
| Facade.Handler.HandleAuthorize | internal/mcpoauth/handler.go:144-224 | nothing, a refusal, or an acquired and released slot; what is forwarded is sound; a URL-form client passes exactly when its metadata, redirect and synchronisation do and a slot was free |
| Facade.Handler.HandleToken | internal/mcpoauth/handler.go:246-281 | the form is rejected or forwarded with the audience added, and both targets are the resource URL |
| Facade.RegistrationIsPublic | internal/mcpoauth/handler.go:302-378 | every registration sent on is that of a public client for the resource alone, with consent, distinct valid redirects and no member of the caller's but name, redirects and grants |
| Facade.RegistrationExactly | internal/mcpoauth/handler.go:302-378 | a body is registered exactly when it has no reserved field, chooses no id but its own, and has a normal form; the record sent on is that form's name, redirects and grants with the fixed rest |
| Facade.RegistrationRefusals | internal/mcpoauth/handler.go:302-360 | the redirect error is given exactly to new registrations whose redirects are the first thing wrong |
| Facade.Handler.HandleRegister | internal/mcpoauth/handler.go:296-326 | refused when 32 slots are taken, otherwise one slot acquired and released, and the registration sent on exactly when the body is acceptable |
| Facade.Handler.HandleRegistrationManagement | internal/mcpoauth/handler.go:328-365 | the same for reading, deleting and updating a registration, with the check of its id |
| Facade.SlotsBoundHandlers | internal/mcpoauth/handler.go:380-393 | in every interleaving of handlers that each follow one of their three paths, with a channel of 32 slots, the taken slots are those of the handlers inside, at most 32; who releases has a slot, and who is refused meets 32 inside |
| Sorting.SortStringsSorts | internal/oathkeeperrules/generator.go:266-271 | sorting gives a sorted permutation |
| Sorting.SortedUnique | internal/oathkeeperrules/generator.go:266-280 | there is one sorted arrangement of the same strings |
| RoleTables.AddMethod | internal/oathkeeperrules/generator.go:254-257 | one declaration more is tabulated, the inner map being made on demand |
| RoleTables.CollectService | internal/oathkeeperrules/generator.go:224-259 | a service is taken up whole, or the collection fails at a bad access option |
| RoleTables.CollectFile | internal/oathkeeperrules/generator.go:219-261 | a file of another package adds nothing, one of the manage package all its services |
| RoleTables.CollectRoles | internal/oathkeeperrules/generator.go:215-273 | collection fails exactly when a method in a file of api.manage.v1 lacks a user, author or admin role; otherwise each sorted entry lists a method as often as it stands in those files under that service and role |
| RoleTables.CountInFiles | internal/oathkeeperrules/generator.go:219-257 | a declaration is collected as often as it stands in a file of api.manage.v1, and from no other file |
| RoleTables.TabulatesExactly | internal/oathkeeperrules/generator.go:215-273 | tabulating what is declared is listing each method as often as the manage files hold it |
| RoleTables.SortEntries | internal/oathkeeperrules/generator.go:266-271 | each method list is replaced by its sorted form, whatever the order of the visit |
| RoleTables.TableUnique | internal/oathkeeperrules/generator.go:215-273 | the declarations, as a multiset, determine the table |
| RoleTables.VisitOrderIrrelevant | internal/oathkeeperrules/generator.go:219-273 | two visits of the same files both fail or give the same table |
| Regexes.QuoteMetaHomomorphism | internal/oathkeeperrules/generator.go:129-135 | quoting a concatenation is concatenating the quoted parts |
| Regexes.MatchChoice | internal/oathkeeperrules/generator.go:332-358 | a group of alternatives matches what one of them matches, and a single one needs no group |
| Regexes.SpellKeepsLanguage | internal/oathkeeperrules/generator.go:129-141 | an expression read character by character has the same language |
| Regexes.ParseShow | internal/oathkeeperrules/generator.go:129-141 | the text of an expression parses, and as a text matches what the expression matches |
| RulePatterns.ExpressionText | internal/oathkeeperrules/generator.go:129-141 | the text of a pattern is the quoted origin, or the group of the two quoted origins with their base, then the quoted path and the rest |
| RulePatterns.PatternLanguage | internal/oathkeeperrules/generator.go:129-141 | the text matches a URL exactly when the URL is one of the origins followed by an admitted path |
| RoleRules.ServiceNames | internal/oathkeeperrules/generator.go:276-280 | the sorted list of all services, whatever the order of the map |
| RoleRules.OneSortedListing | internal/oathkeeperrules/generator.go:276-280 | that list is unique |
| RoleRules.RpcPatternText | internal/oathkeeperrules/generator.go:286-290 | the written text is that of the expression, quoting and grouping included |
| RoleRules.WriteRoleUrl | internal/oathkeeperrules/generator.go:275-294 | the matcher written for a role is the text of the expression over the sorted services |
| RoleRules.MatchServices | internal/oathkeeperrules/generator.go:332-358 | the service alternatives match exactly Service/Method for the declared pairs |
| RoleRules.RoleLanguage | internal/oathkeeperrules/generator.go:275-290 | the text matches exactly the API origins followed by the path of a declared procedure |
| AccessRules.StaticRoute | internal/oathkeeperrules/generator.go:381-690 | a static rule matches only paths that single characters of the path and the verb assign to it |
| StaticRules.PathExactly | internal/oathkeeperrules/generator.go:381-800 | the expression of each fixed rule matches exactly the paths the rule is for |
| StaticRules.StaticRuleExactly | internal/oathkeeperrules/generator.go:381-800 | each fixed rule matches exactly its methods on its paths under its origins |
| AccessRules.OriginSplit | internal/oathkeeperrules/generator.go:111-127 | a URL has one origin and one path |
| AccessRules.TabulatedMethod | internal/oathkeeperrules/generator.go:254-271 | a role's table holds a procedure exactly when it is declared with that role |
| AccessRules.RolesDisjoint | internal/oathkeeperrules/generator.go:343-358 | no URL is matched by the rules of two roles |
| AccessRules.AtMostOneRule | internal/oathkeeperrules/generator.go:171-205 | no method and URL are matched by two rules of the file, static or of a role |
| AccessRules.RoleRuleExact | internal/oathkeeperrules/generator.go:275-305 | a role's rule matches POST to exactly the procedures declared with that role, on both API origins |
| AccessRules.RoleRuleOfFiles | internal/oathkeeperrules/generator.go:215-305 | a role's rule matches POST to exactly the methods that files of api.manage.v1 give that role, on both API origins |
| AccessRules.EveryProcedureIsRouted | internal/oathkeeperrules/generator.go:190-203 | POST to a declared procedure is matched by the rule of its role and by no other rule |
| AccessRules.TextsDoNotDependOnTheVisit | internal/oathkeeperrules/generator.go:215-294 | two visits of the same files in any order write the same matchers |
| Base64Url.DecodeEncode | internal/oathkeeperrules/generator.go:30 | decoding an encoding gives the bytes back |
| Base64Url.EncodeDecode | internal/oathkeeperrules/generator.go:30 | encoding what a text decodes to gives the text back |
| Base64Url.SextetsAreTheBits | internal/oathkeeperrules/generator.go:30 | the sextets read as one number are the bytes read as one number, with the bits added at the end |
| Base64Url.SymbolExactly | internal/oathkeeperrules/generator.go:30 | each sextet is written with the character at its place in the base64url table |
| Base64Url.PatternIsDecodable | internal/oathkeeperrules/generator.go:30 | the pattern matches exactly the texts that decode strictly |
| Base64Url.AcceptedIffEncoding | internal/oathkeeperrules/generator.go:30-37 | the length range and the pattern accept exactly the encodings of 1 to 2625 bytes |
| Base64Url.AcceptedIsCanonical | internal/oathkeeperrules/generator.go:30-37 | accepted texts are fixed by decoding and encoding, and are equal when their bytes are |
| ContextPattern.ContextText | internal/oathkeeperrules/generator.go:30 | the expression with its classes, counts and groups is written as the generator's pattern |
| ContextPattern.ContextLanguage | internal/oathkeeperrules/generator.go:30 | that expression matches exactly the texts of the pattern as Base64Url describes them |
| Substitution.ReplaceFills | internal/oathkeeperconfig/render.go:155 | in a clear template replacing a placeholder fills exactly its holes |
| Substitution.FoundIffHole | internal/oathkeeperconfig/render.go:152-154 | a placeholder is found at its turn exactly when the template has a hole for it |
| Substitution.OrderDoesNotMatter | internal/oathkeeperconfig/render.go:142-156 | replacing one after another, in any order, is replacing all at once, and fails exactly when a placeholder has no hole |
| Substitution.QuotedPlaceholder | config/oathkeeper/rules.yml:434-435 | a placeholder between quotes it does not contain is a well-formed template for every value |
| Renderer.Placeholders | internal/oathkeeperconfig/render.go:143-146 | the slice lists every placeholder once |
| Renderer.SortByLength | internal/oathkeeperconfig/render.go:147-149 | a permutation with decreasing lengths; ties are open |
| Renderer.FindLeftover | internal/oathkeeperconfig/render.go:157-178 | the first leftover in the order of the checks is reported |
| Renderer.LeftoverMeaning | internal/oathkeeperconfig/render.go:157-178 | the final checks pass exactly when no leftover occurs in the text |
| Renderer.PublishedIsFree | internal/oathkeeperconfig/render.go:150-178 | for any template the outcome of the replacements is published exactly when none of the eight stand-ins is left in it |
| Renderer.ReplaceAndCheck | internal/oathkeeperconfig/render.go:150-178 | the replacement loop and the final checks compute the sequential substitution with its errors |
| Renderer.RenderFile | internal/oathkeeperconfig/render.go:137-178 | for any template and map the result is that of the loops over some longest-first order of all the placeholders |
| Renderer.RenderedAtOnce | internal/oathkeeperconfig/render.go:142-178 | a well-formed template renders to the simultaneous substitution, exactly when nothing is missing and nothing is left over |
| AuthBoundary.AcceptedNames | internal/authboundary/names.go:79-117 | names are accepted exactly when all three are tokens and the two header names differ by more than case and are not reserved |
| AuthBoundary.NamesExactly | internal/authboundary/names.go:79-117 | the names come out as they went in, each in its place, exactly when all are tokens, the two headers differ by more than case, and neither is one of the twelve credential or framing headers |
| AuthBoundary.PlaceholderAccepted | internal/authboundary/names.go:79-117 | the placeholder of the authentication header is accepted as internal header name |
| Marks.KeyHoldsNoMark | internal/oathkeeperconfig/render.go:14-20 | no placeholder of the rule file holds another placeholder or leftover |
| Marks.SafeIsClean | internal/oathkeeperconfig/render.go:155 | where a piece ends with a quote, an angle bracket or ?: or the next starts with a quote, or with a slash and no s or slash, no placeholder runs over the seam |
| Marks.QuotedIsClear | internal/oathkeeperconfig/render.go:108 | quoting an origin without placeholders brings none up, the quoted one included |
| RuleFile.RuleUrlPattern | internal/oathkeeperrules/generator.go:381-387 | the URL parts of a file are the static rules with the site as API, authentication and collaboration origin |
| RuleFile.RoleUrlPattern | internal/oathkeeperrules/generator.go:286-290 | so are the role rules |
| RuleFile.FileShown | internal/oathkeeperrules/generator.go:171-205 | the generated file, its names put back, is a template whose filling is the file generated with those names |
| RuleFile.RenderingCommutesWithGeneration | internal/oathkeeperconfig/render.go:104-113 | for any list of parts with a well-formed layout, rendering is generating with the new names, in any order of replacement |
| RuleTemplate.CellPattern | internal/oathkeeperrules/generator.go:171-205 | each rule of the file has the matcher of its kind or role |
| RuleTemplate.CellsJoined | internal/oathkeeperrules/generator.go:171-205 | every seam of the file, whatever is put into its holes, ends or starts with a character at which no placeholder goes on |
| RuleTemplate.LaidIsWellFormed | internal/oathkeeperconfig/render.go:104-113 | with names free of placeholders the file is a well-formed template |
| RuleTemplate.RenderingTheRuleFile | internal/oathkeeperconfig/render.go:104-113 | rendering the file generated for the template gives the file generated for the deployment, in any order of replacement, exactly when the site and the header names hold no placeholder |
| RuleRouting.CellIsRule | internal/oathkeeperrules/generator.go:171-205 | the text between the angle brackets of a place in the file matches exactly what the rule of its kind or role matches |
| RuleRouting.CellsDiffer | internal/oathkeeperrules/generator.go:181-203 | no rule stands at two places of the file |
| RuleRouting.OnePlaceMatches | internal/oathkeeperrules/generator.go:171-205 | no method and URL are matched at two places of the file |
| RuleRouting.ProcedureHasOnePlace | internal/oathkeeperrules/generator.go:190-203 | POST to a declared procedure is matched at exactly one place of the file, the rule of its role |
| RuleRouting.FixedRequestHasOnePlace | internal/oathkeeperrules/generator.go:171-205 | a request that a fixed rule is for is matched at exactly one place of the file, that rule |
| RuleRouting.RenderedFileRoutesOnce | internal/oathkeeperconfig/render.go:104-113 | with names free of placeholders the rendered file is that file, so no request of the deployment meets two of its rules |
| RuleTemplate.OneLongestFirst | internal/oathkeeperconfig/render.go:147-149 | sorting the four placeholders by length leaves one order |
| RuleTemplate.HeaderNameIsSubstitutedTwice | internal/oathkeeperconfig/render.go:142-178 | in that order an internal name with the authentication header's placeholder is itself replaced; the result passes the final checks exactly when it holds no mark, and is the wanted file exactly when the placeholder was not there |
| RuleSample.PlaceholderAsInternalName | internal/oathkeeperconfig/render.go:104-113 | accepted names for which the renderer returns the file with the authentication header in both places |
| RuleSample.SampleFails | internal/oathkeeperconfig/render.go:104-113 | one deployment that meets all conditions and is given a wrong file |
| Relations.FixedPoint | config/spicedb/schema.generated.zed:14-63 | a name is derivable exactly when its line holds of what is derivable |
| Relations.LeastFixedPoint | config/spicedb/schema.generated.zed:14-63 | whatever a schema's lines are closed under includes all that is derivable |
| Relations.MoreTuplesMorePermissions | config/spicedb/schema.generated.zed:14-372 | under every schema of unions, intersections and arrows more tuples never take a permission away |
| Permissions.MemberIffRoleChain | config/spicedb/schema.generated.zed:6-16 | role membership is a direct tuple at the end of a chain of role links |
| Permissions.SubjectsExactly | config/spicedb/schema.generated.zed:14-63 | which relations each definition has and which subjects they are written with |
| Permissions.PlatformRolesExactly | config/spicedb/schema.generated.zed:18-25 | in tuples: administrators are the members, through role chains, of a role tied to the platform as admin; authors of one tied as author or admin; users of any of the three |
| Permissions.OwnerManageExact | config/spicedb/schema.generated.zed:53-62 | delete, publish and sharing of an artist or label: exactly its owners and the members of an admin role of its platform |
| Permissions.ManageIffSomeAncestorGrants | config/spicedb/schema.generated.zed:48-81 | manage, edit and view of an artist or label: exactly when it or an ancestor grants administrator, owner or manager, over any parent graph |
| Permissions.NotInheritedThroughParents | config/spicedb/schema.generated.zed:53-62 | parent tuples change nothing about delete, publish and sharing |
| Permissions.AdminIsAuthor | config/spicedb/schema.generated.zed:18-25 | an administrator of a platform is an author and a user of it |
| Permissions.AdminHoldsEverything | config/spicedb/schema.generated.zed:28-372 | an administrator of the platform holds every permission of every resource with that policy but collaborator_edit of posts |
| Permissions.CollaboratorEditExact | config/spicedb/schema.generated.zed:35 | collaborator_edit: exactly the named collaborators |
| Permissions.AdminNeedNotCollaborate | config/spicedb/schema.generated.zed:32-35 | an administrator without collaborator_edit exists |
| Permissions.PostManageExact | config/spicedb/schema.generated.zed:28-45 | managing a post: exactly the members of an admin role of its platform, and its author while in an author or admin role of it |
| Permissions.PermissionsExactly | config/spicedb/schema.generated.zed:14-372 | every permission of every definition, in tuples: held exactly by the administrators, authors, owners, managers and collaborators that its line names, and a name the definition lacks is held by nobody |

## Left out

- RuleTemplate.RenderingTheRuleFile: the texts between rules, site and header names are arbitrary ones without a placeholder; the YAML they spell is not modelled.
- AccessRules.StaticRoute: the matchers of the static rules are given as expressions; that their text is letter for letter the text of the rule file is proved for the role rules (RoleRules.RpcPatternText) only.
- AccessRules.AtMostOneRule: authenticators, authorizers, mutators and upstreams of a rule are not modelled, only what it matches.
- Renderer.RenderedAtOnce: sufficient conditions for any template; exact ones are proved for the rule file only (RuleTemplate.RenderingTheRuleFile).
- ResolverSafety.TablesStayBounded: the host bound is for libraries whose client ids have non-empty host names; ResolverWitnesses.HostTableOverflowsExactly says what happens otherwise.
- ResolverProgress.CallsFinish: a fetch is taken to end; timeouts of the HTTP client are not modelled.
- HydraProtocol.FacadeWritesOnlyFacadeRecords: for outsiders that do not unmark or delete managed records; for others HydraProtocol.GuaranteeExactly says which step fails.
- Facade.Handler.HandleAuthorize: one request at a time; interleavings of the slot channel are in Facade.SlotsBoundHandlers.
- Facade.Handler.HandleRegister: reading and decoding the body is a parameter, and encoding the registration, which cannot fail for strings, lists and flags, has no error branch.
- HTTP transport, proxying, header copying, server start and shutdown.
- DNS resolution, dialling and the public-address test of the outbound network policy.
- The rewriting of registration responses, and revocation.
- The other rendered file, oathkeeper.yml, and the checks of the URLs put into it.
- Files, temporary files and the rename in the renderer, and YAML quoting.
- Invalid UTF-8 in client names and lower-casing beyond ASCII.
- Kratos and Oathkeeper configuration, hooks, mappers and deployment files.
- SpiceDB's recursion limit and consistency tokens, and the TypeScript catalogue the schema is generated from.
- Cryptography, token issuing, and the authorization server's own login and consent.
