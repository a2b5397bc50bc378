// The whole generated rule file: no request matches two rules, and every
// declared procedure is reachable through the rule of its role.

module AccessRules {
  import opened Prelude
  import opened Text
  import opened Regexes
  import opened RulePatterns
  import opened Sorting
  import opened RoleTables
  import opened RoleRules

  datatype Verb = GET | HEAD | POST | PUT | PATCH | DELETE | OPTIONS

  datatype Kind =
    | ApiHealth | SesCallback | Collab | CollabAdmin | RpcPreflight | UploadPreflight | BlockInternal
    | AuthPreflight | AuthLogin | AuthLoginFlows | AuthSelfServiceRead | AuthSelfServiceSubmit
    | AuthSessions | AuthSchemas | AuthHealth | AuthWebauthn
    | McpPreflight | Mcp | OpenApi | UploadSource | UploadEndpoint

  datatype RuleId = Static(kind: Kind) | Manage(role: Role)

  // ---------------------------------------------------------------- the fixed rules

  const DOCUMENTS := ["post", "work", "release", "label", "artist", "form"]
  const ADMIN_DOCUMENTS := ["page", "menu", "campaign", "email-template", "email-layout", "terms-history",
                            "privacy-history", "map-theme", "program-event"]

  function Verbs(kind: Kind): set<Verb> {
    match kind
    case SesCallback | AuthSelfServiceSubmit | OpenApi => {POST}
    case RpcPreflight | UploadPreflight | AuthPreflight | McpPreflight => {OPTIONS}
    case BlockInternal => {GET, HEAD, POST, PUT, PATCH, DELETE, OPTIONS}
    case AuthLogin | Mcp => {GET, POST}
    case AuthSessions => {GET, DELETE}
    case UploadEndpoint => {POST, PUT}
    case _ => {GET}
  }

  const ANYTHING := Then(AnyStar, End)
  const SEGMENT := One(Then(SegmentPlus, End))

  function OneOf(words: seq<string>): Alts
    requires words != []
  {
    AltsOf(Words(words))
  }

  // /(?P<type>...)/(?P<id>[^/]+)/(?P<locale>[^/]+)
  function DocumentTail(types: seq<string>): Branch
    requires types != []
  {
    Then(Named("type", OneOf(types)),
         Then(Chr('/'), Then(Named("id", SEGMENT), Then(Chr('/'), Then(Named("locale", SEGMENT), End)))))
  }

  function Suffixed(words: seq<string>, suffix: Atom): Branch
    requires words != []
  {
    Then(Group(OneOf(words)), Then(suffix, End))
  }

  // logout(?:/browser)?, errors and methods/oidc/callback/[^/]+
  function OtherFlows(): Alts {
    Or(Word("logout", Then(Optional(OneOf(["/browser"])), End)),
       Or(Word("errors", End), One(Word("methods/oidc/callback/", Then(SegmentPlus, End)))))
  }

  const FLOWS := ["verification", "settings"]

  function SelfServiceReads(): Alts {
    Or(Then(Group(OneOf(FLOWS)), Then(Chr('/'), Then(Group(OneOf(["browser", "flows"])), End))), OtherFlows())
  }

  function SelfServiceAll(): Alts {
    Or(Suffixed(FLOWS, Optional(One(Then(Chr('/'), Then(Group(OneOf(["browser", "flows"])), End))))), OtherFlows())
  }

  function AuthRoutes(): Alts {
    Or(Word("/login", Then(Optional(OneOf(["/flows"])), End)),
       Or(Word("/self-service/", Then(Group(SelfServiceAll()), End)),
          Or(Word("/sessions/", ANYTHING),
             Or(Word("/schemas/", ANYTHING),
                Or(Word("/health/", ANYTHING),
                   One(Word("/.well-known/ory/webauthn.js", End)))))))
  }

  // The rules on the authentication origin.
  predicate IsAuth(kind: Kind) {
    || kind.AuthPreflight? || kind.AuthLogin? || kind.AuthLoginFlows? || kind.AuthSelfServiceRead?
    || kind.AuthSelfServiceSubmit? || kind.AuthSessions? || kind.AuthSchemas? || kind.AuthHealth? || kind.AuthWebauthn?
  }

  function SourceOf(routes: Routes, kind: Kind): Source {
    match kind
    case BlockInternal | OpenApi => Either(TrimSpace(routes.api), TrimSpace(routes.apiInternal), "/api/rpc")
    case Collab | CollabAdmin => Exact(TrimSpace(routes.collab))
    case _ => Exact(TrimSpace(if IsAuth(kind) then routes.auth else routes.api))
  }

  function PrefixOf(kind: Kind): string {
    match kind
    case ApiHealth => "/health"
    case SesCallback => "/callbacks/ses"
    case Collab | CollabAdmin => "/collab/"
    case RpcPreflight => "/api/rpc/api."
    case UploadPreflight | UploadEndpoint => "/api/upload/"
    case UploadSource => "/api/upload/source"
    case BlockInternal => "/api.intra.v1."
    case OpenApi => "/api.open.v1."
    case AuthPreflight => "/api/auth"
    case AuthLogin => "/api/auth/login"
    case AuthLoginFlows => "/api/auth/login/flows"
    case AuthSelfServiceRead | AuthSelfServiceSubmit => "/api/auth/self-service/"
    case AuthSessions => "/api/auth/sessions/"
    case AuthSchemas => "/api/auth/schemas/"
    case AuthHealth => "/api/auth/health/"
    case AuthWebauthn => "/api/auth/.well-known/ory/webauthn.js"
    case McpPreflight | Mcp => "/mcp"
  }

  function TailOf(kind: Kind): Branch {
    match kind
    case Collab => DocumentTail(DOCUMENTS)
    case CollabAdmin => DocumentTail(ADMIN_DOCUMENTS)
    case RpcPreflight => Then(Group(OneOf(["open", "manage"])), Word(".v1.", ANYTHING))
    case AuthPreflight => Then(Group(AuthRoutes()), End)
    case AuthSelfServiceRead => Then(Group(SelfServiceReads()), End)
    case AuthSelfServiceSubmit => Then(Group(OneOf(FLOWS)), End)
    case UploadPreflight | UploadEndpoint | BlockInternal | OpenApi | AuthSessions | AuthSchemas | AuthHealth => ANYTHING
    case ApiHealth | SesCallback | UploadSource | AuthLogin | AuthLoginFlows | AuthWebauthn | McpPreflight | Mcp => End
  }

  function StaticPattern(routes: Routes, kind: Kind): Pattern {
    Pattern(SourceOf(routes, kind), PrefixOf(kind), TailOf(kind))
  }

  // ---------------------------------------------------------------- which rule a path belongs to

  // A decision on single characters of the path, with None for the manage
  // procedures and for paths no rule matches.
  function RouteOf(verb: Verb, p: string): Option<Kind> {
    if |p| < 4 then None
    else match p[1]
      case 'h' => Some(ApiHealth)
      case 'm' => Some(if verb == OPTIONS then McpPreflight else Mcp)
      case 'c' =>
        if |p| < 10 then None
        else if p[2] == 'a' then Some(SesCallback)
        else if p[8] in {'m', 'c', 'e', 't'} || (p[8] == 'p' && p[9] != 'o') then Some(CollabAdmin)
        else Some(Collab)
      case 'a' =>
        if |p| < 6 then None
        else if p[5] == 'u' then
          Some(if verb == OPTIONS then UploadPreflight else if verb == GET then UploadSource else UploadEndpoint)
        else if p[5] == 'a' then RouteOfAuth(verb, p)
        else RouteOfRpc(verb, p)
      case _ => None
  }

  function RouteOfAuth(verb: Verb, p: string): Option<Kind> {
    if verb == OPTIONS then Some(AuthPreflight)
    else if |p| < 13 then None
    else match p[10]
      case 'l' => Some(if |p| == 15 then AuthLogin else AuthLoginFlows)
      case 's' =>
        if p[11] == 'c' then Some(AuthSchemas)
        else if p[12] == 's' then Some(AuthSessions)
        else Some(if verb == POST then AuthSelfServiceSubmit else AuthSelfServiceRead)
      case 'h' => Some(AuthHealth)
      case '.' => Some(AuthWebauthn)
      case _ => None
  }

  function RouteOfRpc(verb: Verb, p: string): Option<Kind> {
    if |p| < 14 then None
    else if p[13] == 'i' then Some(BlockInternal)
    else if verb == OPTIONS then Some(RpcPreflight)
    else if p[13] == 'o' then Some(OpenApi)
    else None
  }

  // What follows the fixed part begins with one of the words.
  lemma BeginsWithWord(head: Atom, words: seq<string>, tail: Branch, s: string) returns (word: string)
    requires words != [] && MatchBranch(Then(head, tail), s)
    requires head.Group? || head.Named?
    requires head.alts == OneOf(words)
    ensures word in words && word <= s
  {
    var i :| 0 <= i <= |s| && MatchAtom(head, s[..i]) && MatchBranch(tail, s[i..]);
    MatchWords(words, s[..i]);
    word := s[..i];
  }

  // The first two letters tell the document types of the two rules apart.
  predicate Telling(kind: Kind, word: string) {
    && |word| >= 2
    && (kind == CollabAdmin <==> word[0] in {'m', 'c', 'e', 't'} || (word[0] == 'p' && word[1] != 'o'))
  }

  lemma RouteOfDocument(types: seq<string>, kind: Kind, verb: Verb, p: string)
    requires kind == Collab || kind == CollabAdmin
    requires types != [] && forall word :: word in types ==> Telling(kind, word)
    requires "/collab/" <= p && MatchBranch(DocumentTail(types), p[8..])
    ensures p[0] == '/' && RouteOf(verb, p) == Some(kind)
  {
    var tail := Then(Chr('/'), Then(Named("id", SEGMENT), Then(Chr('/'), Then(Named("locale", SEGMENT), End))));
    var word := BeginsWithWord(Named("type", OneOf(types)), types, tail, p[8..]);
    assert Telling(kind, word);
    assert p[8] == word[0] && p[9] == word[1];
  }

  lemma DocumentsTell()
    ensures forall word :: word in DOCUMENTS ==> Telling(Collab, word)
    ensures forall word :: word in ADMIN_DOCUMENTS ==> Telling(CollabAdmin, word)
  {
    forall i | 0 <= i < 6 ensures Telling(Collab, DOCUMENTS[i]) {}
    forall i | 0 <= i < 9 ensures Telling(CollabAdmin, ADMIN_DOCUMENTS[i]) {}
  }

  lemma RouteOfPreflight(words: seq<string>, tail: Branch, p: string)
    requires words != [] && forall word :: word in words ==> word != "" && word[0] != 'i'
    requires "/api/rpc/api." <= p && MatchBranch(Then(Group(OneOf(words)), tail), p[13..])
    ensures p[0] == '/' && RouteOf(OPTIONS, p) == Some(RpcPreflight)
  {
    var word := BeginsWithWord(Group(OneOf(words)), words, tail, p[13..]);
    assert p[13] == word[0];
  }

  function FixedPart(kind: Kind): string {
    match kind
    case BlockInternal | OpenApi => "/api/rpc" + PrefixOf(kind)
    case _ => PrefixOf(kind)
  }

  lemma FixedPartStarts(pattern: Pattern, fixed: string, p: string)
    requires OnPath(pattern, p) && Base(pattern.source) + pattern.prefix == fixed
    ensures fixed <= p && MatchBranch(pattern.tail, p[|fixed|..])
    ensures pattern.tail.End? ==> p == fixed
  {
    if pattern.tail.End? {
      assert p[|fixed|..] == "";
      assert p == fixed + p[|fixed|..];
    }
  }

  lemma AuthRoute(kind: Kind, verb: Verb, p: string)
    requires IsAuth(kind)
    requires verb in Verbs(kind) && FixedPart(kind) <= p && (kind == AuthLogin ==> p == FixedPart(kind))
    ensures p[0] == '/' && RouteOf(verb, p) == Some(kind)
  {
    AuthStart(kind, p);
    if verb != OPTIONS {
      AuthFlowRoute(kind, verb, p);
    }
  }

  lemma AuthStart(kind: Kind, p: string)
    requires IsAuth(kind) && FixedPart(kind) <= p
    ensures |p| > 5 && p[0] == '/' && p[1] == 'a' && p[5] == 'a'
  {
    assert p[0] == FixedPart(kind)[0] == '/' && p[1] == FixedPart(kind)[1] == 'a' && p[5] == FixedPart(kind)[5] == 'a';
  }

  lemma AuthFlowRoute(kind: Kind, verb: Verb, p: string)
    requires IsAuth(kind) && kind != AuthPreflight && verb in Verbs(kind) && verb != OPTIONS
    requires FixedPart(kind) <= p && (kind == AuthLogin ==> p == FixedPart(kind))
    ensures |p| > 5 && RouteOfAuth(verb, p) == Some(kind)
  {
    assert p[10] == FixedPart(kind)[10];
    assert p[11] == FixedPart(kind)[11];
    assert p[12] == FixedPart(kind)[12];
  }

  lemma OtherRoute(kind: Kind, verb: Verb, p: string)
    requires !IsAuth(kind) && kind !in {Collab, CollabAdmin, RpcPreflight}
    requires verb in Verbs(kind) && FixedPart(kind) <= p
    ensures p[0] == '/' && RouteOf(verb, p) == Some(kind)
  {
    assert p[1] == FixedPart(kind)[1] && p[2] == FixedPart(kind)[2];
    if p[1] == 'a' {
      assert p[5] == FixedPart(kind)[5];
    }
  }

  lemma StaticRouteByFixedPart(kind: Kind, verb: Verb, p: string)
    requires kind !in {Collab, CollabAdmin, RpcPreflight}
    requires verb in Verbs(kind) && FixedPart(kind) <= p && (kind == AuthLogin ==> p == FixedPart(kind))
    ensures p != "" && p[0] == '/' && RouteOf(verb, p) == Some(kind)
  {
    if IsAuth(kind) {
      AuthRoute(kind, verb, p);
    } else {
      OtherRoute(kind, verb, p);
    }
  }

  lemma CollabRoute(routes: Routes, verb: Verb, p: string)
    requires OnPath(StaticPattern(routes, Collab), p)
    ensures p != "" && p[0] == '/' && RouteOf(verb, p) == Some(Collab)
  {
    FixedPartStarts(StaticPattern(routes, Collab), "/collab/", p);
    DocumentsTell();
    RouteOfDocument(DOCUMENTS, Collab, verb, p);
  }

  lemma CollabAdminRoute(routes: Routes, verb: Verb, p: string)
    requires OnPath(StaticPattern(routes, CollabAdmin), p)
    ensures p != "" && p[0] == '/' && RouteOf(verb, p) == Some(CollabAdmin)
  {
    FixedPartStarts(StaticPattern(routes, CollabAdmin), "/collab/", p);
    DocumentsTell();
    RouteOfDocument(ADMIN_DOCUMENTS, CollabAdmin, verb, p);
  }

  lemma PreflightRoute(routes: Routes, p: string)
    requires OnPath(StaticPattern(routes, RpcPreflight), p)
    ensures p != "" && p[0] == '/' && RouteOf(OPTIONS, p) == Some(RpcPreflight)
  {
    FixedPartStarts(StaticPattern(routes, RpcPreflight), "/api/rpc/api.", p);
    RouteOfPreflight(["open", "manage"], Word(".v1.", ANYTHING), p);
  }

  lemma FixedRoute(pattern: Pattern, kind: Kind, verb: Verb, p: string)
    requires kind !in {Collab, CollabAdmin, RpcPreflight} && verb in Verbs(kind)
    requires pattern.prefix == PrefixOf(kind)
    requires Base(pattern.source) == if kind == BlockInternal || kind == OpenApi then "/api/rpc" else ""
    requires kind == AuthLogin ==> pattern.tail.End?
    requires OnPath(pattern, p)
    ensures p != "" && p[0] == '/' && RouteOf(verb, p) == Some(kind)
  {
    FixedPartStarts(pattern, FixedPart(kind), p);
    StaticRouteByFixedPart(kind, verb, p);
  }

  // A static rule matches only the paths routed to it.
  lemma StaticRoute(routes: Routes, kind: Kind, verb: Verb, p: string)
    requires verb in Verbs(kind) && OnPath(StaticPattern(routes, kind), p)
    ensures p != "" && p[0] == '/' && RouteOf(verb, p) == Some(kind)
  {
    if kind == Collab {
      CollabRoute(routes, verb, p);
    } else if kind == CollabAdmin {
      CollabAdminRoute(routes, verb, p);
    } else if kind == RpcPreflight {
      PreflightRoute(routes, p);
    } else {
      FixedRoute(StaticPattern(routes, kind), kind, verb, p);
    }
  }

  lemma GroupOk(words: seq<string>, tail: Branch)
    requires words != [] && BranchOk(tail)
    ensures BranchOk(Then(Group(OneOf(words)), tail))
    ensures BranchOk(Then(Optional(OneOf(words)), tail))
    ensures BranchOk(Then(Named("type", OneOf(words)), tail))
  {
    WordsOk(words);
  }

  lemma DocumentTailOk(types: seq<string>)
    requires types != []
    ensures BranchOk(DocumentTail(types))
  {
    assert AltsOk(SEGMENT) by { assert BranchOk(Then(SegmentPlus, End)); }
    var locale := Then(Named("locale", SEGMENT), End);
    var id := Then(Named("id", SEGMENT), Then(Chr('/'), locale));
    assert BranchOk(locale);
    assert BranchOk(Then(Chr('/'), locale));
    assert BranchOk(id);
    GroupOk(types, Then(Chr('/'), id));
  }

  lemma AnythingOk(prefix: string)
    ensures BranchOk(ANYTHING) && BranchOk(Word(prefix, ANYTHING))
  {
    assert BranchOk(End);
  }

  lemma OtherFlowsOk()
    ensures AltsOk(OtherFlows())
  {
    GroupOk(["/browser"], End);
    var logout := Then(Optional(OneOf(["/browser"])), End);
    assert BranchOk(Word("logout", logout));
    var callback := Then(SegmentPlus, End);
    assert BranchOk(callback);
    assert BranchOk(Word("methods/oidc/callback/", callback));
    assert AltsOk(One(Word("methods/oidc/callback/", callback)));
    assert BranchOk(Word("errors", End));
  }

  lemma SelfServiceOk()
    ensures AltsOk(SelfServiceReads()) && AltsOk(SelfServiceAll())
  {
    OtherFlowsOk();
    GroupOk(["browser", "flows"], End);
    var more := Then(Chr('/'), Then(Group(OneOf(["browser", "flows"])), End));
    assert BranchOk(more) && AltsOk(One(more));
    GroupOk(FLOWS, more);
    assert BranchOk(Then(Optional(One(more)), End));
    GroupOk(FLOWS, Then(Optional(One(more)), End));
  }

  lemma AuthRoutesOk()
    ensures AltsOk(AuthRoutes())
  {
    SelfServiceOk();
    GroupOk(["/flows"], End);
    var login := Word("/login", Then(Optional(OneOf(["/flows"])), End));
    var selfService := Word("/self-service/", Then(Group(SelfServiceAll()), End));
    assert BranchOk(login);
    assert BranchOk(Then(Group(SelfServiceAll()), End));
    assert BranchOk(selfService);
    AnythingOk("/sessions/");
    AnythingOk("/schemas/");
    AnythingOk("/health/");
    var last := One(Word("/.well-known/ory/webauthn.js", End));
    assert BranchOk(last.branch) && AltsOk(last);
    AltsCons(Word("/health/", ANYTHING), last);
    AltsCons(Word("/schemas/", ANYTHING), Or(Word("/health/", ANYTHING), last));
    AltsCons(Word("/sessions/", ANYTHING), Or(Word("/schemas/", ANYTHING), Or(Word("/health/", ANYTHING), last)));
    var rest := Or(Word("/sessions/", ANYTHING), Or(Word("/schemas/", ANYTHING), Or(Word("/health/", ANYTHING), last)));
    AltsCons(selfService, rest);
    AltsCons(login, Or(selfService, rest));
  }

  lemma AltsCons(b: Branch, rest: Alts)
    requires BranchOk(b) && AltsOk(rest)
    ensures AltsOk(Or(b, rest))
  {
  }

  lemma TailOk(kind: Kind)
    ensures BranchOk(TailOf(kind))
  {
    if kind == Collab {
      DocumentTailOk(DOCUMENTS);
    } else if kind == CollabAdmin {
      DocumentTailOk(ADMIN_DOCUMENTS);
    } else if kind == RpcPreflight {
      RpcTailOk();
    } else if kind in {AuthPreflight, AuthSelfServiceRead, AuthSelfServiceSubmit} {
      AuthTailOk(kind);
    } else {
      SimpleTailOk(kind);
    }
  }

  lemma RpcTailOk()
    ensures BranchOk(TailOf(RpcPreflight))
  {
    AnythingOk(".v1.");
    GroupOk(["open", "manage"], Word(".v1.", ANYTHING));
  }

  lemma AuthTailOk(kind: Kind)
    requires kind in {AuthPreflight, AuthSelfServiceRead, AuthSelfServiceSubmit}
    ensures BranchOk(TailOf(kind))
  {
    if kind == AuthPreflight {
      PreflightTailOk();
    } else if kind == AuthSelfServiceRead {
      ReadTailOk();
    } else {
      SubmitTailOk();
    }
  }

  lemma PreflightTailOk()
    ensures BranchOk(TailOf(AuthPreflight))
  {
    var alts := AuthRoutes();
    AuthRoutesOk();
    GroupedOk(alts);
    assert TailOf(AuthPreflight) == Then(Group(alts), End);
  }

  lemma ReadTailOk()
    ensures BranchOk(TailOf(AuthSelfServiceRead))
  {
    SelfServiceOk();
    GroupedOk(SelfServiceReads());
  }

  lemma SubmitTailOk()
    ensures BranchOk(TailOf(AuthSelfServiceSubmit))
  {
    GroupOk(FLOWS, End);
  }

  lemma SimpleTailOk(kind: Kind)
    requires kind !in {Collab, CollabAdmin, RpcPreflight, AuthPreflight, AuthSelfServiceRead, AuthSelfServiceSubmit}
    ensures BranchOk(TailOf(kind))
  {
    AnythingOk("");
    assert TailOf(kind) == ANYTHING || TailOf(kind) == End;
  }

  lemma GroupedOk(alts: Alts)
    requires AltsOk(alts)
    ensures BranchOk(Then(Group(alts), End))
  {
    assert BranchOk(End);
  }

  // ---------------------------------------------------------------- origins

  // scheme "://" authority, with no other slash.
  ghost predicate IsOrigin(origin: string) {
    exists k :: IsOriginAt(origin, k)
  }

  predicate IsOriginAt(origin: string, k: int) {
    && 0 <= k && k + 2 < |origin| && origin[k + 1] == '/' && origin[k + 2] == '/'
    && forall i :: 0 <= i < |origin| && origin[i] == '/' ==> i == k + 1 || i == k + 2
  }

  // Path and origin can be told apart: the path starts at the third slash.
  lemma OriginSplit(origin: string, other: string, url: string)
    requires IsOrigin(origin) && IsOrigin(other) && origin <= url && other <= url
    requires |origin| < |url| && url[|origin|] == '/' && |other| < |url| && url[|other|] == '/'
    ensures origin == other
  {
    var k :| IsOriginAt(origin, k);
    var m :| IsOriginAt(other, m);
    assert url[k + 1] == '/' && url[k + 2] == '/' && url[m + 1] == '/' && url[m + 2] == '/';
    assert origin == url[..|origin|] && other == url[..|other|];
  }

  // What the route file is checked for, up to the syntax of an authority.
  ghost predicate RoutesOk(routes: Routes) {
    && IsOrigin(TrimSpace(routes.api)) && IsOrigin(TrimSpace(routes.apiInternal))
    && IsOrigin(TrimSpace(routes.auth)) && IsOrigin(TrimSpace(routes.collab))
  }

  // ---------------------------------------------------------------- the generated file

  // A procedure has one declaration, and no service name holds a slash.
  ghost predicate OneRoleEach(declared: seq<Declaration>) {
    && (forall d, e :: d in declared && e in declared && d.service == e.service && d.name == e.name ==> d == e)
    && (forall d :: d in declared ==> '/' !in d.service)
  }

  // The rule is in the file and matches: role rules exist for roles with a
  // method and are written with the sorted list of their services.
  ghost predicate Matches(routes: Routes, table: RoleTable, id: RuleId, verb: Verb, url: string) {
    match id
    case Static(kind) => verb in Verbs(kind) && MatchesUrl(StaticPattern(routes, kind), url)
    case Manage(role) => verb == POST && role in table && RoleMatches(routes, table[role], url)
  }

  ghost predicate RoleMatches(routes: Routes, services: Services, url: string) {
    exists names :: Listed(names, services) && Sorted(names) &&
                    MatchesUrl(RpcPattern(routes, "manage", names, services), url)
  }

  lemma SourceOk(routes: Routes, kind: Kind)
    requires RoutesOk(routes)
    ensures forall origin :: origin in Origins(SourceOf(routes, kind)) ==> IsOrigin(origin)
  {
  }

  lemma OriginAndPath(pattern: Pattern, url: string) returns (origin: string)
    requires BranchOk(pattern.tail) && MatchesUrl(pattern, url)
    requires forall origin :: origin in Origins(pattern.source) ==> IsOrigin(origin)
    ensures IsOrigin(origin) && origin <= url && OnPath(pattern, url[|origin|..])
  {
    PatternLanguage(pattern, url);
    origin :| origin in Origins(pattern.source) && origin <= url && OnPath(pattern, url[|origin|..]);
  }

  lemma RoutedTo(routes: Routes, kind: Kind, verb: Verb, url: string) returns (origin: string)
    requires RoutesOk(routes) && verb in Verbs(kind) && MatchesUrl(StaticPattern(routes, kind), url)
    ensures IsOrigin(origin) && origin < url && url[|origin|] == '/'
    ensures RouteOf(verb, url[|origin|..]) == Some(kind)
  {
    TailOk(kind);
    SourceOk(routes, kind);
    origin := OriginAndPath(StaticPattern(routes, kind), url);
    StaticRoute(routes, kind, verb, url[|origin|..]);
  }

  lemma DeclaredBy(routes: Routes, services: Services, url: string)
    returns (origin: string, service: string, name: string)
    requires RoleMatches(routes, services, url)
    ensures origin in [TrimSpace(routes.api), TrimSpace(routes.apiInternal)] && Declares(services, service, name)
    ensures url == origin + ("/api/rpc" + ProcedurePath("manage", service, name))
  {
    var names :| Listed(names, services) && Sorted(names) &&
                 MatchesUrl(RpcPattern(routes, "manage", names, services), url);
    RoleLanguage(routes, "manage", names, services, url);
    origin :| origin in [TrimSpace(routes.api), TrimSpace(routes.apiInternal)] && origin <= url &&
              IsProcedure(services, "manage", url[|origin|..]);
    service, name := ProcedureIn(services, url[|origin|..]);
    assert url == origin + url[|origin|..];
  }

  lemma ProcedureIn(services: Services, path: string) returns (service: string, name: string)
    requires IsProcedure(services, "manage", path)
    ensures Declares(services, service, name) && path == "/api/rpc" + ProcedurePath("manage", service, name)
  {
    service, name :| Declares(services, service, name) && path == "/api/rpc" + ProcedurePath("manage", service, name);
  }

  lemma ProcedureOf(routes: Routes, services: Services, url: string)
    returns (origin: string, service: string, name: string)
    requires RoutesOk(routes) && RoleMatches(routes, services, url)
    ensures IsOrigin(origin) && origin <= url && Declares(services, service, name)
    ensures url[|origin|..] == "/api/rpc" + ProcedurePath("manage", service, name)
  {
    origin, service, name := DeclaredBy(routes, services, url);
    assert url[|origin|..] == "/api/rpc" + ProcedurePath("manage", service, name);
  }

  lemma ManageUnrouted(package: string, service: string, name: string)
    requires package != "" && package[0] == 'm'
    ensures var p := "/api/rpc" + ProcedurePath(package, service, name);
            p[0] == '/' && RouteOf(POST, p) == None
  {
    var p := "/api/rpc" + ProcedurePath(package, service, name);
    assert p == "/api/rpc/api." + (package + ".v1." + (service + "/" + name));
    assert p[13] == package[0];
  }

  // What the collected table holds is what is declared.
  lemma TabulatedMethod(table: RoleTable, declared: seq<Declaration>, role: Role, service: string, name: string)
    requires Tabulates(table, declared)
    ensures role in table && Declares(table[role], service, name) <==>
            Declaration(service, name, Some(role)) in declared
  {
    CountMethods(declared, role, service, name);
    assert name in Entry(table, role, service) <==> name in multiset(Entry(table, role, service));
    assert Declaration(service, name, Some(role)) in declared <==>
           Declaration(service, name, Some(role)) in multiset(declared);
  }

  lemma SamePath(package: string, s1: string, n1: string, s2: string, n2: string)
    requires ProcedurePath(package, s1, n1) == ProcedurePath(package, s2, n2) && '/' !in s1 && '/' !in s2
    ensures s1 == s2 && n1 == n2
  {
    var k := |PackagePath(package)|;
    var p, q := s1 + "/" + n1, s2 + "/" + n2;
    assert p == ProcedurePath(package, s1, n1)[k..] && q == ProcedurePath(package, s2, n2)[k..];
    assert p[|s1|] == '/' && q[|s2|] == '/';
    if |s1| < |s2| {
      assert false;
    }
    if |s2| < |s1| {
      assert false;
    }
    assert s1 == p[..|s1|] && n1 == p[|s1| + 1..];
    assert s2 == q[..|s2|] && n2 == q[|s2| + 1..];
  }

  lemma RolesDisjoint(routes: Routes, table: RoleTable, declared: seq<Declaration>, role: Role, other: Role, url: string)
    requires RoutesOk(routes) && Tabulates(table, declared) && OneRoleEach(declared)
    requires role in table && RoleMatches(routes, table[role], url)
    requires other in table && RoleMatches(routes, table[other], url)
    ensures role == other
  {
    var origin, service, name := ProcedureOf(routes, table[role], url);
    var origin', service', name' := ProcedureOf(routes, table[other], url);
    ManageUnrouted("manage", service, name);
    ManageUnrouted("manage", service', name');
    SlashAt(origin, url);
    SlashAt(origin', url);
    OriginSplit(origin, origin', url);
    TabulatedMethod(table, declared, role, service, name);
    TabulatedMethod(table, declared, other, service', name');
    DropRpc(ProcedurePath("manage", service, name), ProcedurePath("manage", service', name'));
    SamePath("manage", service, name, service', name');
  }

  lemma SlashAt(origin: string, url: string)
    requires origin <= url && url[|origin|..] != "" && url[|origin|..][0] == '/'
    ensures |origin| < |url| && url[|origin|] == '/'
  {
  }

  lemma DropRpc(p: string, q: string)
    requires "/api/rpc" + p == "/api/rpc" + q
    ensures p == q
  {
    assert p == ("/api/rpc" + p)[8..] && q == ("/api/rpc" + q)[8..];
  }

  // No request is matched by two rules of the generated file.
  lemma AtMostOneRule(routes: Routes, table: RoleTable, declared: seq<Declaration>, verb: Verb, url: string,
                      id: RuleId, other: RuleId)
    requires RoutesOk(routes) && Tabulates(table, declared) && OneRoleEach(declared)
    requires Matches(routes, table, id, verb, url) && Matches(routes, table, other, verb, url)
    ensures id == other
  {
    match (id, other)
    case (Manage(role), Manage(role')) => RolesDisjoint(routes, table, declared, role, role', url);
    case (Static(kind), Static(kind')) =>
      var origin := RoutedTo(routes, kind, verb, url);
      var origin' := RoutedTo(routes, kind', verb, url);
      OriginSplit(origin, origin', url);
    case (Static(kind), Manage(role)) => StaticOrManage(routes, kind, table[role], url);
    case (Manage(role), Static(kind)) => StaticOrManage(routes, kind, table[role], url);
  }

  lemma StaticOrManage(routes: Routes, kind: Kind, services: Services, url: string)
    requires RoutesOk(routes) && POST in Verbs(kind) && RoleMatches(routes, services, url)
    ensures !MatchesUrl(StaticPattern(routes, kind), url)
  {
    if MatchesUrl(StaticPattern(routes, kind), url) {
      var origin := RoutedTo(routes, kind, POST, url);
      var origin', service, name := ProcedureOf(routes, services, url);
      ManageUnrouted("manage", service, name);
      SlashAt(origin', url);
      OriginSplit(origin, origin', url);
    }
  }

  // The rule of a role matches POST to exactly the procedures declared with
  // that role, on the public and the internal API origin.
  lemma RoleRuleExact(routes: Routes, table: RoleTable, declared: seq<Declaration>, role: Role, url: string)
    requires Tabulates(table, declared)
    ensures Matches(routes, table, Manage(role), POST, url) <==>
            exists origin, service, name ::
              origin in [TrimSpace(routes.api), TrimSpace(routes.apiInternal)] &&
              Declaration(service, name, Some(role)) in declared &&
              url == origin + ("/api/rpc" + ProcedurePath("manage", service, name))
  {
    if Matches(routes, table, Manage(role), POST, url) {
      var origin, service, name := DeclaredBy(routes, table[role], url);
      TabulatedMethod(table, declared, role, service, name);
    }
    forall origin, service, name |
      origin in [TrimSpace(routes.api), TrimSpace(routes.apiInternal)] &&
      Declaration(service, name, Some(role)) in declared &&
      url == origin + ("/api/rpc" + ProcedurePath("manage", service, name))
      ensures Matches(routes, table, Manage(role), POST, url) {
      TabulatedMethod(table, declared, role, service, name);
      RoleAdmits(routes, table[role], origin, service, name) by {
        assert service in table[role];
        assert forall n :: n in table[role] ==> table[role][n] != [];
      }
    }
  }

  // In the terms of the files: the rule of a role matches POST to exactly the
  // methods that some file of the manage package gives that role.
  lemma RoleRuleOfFiles(routes: Routes, table: RoleTable, files: seq<FileDescriptor>, role: Role, url: string)
    requires Collects(table, files)
    ensures Matches(routes, table, Manage(role), POST, url) <==>
            exists origin, service, name, place ::
              && origin in [TrimSpace(routes.api), TrimSpace(routes.apiInternal)]
              && place in Places(files, Declaration(service, name, Some(role)))
              && url == origin + ("/api/rpc/api.manage.v1." + service + "/" + name)
  {
    TabulatesExactly(table, files);
    RoleRuleExact(routes, table, Declared(files), role, url);
    if Matches(routes, table, Manage(role), POST, url) {
      var origin, service, name :|
        origin in [TrimSpace(routes.api), TrimSpace(routes.apiInternal)] &&
        Declaration(service, name, Some(role)) in Declared(files) &&
        url == origin + ("/api/rpc" + ProcedurePath("manage", service, name));
      var place := PlaceOf(files, Declaration(service, name, Some(role)));
      ManagePath(service, name);
    }
    forall origin, service, name, place |
      && origin in [TrimSpace(routes.api), TrimSpace(routes.apiInternal)]
      && place in Places(files, Declaration(service, name, Some(role)))
      && url == origin + ("/api/rpc/api.manage.v1." + service + "/" + name)
      ensures Matches(routes, table, Manage(role), POST, url) {
      PlacedIsDeclared(files, Declaration(service, name, Some(role)), place);
      ManagePath(service, name);
    }
  }

  lemma ManagePath(service: string, name: string)
    ensures "/api/rpc" + ProcedurePath("manage", service, name) == "/api/rpc/api.manage.v1." + service + "/" + name
  {
    assert PackagePath("manage") == "/api.manage.v1.";
    assert "/api/rpc" + "/api.manage.v1." == "/api/rpc/api.manage.v1.";
  }

  lemma PlaceOf(files: seq<FileDescriptor>, d: Declaration) returns (place: (nat, (nat, nat)))
    requires d in Declared(files)
    ensures place in Places(files, d)
  {
    CountInFiles(files, d);
    assert d in multiset(Declared(files));
    place :| place in Places(files, d);
  }

  lemma PlacedIsDeclared(files: seq<FileDescriptor>, d: Declaration, place: (nat, (nat, nat)))
    requires place in Places(files, d)
    ensures d in Declared(files)
  {
    CountInFiles(files, d);
    assert d in multiset(Declared(files));
  }

  lemma RoleAdmits(routes: Routes, services: Services, origin: string, service: string, name: string)
    requires NonEmpty(services) && Declares(services, service, name)
    requires origin in [TrimSpace(routes.api), TrimSpace(routes.apiInternal)]
    ensures RoleMatches(routes, services, origin + ("/api/rpc" + ProcedurePath("manage", service, name)))
  {
    var path := "/api/rpc" + ProcedurePath("manage", service, name);
    var url := origin + path;
    assert url[|origin|..] == path;
    var names := SortedListing(services.Keys);
    RoleLanguage(routes, "manage", names, services, url);
  }

  lemma SortedListing(keys: set<string>) returns (names: seq<string>)
    ensures Enumerates(names, keys) && Sorted(names)
  {
    var listing := Listing(keys);
    SortKeepsElements(listing);
    names := SortStrings(listing);
  }

  lemma {:induction false} Listing(keys: set<string>) returns (names: seq<string>)
    ensures Enumerates(names, keys)
    decreases keys
  {
    names := [];
    if keys != {} {
      var key :| key in keys;
      names := Listing(keys - {key});
      EnumeratesSnoc(names, keys - {key}, key);
      assert keys - {key} + {key} == keys;
      names := names + [key];
    }
  }

  // Every declared procedure reaches the rule of its own role and no other.
  lemma EveryProcedureIsRouted(routes: Routes, table: RoleTable, declared: seq<Declaration>, d: Declaration,
                               origin: string, id: RuleId)
    requires RoutesOk(routes) && Tabulates(table, declared) && OneRoleEach(declared)
    requires AllAllowed(declared) && d in declared
    requires origin in [TrimSpace(routes.api), TrimSpace(routes.apiInternal)]
    ensures Matches(routes, table, id, POST, origin + ("/api/rpc" + ProcedurePath("manage", d.service, d.name))) <==>
            d.access.Some? && id == Manage(d.access.value)
  {
    var url := origin + ("/api/rpc" + ProcedurePath("manage", d.service, d.name));
    assert Allowed(d.access);
    assert d == Declaration(d.service, d.name, Some(d.access.value));
    RoleRuleExact(routes, table, declared, d.access.value, url);
    if Matches(routes, table, id, POST, url) {
      AtMostOneRule(routes, table, declared, POST, url, id, Manage(d.access.value));
    }
  }

  // Two visits of the same files in any order write the same rule texts.
  lemma TextsDoNotDependOnTheVisit(routes: Routes, files: seq<FileDescriptor>, other: seq<FileDescriptor>,
                                   t: RoleTable, u: RoleTable, role: Role, names: seq<string>, names': seq<string>)
    requires multiset(files) == multiset(other)
    requires Tabulates(t, Declared(files)) && Tabulates(u, Declared(other))
    requires role in t && Listed(names, t[role]) && Sorted(names)
    requires role in u && Listed(names', u[role]) && Sorted(names')
    ensures UrlText(RpcPattern(routes, "manage", names, t[role])) ==
            UrlText(RpcPattern(routes, "manage", names', u[role]))
  {
    VisitOrderIrrelevant(files, other, t, u);
    OneSortedListing(names, names', t[role].Keys);
  }
}
