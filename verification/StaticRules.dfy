// Which requests each fixed rule of the generated file is for, said in methods,
// origins and paths instead of expressions.

module StaticRules {
  import opened Prelude
  import opened Text
  import opened Regexes
  import opened RulePatterns
  import opened RoleTables
  import opened RoleRules
  import opened AccessRules

  // ---------------------------------------------------------------- what the rules are for

  predicate ForVerb(kind: Kind, verb: Verb) {
    match kind
    case ApiHealth => verb == GET
    case SesCallback => verb == POST
    case Collab => verb == GET
    case CollabAdmin => verb == GET
    case RpcPreflight => verb == OPTIONS
    case UploadPreflight => verb == OPTIONS
    case BlockInternal => true
    case AuthPreflight => verb == OPTIONS
    case AuthLogin => verb == GET || verb == POST
    case AuthLoginFlows => verb == GET
    case AuthSelfServiceRead => verb == GET
    case AuthSelfServiceSubmit => verb == POST
    case AuthSessions => verb == GET || verb == DELETE
    case AuthSchemas => verb == GET
    case AuthHealth => verb == GET
    case AuthWebauthn => verb == GET
    case McpPreflight => verb == OPTIONS
    case Mcp => verb == GET || verb == POST
    case OpenApi => verb == POST
    case UploadSource => verb == GET
    case UploadEndpoint => verb == POST || verb == PUT
  }

  predicate ForOrigin(routes: Routes, kind: Kind, origin: string) {
    match kind
    case Collab => origin == TrimSpace(routes.collab)
    case CollabAdmin => origin == TrimSpace(routes.collab)
    case BlockInternal => origin == TrimSpace(routes.api) || origin == TrimSpace(routes.apiInternal)
    case OpenApi => origin == TrimSpace(routes.api) || origin == TrimSpace(routes.apiInternal)
    case AuthPreflight => origin == TrimSpace(routes.auth)
    case AuthLogin => origin == TrimSpace(routes.auth)
    case AuthLoginFlows => origin == TrimSpace(routes.auth)
    case AuthSelfServiceRead => origin == TrimSpace(routes.auth)
    case AuthSelfServiceSubmit => origin == TrimSpace(routes.auth)
    case AuthSessions => origin == TrimSpace(routes.auth)
    case AuthSchemas => origin == TrimSpace(routes.auth)
    case AuthHealth => origin == TrimSpace(routes.auth)
    case AuthWebauthn => origin == TrimSpace(routes.auth)
    case _ => origin == TrimSpace(routes.api)
  }

  // `p` is the prefix and anything after it on one line.
  predicate Under(prefix: string, p: string) {
    prefix <= p && '\n' !in p[|prefix|..]
  }

  predicate IsSegment(s: string) {
    s != "" && '/' !in s
  }

  // prefix, then type/id/locale.
  ghost predicate Document(prefix: string, types: seq<string>, p: string) {
    exists word, id, locale ::
      word in types && IsSegment(id) && IsSegment(locale) && p == prefix + word + "/" + id + "/" + locale
  }

  // The self-service pages that are read.
  predicate ReadFlow(flow: string) {
    || flow in ["verification/browser", "verification/flows", "settings/browser", "settings/flows",
                "logout", "logout/browser", "errors"]
    || ("methods/oidc/callback/" <= flow && IsSegment(flow[22..]))
  }

  ghost predicate ForPath(kind: Kind, p: string) {
    match kind
    case ApiHealth => p == "/health"
    case SesCallback => p == "/callbacks/ses"
    case Collab => Document("/collab/", ["post", "work", "release", "label", "artist", "form"], p)
    case CollabAdmin =>
      Document("/collab/", ["page", "menu", "campaign", "email-template", "email-layout", "terms-history",
                            "privacy-history", "map-theme", "program-event"], p)
    case RpcPreflight => Under("/api/rpc/api.open.v1.", p) || Under("/api/rpc/api.manage.v1.", p)
    case UploadPreflight => Under("/api/upload/", p)
    case BlockInternal => Under("/api/rpc/api.intra.v1.", p)
    case AuthPreflight =>
      || p in ["/api/auth/login", "/api/auth/login/flows", "/api/auth/.well-known/ory/webauthn.js"]
      || Under("/api/auth/sessions/", p) || Under("/api/auth/schemas/", p) || Under("/api/auth/health/", p)
      || ("/api/auth/self-service/" <= p && (p[23..] in ["verification", "settings"] || ReadFlow(p[23..])))
    case AuthLogin => p == "/api/auth/login"
    case AuthLoginFlows => p == "/api/auth/login/flows"
    case AuthSelfServiceRead => "/api/auth/self-service/" <= p && ReadFlow(p[23..])
    case AuthSelfServiceSubmit => p in ["/api/auth/self-service/verification", "/api/auth/self-service/settings"]
    case AuthSessions => Under("/api/auth/sessions/", p)
    case AuthSchemas => Under("/api/auth/schemas/", p)
    case AuthHealth => Under("/api/auth/health/", p)
    case AuthWebauthn => p == "/api/auth/.well-known/ory/webauthn.js"
    case McpPreflight => p == "/mcp"
    case Mcp => p == "/mcp"
    case OpenApi => Under("/api/rpc/api.open.v1.", p)
    case UploadSource => p == "/api/upload/source"
    case UploadEndpoint => Under("/api/upload/", p)
  }

  // ---------------------------------------------------------------- the expressions

  // The path is the fixed part and something the tail matches.
  ghost predicate Tailed(fixed: string, tail: Branch, p: string) {
    fixed <= p && MatchBranch(tail, p[|fixed|..])
  }

  lemma TailedEnd(fixed: string, p: string)
    ensures Tailed(fixed, End, p) <==> p == fixed
  {
    if fixed <= p {
      assert p == fixed + p[|fixed|..];
    }
  }

  lemma TailedAnything(fixed: string, p: string)
    ensures Tailed(fixed, ANYTHING, p) <==> Under(fixed, p)
  {
    if fixed <= p {
      MatchSingle(AnyStar, p[|fixed|..]);
    }
  }

  // A word of a list, then the tail.
  lemma GroupThen(head: Atom, words: seq<string>, tail: Branch, s: string)
    requires words != [] && (head.Group? || head.Named?) && head.alts == OneOf(words)
    ensures MatchBranch(Then(head, tail), s) <==>
            exists word :: word in words && word <= s && MatchBranch(tail, s[|word|..])
  {
    if MatchBranch(Then(head, tail), s) {
      var i :| 0 <= i <= |s| && MatchAtom(head, s[..i]) && MatchBranch(tail, s[i..]);
      MatchWords(words, s[..i]);
      assert s[..i] in words && s[..i] <= s && s[|s[..i]|..] == s[i..];
    }
    forall word | word in words && word <= s && MatchBranch(tail, s[|word|..]) ensures MatchBranch(Then(head, tail), s) {
      assert s[..|word|] == word;
      MatchWords(words, s[..|word|]);
      assert MatchAtom(head, s[..|word|]);
    }
  }

  lemma MatchSegment(s: string)
    ensures MatchAlts(SEGMENT, s) <==> IsSegment(s)
  {
    MatchSingle(SegmentPlus, s);
    assert MatchAlts(SEGMENT, s) == MatchBranch(Then(SegmentPlus, End), s);
  }

  lemma LocaleTail(s: string)
    ensures MatchBranch(Then(Named("locale", SEGMENT), End), s) <==> IsSegment(s)
  {
    MatchSingle(Named("locale", SEGMENT), s);
    MatchSegment(s);
  }

  ghost predicate IdAndLocale(s: string, id: string, locale: string) {
    IsSegment(id) && IsSegment(locale) && s == id + "/" + locale
  }

  lemma IdTail(s: string)
    ensures MatchBranch(Then(Named("id", SEGMENT), Then(Chr('/'), Then(Named("locale", SEGMENT), End))), s) <==>
            exists id, locale :: IdAndLocale(s, id, locale)
  {
    var last := Then(Named("locale", SEGMENT), End);
    var tail := Then(Chr('/'), last);
    if MatchBranch(Then(Named("id", SEGMENT), tail), s) {
      var i :| 0 <= i <= |s| && MatchAtom(Named("id", SEGMENT), s[..i]) && MatchBranch(tail, s[i..]);
      MatchSegment(s[..i]);
      MatchChr('/', last, s[i..]);
      LocaleTail(s[i..][1..]);
      assert s == s[..i] + "/" + s[i..][1..];
      assert IdAndLocale(s, s[..i], s[i..][1..]);
    }
    if id, locale :| IdAndLocale(s, id, locale) {
      var i := |id|;
      assert s[..i] == id && s[i..] == "/" + locale && s[i..][1..] == locale;
      MatchSegment(id);
      LocaleTail(locale);
      MatchChr('/', last, s[i..]);
      assert MatchAtom(Named("id", SEGMENT), s[..i]);
    }
  }

  lemma DocumentParts(prefix: string, p: string, word: string, id: string, locale: string)
    ensures p == prefix + word + "/" + id + "/" + locale <==>
            && prefix <= p && word <= p[|prefix|..]
            && p[|prefix|..][|word|..] == "/" + (id + "/" + locale)
  {
    assert prefix + word + "/" + id + "/" + locale == prefix + (word + ("/" + (id + "/" + locale)));
    if prefix <= p && word <= p[|prefix|..] {
      assert p == prefix + p[|prefix|..] && p[|prefix|..] == word + p[|prefix|..][|word|..];
    }
    if p == prefix + (word + ("/" + (id + "/" + locale))) {
      assert p[|prefix|..] == word + ("/" + (id + "/" + locale));
      assert p[|prefix|..][|word|..] == "/" + (id + "/" + locale);
    }
  }

  // What stands after the type.
  lemma AfterType(s: string)
    ensures MatchBranch(Then(Chr('/'), Then(Named("id", SEGMENT), Then(Chr('/'), Then(Named("locale", SEGMENT), End)))), s)
            <==> exists id, locale :: IsSegment(id) && IsSegment(locale) && s == "/" + (id + "/" + locale)
  {
    var last := Then(Named("id", SEGMENT), Then(Chr('/'), Then(Named("locale", SEGMENT), End)));
    MatchChr('/', last, s);
    if s != "" && s[0] == '/' {
      assert s == "/" + s[1..];
      IdTail(s[1..]);
      forall id, locale ensures IdAndLocale(s[1..], id, locale) <==>
          IsSegment(id) && IsSegment(locale) && s == "/" + (id + "/" + locale) {
        if s == "/" + (id + "/" + locale) {
          assert s[1..] == id + "/" + locale;
        }
      }
    }
  }

  lemma DocumentLanguage(prefix: string, types: seq<string>, p: string)
    requires types != []
    ensures Tailed(prefix, DocumentTail(types), p) <==> Document(prefix, types, p)
  {
    var last := Then(Named("id", SEGMENT), Then(Chr('/'), Then(Named("locale", SEGMENT), End)));
    var tail := Then(Chr('/'), last);
    if prefix <= p {
      GroupThen(Named("type", OneOf(types)), types, tail, p[|prefix|..]);
    }
    if Tailed(prefix, DocumentTail(types), p) {
      var s := p[|prefix|..];
      var word :| word in types && word <= s && MatchBranch(tail, s[|word|..]);
      AfterType(s[|word|..]);
      var id, locale :| IsSegment(id) && IsSegment(locale) && s[|word|..] == "/" + (id + "/" + locale);
      DocumentParts(prefix, p, word, id, locale);
    }
    if word, id, locale :|
      word in types && IsSegment(id) && IsSegment(locale) && p == prefix + word + "/" + id + "/" + locale {
      DocumentParts(prefix, p, word, id, locale);
      AfterType(p[|prefix|..][|word|..]);
    }
  }

  // fixed, a word, a middle part, anything
  lemma ChoiceUnder(fixed: string, words: seq<string>, middle: string, p: string)
    requires words != []
    ensures Tailed(fixed, Then(Group(OneOf(words)), Word(middle, ANYTHING)), p) <==>
            exists word :: word in words && Under(fixed + word + middle, p)
  {
    var tail := Word(middle, ANYTHING);
    if Tailed(fixed, Then(Group(OneOf(words)), tail), p) {
      var s := p[|fixed|..];
      GroupThen(Group(OneOf(words)), words, tail, s);
      var word :| word in words && word <= s && MatchBranch(tail, s[|word|..]);
      MatchWord(middle, ANYTHING, s[|word|..]);
      MatchSingle(AnyStar, s[|word|..][|middle|..]);
      JoinsPrefix(fixed, word, middle, p);
      assert Under(fixed + word + middle, p);
    }
    if word :| word in words && Under(fixed + word + middle, p) {
      var s := p[|fixed|..];
      CutsPrefix(fixed, word, middle, p);
      MatchSingle(AnyStar, s[|word|..][|middle|..]);
      MatchWord(middle, ANYTHING, s[|word|..]);
      GroupThen(Group(OneOf(words)), words, tail, s);
    }
  }

  lemma JoinsPrefix(a: string, b: string, c: string, p: string)
    requires a <= p && b <= p[|a|..] && c <= p[|a|..][|b|..]
    ensures a + b + c <= p && p[|a + b + c|..] == p[|a|..][|b|..][|c|..]
  {
    assert p == a + p[|a|..] && p[|a|..] == b + p[|a|..][|b|..];
    assert p == a + b + p[|a|..][|b|..];
  }

  lemma CutsPrefix(a: string, b: string, c: string, p: string)
    requires a + b + c <= p
    ensures a <= p && b <= p[|a|..] && c <= p[|a|..][|b|..] && p[|a + b + c|..] == p[|a|..][|b|..][|c|..]
  {
    assert p == a + b + c + p[|a + b + c|..];
    assert p[|a|..] == b + c + p[|a + b + c|..];
    assert p[|a|..][|b|..] == c + p[|a + b + c|..];
  }

  // ---------------------------------------------------------------- the self-service pages

  lemma WordsEnd(words: seq<string>, s: string)
    requires words != []
    ensures MatchBranch(Then(Group(OneOf(words)), End), s) <==> s in words
  {
    MatchSingle(Group(OneOf(words)), s);
    MatchWords(words, s);
  }

  ghost predicate Pair(firsts: seq<string>, seconds: seq<string>, s: string) {
    exists f, g :: f in firsts && g in seconds && s == f + "/" + g
  }

  lemma SlashWord(words: seq<string>, s: string)
    requires words != []
    ensures MatchBranch(Then(Chr('/'), Then(Group(OneOf(words)), End)), s) <==> exists g :: g in words && s == "/" + g
  {
    MatchChr('/', Then(Group(OneOf(words)), End), s);
    if s != "" {
      WordsEnd(words, s[1..]);
      assert s[0] == '/' ==> s == "/" + s[1..];
    }
    forall g | s == "/" + g ensures s[1..] == g {
    }
  }

  lemma PairLanguage(firsts: seq<string>, seconds: seq<string>, s: string)
    requires firsts != [] && seconds != []
    ensures MatchBranch(Then(Group(OneOf(firsts)), Then(Chr('/'), Then(Group(OneOf(seconds)), End))), s) <==>
            Pair(firsts, seconds, s)
  {
    var tail := Then(Chr('/'), Then(Group(OneOf(seconds)), End));
    GroupThen(Group(OneOf(firsts)), firsts, tail, s);
    forall f, g ensures s == f + "/" + g <==> f <= s && s[|f|..] == "/" + g {
      AfterWord(f, g, s);
    }
    forall f | f <= s ensures MatchBranch(tail, s[|f|..]) <==> exists g :: g in seconds && s[|f|..] == "/" + g {
      SlashWord(seconds, s[|f|..]);
    }
  }

  lemma OptionalPair(firsts: seq<string>, seconds: seq<string>, s: string)
    requires firsts != [] && seconds != []
    ensures MatchBranch(Suffixed(firsts, Optional(One(Then(Chr('/'), Then(Group(OneOf(seconds)), End))))), s) <==>
            s in firsts || Pair(firsts, seconds, s)
  {
    var more := Then(Chr('/'), Then(Group(OneOf(seconds)), End));
    var tail := Then(Optional(One(more)), End);
    GroupThen(Group(OneOf(firsts)), firsts, tail, s);
    GroupThen(Group(OneOf(firsts)), firsts, more, s);
    PairLanguage(firsts, seconds, s);
    forall f | f in firsts && f <= s ensures MatchBranch(tail, s[|f|..]) <==> s == f || MatchBranch(more, s[|f|..]) {
      MatchSingle(Optional(One(more)), s[|f|..]);
      assert s == f + s[|f|..];
    }
  }

  lemma OptionalWord(word: string, more: string, s: string)
    ensures MatchBranch(Word(word, Then(Optional(OneOf([more])), End)), s) <==> s == word || s == word + more
  {
    MatchWord(word, Then(Optional(OneOf([more])), End), s);
    if word <= s {
      assert s == word + s[|word|..];
      MatchSingle(Optional(OneOf([more])), s[|word|..]);
      MatchWords([more], s[|word|..]);
    }
    assert s == word + more ==> s[|word|..] == more;
  }

  lemma OtherFlowsLanguage(s: string)
    ensures MatchAlts(OtherFlows(), s) <==>
            || s in ["logout", "logout/browser", "errors"]
            || ("methods/oidc/callback/" <= s && IsSegment(s[22..]))
  {
    OptionalWord("logout", "/browser", s);
    assert "logout" + "/browser" == "logout/browser";
    MatchWord("errors", End, s);
    TailedEnd("errors", s);
    MatchWord("methods/oidc/callback/", Then(SegmentPlus, End), s);
    if "methods/oidc/callback/" <= s {
      MatchSingle(SegmentPlus, s[22..]);
    }
    var callback := One(Word("methods/oidc/callback/", Then(SegmentPlus, End)));
    assert MatchAlts(callback, s) == MatchBranch(callback.branch, s);
    assert MatchAlts(Or(Word("errors", End), callback), s) <==> MatchBranch(Word("errors", End), s) || MatchAlts(callback, s);
  }

  lemma PairOf(firsts: seq<string>, seconds: seq<string>, f: string, g: string)
    requires f in firsts && g in seconds
    ensures Pair(firsts, seconds, f + "/" + g)
  {
  }

  lemma FlowPairs(s: string)
    ensures Pair(["verification", "settings"], ["browser", "flows"], s) <==>
            s in ["verification/browser", "verification/flows", "settings/browser", "settings/flows"]
  {
    var firsts, seconds := ["verification", "settings"], ["browser", "flows"];
    PairOf(firsts, seconds, firsts[0], seconds[0]);
    PairOf(firsts, seconds, firsts[0], seconds[1]);
    PairOf(firsts, seconds, firsts[1], seconds[0]);
    PairOf(firsts, seconds, firsts[1], seconds[1]);
    assert "verification" + "/" + "browser" == "verification/browser";
    assert "verification" + "/" + "flows" == "verification/flows";
    assert "settings" + "/" + "browser" == "settings/browser";
    assert "settings" + "/" + "flows" == "settings/flows";
  }

  lemma ReadsLanguage(s: string)
    ensures MatchAlts(SelfServiceReads(), s) <==> ReadFlow(s)
  {
    PairLanguage(FLOWS, ["browser", "flows"], s);
    FlowPairs(s);
    OtherFlowsLanguage(s);
  }

  lemma AllLanguage(s: string)
    ensures MatchAlts(SelfServiceAll(), s) <==> s in ["verification", "settings"] || ReadFlow(s)
  {
    OptionalPair(FLOWS, ["browser", "flows"], s);
    FlowPairs(s);
    OtherFlowsLanguage(s);
  }

  // ---------------------------------------------------------------- path by path

  lemma UnderAfter(fixed: string, prefix: string, p: string)
    ensures fixed <= p && Under(prefix, p[|fixed|..]) <==> Under(fixed + prefix, p)
    ensures fixed <= p && p[|fixed|..] == prefix <==> p == fixed + prefix
    ensures fixed <= p && prefix <= p[|fixed|..] <==> fixed + prefix <= p
    ensures fixed + prefix <= p ==> p[|fixed|..][|prefix|..] == p[|fixed + prefix|..]
  {
    if fixed <= p {
      assert p == fixed + p[|fixed|..];
      if prefix <= p[|fixed|..] {
        JoinsPrefix(fixed, prefix, "", p);
        assert fixed + prefix + "" == fixed + prefix;
      }
    }
    if fixed + prefix <= p {
      assert fixed + prefix + "" == fixed + prefix;
      CutsPrefix(fixed, prefix, "", p);
    }
  }

  lemma MatchOr(b: Branch, rest: Alts, s: string)
    ensures MatchAlts(Or(b, rest), s) <==> MatchBranch(b, s) || MatchAlts(rest, s)
  {
  }

  lemma WordAnything(prefix: string, s: string)
    ensures MatchBranch(Word(prefix, ANYTHING), s) <==> Under(prefix, s)
  {
    MatchWord(prefix, ANYTHING, s);
    TailedAnything(prefix, s);
  }

  // The alternatives from /sessions/ on.
  lemma LastRoutes(s: string)
    ensures MatchAlts(Or(Word("/sessions/", ANYTHING), Or(Word("/schemas/", ANYTHING),
                      Or(Word("/health/", ANYTHING), One(Word("/.well-known/ory/webauthn.js", End))))), s) <==>
            Under("/sessions/", s) || Under("/schemas/", s) || Under("/health/", s) || s == "/.well-known/ory/webauthn.js"
  {
    var last := One(Word("/.well-known/ory/webauthn.js", End));
    MatchWord("/.well-known/ory/webauthn.js", End, s);
    TailedEnd("/.well-known/ory/webauthn.js", s);
    assert MatchAlts(last, s) == MatchBranch(last.branch, s);
    WordAnything("/sessions/", s);
    WordAnything("/schemas/", s);
    WordAnything("/health/", s);
    MatchOr(Word("/health/", ANYTHING), last, s);
    MatchOr(Word("/schemas/", ANYTHING), Or(Word("/health/", ANYTHING), last), s);
    MatchOr(Word("/sessions/", ANYTHING), Or(Word("/schemas/", ANYTHING), Or(Word("/health/", ANYTHING), last)), s);
  }

  lemma AuthRoutesLanguage(s: string)
    ensures MatchAlts(AuthRoutes(), s) <==>
            || s == "/login" || s == "/login/flows"
            || ("/self-service/" <= s && (s[14..] in ["verification", "settings"] || ReadFlow(s[14..])))
            || Under("/sessions/", s) || Under("/schemas/", s) || Under("/health/", s)
            || s == "/.well-known/ory/webauthn.js"
  {
    OptionalWord("/login", "/flows", s);
    assert "/login" + "/flows" == "/login/flows";
    MatchWord("/self-service/", Then(Group(SelfServiceAll()), End), s);
    if "/self-service/" <= s {
      MatchSingle(Group(SelfServiceAll()), s[14..]);
      AllLanguage(s[14..]);
    }
    LastRoutes(s);
    var tail := Or(Word("/sessions/", ANYTHING), Or(Word("/schemas/", ANYTHING),
                Or(Word("/health/", ANYTHING), One(Word("/.well-known/ory/webauthn.js", End)))));
    MatchOr(Word("/self-service/", Then(Group(SelfServiceAll()), End)), tail, s);
    MatchOr(Word("/login", Then(Optional(OneOf(["/flows"])), End)),
            Or(Word("/self-service/", Then(Group(SelfServiceAll()), End)), tail), s);
  }

  lemma AuthWord(rest: string, whole: string, p: string)
    requires "/api/auth" + rest == whole
    ensures "/api/auth" <= p && p[9..] == rest <==> p == whole
  {
    UnderAfter("/api/auth", rest, p);
  }

  lemma AuthLoginWord(p: string)
    ensures "/api/auth" <= p && p[9..] == "/login" <==> p == "/api/auth/login"
  {
    AuthWord("/login", "/api/auth/login", p);
  }

  lemma AuthFlowsWord(p: string)
    ensures "/api/auth" <= p && p[9..] == "/login/flows" <==> p == "/api/auth/login/flows"
  {
    AuthWord("/login/flows", "/api/auth/login/flows", p);
  }

  lemma AuthWebauthnWord(p: string)
    ensures "/api/auth" <= p && p[9..] == "/.well-known/ory/webauthn.js" <==> p == "/api/auth/.well-known/ory/webauthn.js"
  {
    var rest, whole := "/.well-known/ory/webauthn.js", "/api/auth/.well-known/ory/webauthn.js";
    assert "/api/auth" + rest == whole;
    AuthWord(rest, whole, p);
  }

  lemma AuthFolder(prefix: string, whole: string, p: string)
    requires "/api/auth" + prefix == whole
    ensures "/api/auth" <= p && Under(prefix, p[9..]) <==> Under(whole, p)
  {
    UnderAfter("/api/auth", prefix, p);
  }

  lemma AuthFolders(p: string)
    ensures "/api/auth" <= p && (Under("/sessions/", p[9..]) || Under("/schemas/", p[9..]) || Under("/health/", p[9..]))
            <==> Under("/api/auth/sessions/", p) || Under("/api/auth/schemas/", p) || Under("/api/auth/health/", p)
  {
    AuthFolder("/sessions/", "/api/auth/sessions/", p);
    AuthFolder("/schemas/", "/api/auth/schemas/", p);
    AuthFolder("/health/", "/api/auth/health/", p);
  }

  lemma AuthFlows(p: string)
    ensures "/api/auth" <= p && "/self-service/" <= p[9..] <==> "/api/auth/self-service/" <= p
    ensures "/api/auth/self-service/" <= p ==> p[9..][14..] == p[23..]
  {
    UnderAfter("/api/auth", "/self-service/", p);
    assert "/api/auth" + "/self-service/" == "/api/auth/self-service/" && |"/self-service/"| == 14;
  }

  lemma AuthPreflightPath(p: string)
    ensures Tailed("/api/auth", Then(Group(AuthRoutes()), End), p) <==> ForPath(AuthPreflight, p)
  {
    if "/api/auth" <= p {
      MatchSingle(Group(AuthRoutes()), p[9..]);
      AuthRoutesLanguage(p[9..]);
    }
    AuthLoginWord(p);
    AuthFlowsWord(p);
    AuthWebauthnWord(p);
    AuthFolders(p);
    AuthFlows(p);
  }

  lemma AuthReadPath(p: string)
    ensures Tailed("/api/auth/self-service/", Then(Group(SelfServiceReads()), End), p) <==> ForPath(AuthSelfServiceRead, p)
  {
    if "/api/auth/self-service/" <= p {
      MatchSingle(Group(SelfServiceReads()), p[23..]);
      ReadsLanguage(p[23..]);
    }
  }

  lemma AuthSubmitPath(p: string)
    ensures Tailed("/api/auth/self-service/", Then(Group(OneOf(FLOWS)), End), p) <==> ForPath(AuthSelfServiceSubmit, p)
  {
    var fixed := "/api/auth/self-service/";
    if fixed <= p {
      WordsEnd(FLOWS, p[23..]);
    }
    UnderAfter(fixed, "verification", p);
    UnderAfter(fixed, "settings", p);
    assert fixed + "verification" == "/api/auth/self-service/verification";
    assert fixed + "settings" == "/api/auth/self-service/settings";
  }

  lemma RpcPreflightPath(p: string)
    ensures Tailed("/api/rpc/api.", Then(Group(OneOf(["open", "manage"])), Word(".v1.", ANYTHING)), p) <==>
            ForPath(RpcPreflight, p)
  {
    var words := ["open", "manage"];
    ChoiceUnder("/api/rpc/api.", words, ".v1.", p);
    assert "/api/rpc/api." + words[0] + ".v1." == "/api/rpc/api.open.v1.";
    assert "/api/rpc/api." + words[1] + ".v1." == "/api/rpc/api.manage.v1.";
  }

  // The fixed path alone.
  lemma WholeAuthPath(kind: Kind, p: string)
    requires kind in {AuthLogin, AuthLoginFlows, AuthWebauthn}
    ensures TailOf(kind) == End && (p == PrefixOf(kind) <==> ForPath(kind, p))
  {
  }

  lemma WholeApiPath(kind: Kind, p: string)
    requires kind in {ApiHealth, SesCallback, UploadSource, McpPreflight, Mcp}
    ensures TailOf(kind) == End && (p == PrefixOf(kind) <==> ForPath(kind, p))
  {
  }

  // The fixed path and anything after it.
  lemma OpenPath(kind: Kind, p: string)
    requires kind in {UploadPreflight, UploadEndpoint, AuthSessions, AuthSchemas, AuthHealth}
    ensures TailOf(kind) == ANYTHING && (Under(PrefixOf(kind), p) <==> ForPath(kind, p))
  {
  }

  lemma InternalPath(p: string)
    ensures TailOf(BlockInternal) == ANYTHING && (Under("/api/rpc" + "/api.intra.v1.", p) <==> ForPath(BlockInternal, p))
  {
    assert "/api/rpc" + "/api.intra.v1." == "/api/rpc/api.intra.v1.";
  }

  lemma OpenApiPath(p: string)
    ensures TailOf(OpenApi) == ANYTHING && (Under("/api/rpc" + "/api.open.v1.", p) <==> ForPath(OpenApi, p))
  {
    assert "/api/rpc" + "/api.open.v1." == "/api/rpc/api.open.v1.";
  }

  lemma PlainPath(kind: Kind, p: string)
    requires kind !in {Collab, CollabAdmin, RpcPreflight, AuthPreflight, AuthSelfServiceRead, AuthSelfServiceSubmit}
    ensures Tailed(FixedPart(kind), TailOf(kind), p) <==> ForPath(kind, p)
  {
    var fixed := FixedPart(kind);
    TailedAnything(fixed, p);
    TailedEnd(fixed, p);
    if kind == BlockInternal {
      InternalPath(p);
    } else if kind == OpenApi {
      OpenApiPath(p);
    } else if kind in {UploadPreflight, UploadEndpoint, AuthSessions, AuthSchemas, AuthHealth} {
      OpenPath(kind, p);
    } else if kind in {AuthLogin, AuthLoginFlows, AuthWebauthn} {
      WholeAuthPath(kind, p);
    } else {
      WholeApiPath(kind, p);
    }
  }

  lemma DocumentPath(kind: Kind, p: string)
    requires kind == Collab || kind == CollabAdmin
    ensures Tailed(FixedPart(kind), TailOf(kind), p) <==> ForPath(kind, p)
  {
    DocumentLanguage("/collab/", if kind == Collab then DOCUMENTS else ADMIN_DOCUMENTS, p);
  }

  lemma GroupedPath(kind: Kind, p: string)
    requires kind in {RpcPreflight, AuthPreflight, AuthSelfServiceRead, AuthSelfServiceSubmit}
    ensures Tailed(FixedPart(kind), TailOf(kind), p) <==> ForPath(kind, p)
  {
    if kind == RpcPreflight {
      RpcPreflightPath(p);
    } else if kind == AuthPreflight {
      AuthPreflightPath(p);
    } else if kind == AuthSelfServiceRead {
      AuthReadPath(p);
    } else {
      AuthSubmitPath(p);
    }
  }

  lemma PathExactly(kind: Kind, p: string)
    ensures Tailed(FixedPart(kind), TailOf(kind), p) <==> ForPath(kind, p)
  {
    if kind == Collab || kind == CollabAdmin {
      DocumentPath(kind, p);
    } else if kind in {RpcPreflight, AuthPreflight, AuthSelfServiceRead, AuthSelfServiceSubmit} {
      GroupedPath(kind, p);
    } else {
      PlainPath(kind, p);
    }
  }

  lemma VerbExactly(kind: Kind, verb: Verb)
    ensures verb in Verbs(kind) <==> ForVerb(kind, verb)
  {
  }

  lemma OriginExactly(routes: Routes, kind: Kind, origin: string)
    ensures origin in Origins(SourceOf(routes, kind)) <==> ForOrigin(routes, kind, origin)
    ensures Base(SourceOf(routes, kind)) + PrefixOf(kind) == FixedPart(kind)
  {
  }

  // A fixed rule matches exactly its methods on its paths under its origins.
  lemma StaticRuleExactly(routes: Routes, table: RoleTable, kind: Kind, verb: Verb, url: string)
    ensures Matches(routes, table, Static(kind), verb, url) <==>
            && ForVerb(kind, verb)
            && exists origin :: ForOrigin(routes, kind, origin) && origin <= url && ForPath(kind, url[|origin|..])
  {
    var pattern := StaticPattern(routes, kind);
    VerbExactly(kind, verb);
    TailOk(kind);
    PatternLanguage(pattern, url);
    forall origin | origin <= url
      ensures origin in Origins(pattern.source) <==> ForOrigin(routes, kind, origin)
      ensures OnPath(pattern, url[|origin|..]) <==> ForPath(kind, url[|origin|..]) {
      OriginExactly(routes, kind, origin);
      PathExactly(kind, url[|origin|..]);
    }
  }
}
