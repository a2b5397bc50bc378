// The one URL matcher written for an access role: its text, the expression
// behind the text, and the exact set of URLs it matches.

module RoleRules {
  import opened Prelude
  import opened Text
  import opened Regexes
  import opened RulePatterns
  import opened Sorting

  datatype Routes = Routes(api: string, apiInternal: string, auth: string, collab: string)

  // The methods of each service of one role.
  type Services = map<string, seq<string>>

  ghost predicate NonEmpty(services: Services) {
    services.Keys != {} && forall n :: n in services ==> services[n] != []
  }

  // ---------------------------------------------------------------- text

  function ApiRpcPathPattern(routes: Routes): string {
    "(?:" + (QuoteMeta(TrimSpace(routes.api)) + QuoteMeta("/api/rpc"))
    + "|" + (QuoteMeta(TrimSpace(routes.apiInternal)) + QuoteMeta("/api/rpc")) + ")"
  }

  function QuoteEach(words: seq<string>): seq<string> {
    seq(|words|, i requires 0 <= i < |words| => QuoteMeta(words[i]))
  }

  function MethodRegexGroup(methods: seq<string>): string {
    if |methods| == 1 then QuoteMeta(methods[0]) else "(?:" + Join(QuoteEach(methods), "|") + ")"
  }

  function ServiceTexts(names: seq<string>, services: Services): seq<string>
    requires forall n :: n in names ==> n in services
  {
    seq(|names|, i requires 0 <= i < |names| => QuoteMeta(names[i]) + "/" + MethodRegexGroup(services[names[i]]))
  }

  function ServiceMethodRegexGroup(names: seq<string>, services: Services): string
    requires forall n :: n in names ==> n in services
  {
    var texts := ServiceTexts(names, services);
    if |texts| == 1 then texts[0] else "(?:" + Join(texts, "|") + ")"
  }

  // "/api.manage.v1." for manage, plain and as a regular expression.
  function PackagePath(package: string): string {
    "/api." + package + ".v1."
  }

  function PackageText(package: string): string {
    "/api\\." + package + "\\.v1\\."
  }

  // ---------------------------------------------------------------- expression

  function Words(words: seq<string>): seq<Branch> {
    seq(|words|, i requires 0 <= i < |words| => Word(words[i], End))
  }

  function ServiceBranch(name: string, methods: seq<string>): Branch
    requires methods != []
  {
    Word(name, Then(Chr('/'), Choice(Words(methods))))
  }

  function ServiceBranches(names: seq<string>, services: Services): seq<Branch>
    requires forall n :: n in names ==> n in services && services[n] != []
  {
    seq(|names|, i requires 0 <= i < |names| => ServiceBranch(names[i], services[names[i]]))
  }

  // An enumeration of the services, as the sorted key list is.
  ghost predicate Listed(names: seq<string>, services: Services) {
    NonEmpty(services) && Enumerates(names, services.Keys)
  }

  lemma ListedNames(names: seq<string>, services: Services)
    requires Listed(names, services)
    ensures names != []
    ensures forall n :: n in names <==> n in services
    ensures forall n :: n in names ==> services[n] != []
  {
    assert forall n :: n in names <==> n in Elements(names);
    var n :| n in services;
    assert n in names;
  }

  ghost function RpcPattern(routes: Routes, package: string, names: seq<string>, services: Services): Pattern
    requires Listed(names, services)
  {
    ListedNames(names, services);
    Pattern(Either(TrimSpace(routes.api), TrimSpace(routes.apiInternal), "/api/rpc"), PackagePath(package),
            Choice(ServiceBranches(names, services)))
  }

  // ---------------------------------------------------------------- the text is that of the expression

  lemma ShowWords(words: seq<string>)
    ensures ShowEach(Words(words)) == QuoteEach(words)
  {
    forall i | 0 <= i < |words| ensures ShowBranch(Words(words)[i]) == QuoteMeta(words[i]) {
      assert QuoteMeta(words[i]) + "" == QuoteMeta(words[i]);
    }
  }

  lemma ShowChoice(branches: seq<Branch>)
    requires branches != []
    ensures ShowBranch(Choice(branches)) ==
            if |branches| == 1 then ShowBranch(branches[0]) else "(?:" + Join(ShowEach(branches), "|") + ")"
  {
    if |branches| > 1 {
      ShowAltsOf(branches);
      var group := ShowAtom(Group(AltsOf(branches)));
      assert ShowBranch(Choice(branches)) == group + "" == group;
    }
  }

  lemma ShowService(name: string, methods: seq<string>)
    requires methods != []
    ensures ShowBranch(ServiceBranch(name, methods)) == QuoteMeta(name) + "/" + MethodRegexGroup(methods)
  {
    var choice := Choice(Words(methods));
    ShowChoice(Words(methods));
    ShowWords(methods);
    assert |methods| == 1 ==> ShowEach(Words(methods))[0] == QuoteEach(methods)[0];
    assert ShowBranch(choice) == MethodRegexGroup(methods);
    assert ShowAtom(Chr('/')) == "/";
    assert QuoteMeta(name) + ("/" + MethodRegexGroup(methods)) == QuoteMeta(name) + "/" + MethodRegexGroup(methods);
  }

  lemma ShowServices(names: seq<string>, services: Services)
    requires forall n :: n in names ==> n in services && services[n] != []
    ensures ShowEach(ServiceBranches(names, services)) == ServiceTexts(names, services)
  {
    forall i | 0 <= i < |names|
      ensures ShowEach(ServiceBranches(names, services))[i] == ServiceTexts(names, services)[i] {
      assert names[i] in services;
      ShowService(names[i], services[names[i]]);
    }
  }

  lemma QuotePackage(package: string)
    requires forall c :: c in package ==> !IsMeta(c)
    ensures QuoteMeta(PackagePath(package)) == PackageText(package)
  {
    QuoteMetaHomomorphism("/api." + package, ".v1.");
    QuoteMetaHomomorphism("/api.", package);
    QuotePlain(package);
    assert QuoteMeta("/api.") == "/api\\.";
    assert QuoteMeta(".v1.") == "\\.v1\\.";
  }

  // The written text is that of the expression.
  lemma RpcPatternText(routes: Routes, package: string, names: seq<string>, services: Services)
    requires Listed(names, services) && forall c :: c in package ==> !IsMeta(c)
    ensures (forall n :: n in names ==> n in services) &&
            UrlText(RpcPattern(routes, package, names, services)) ==
            ApiRpcPathPattern(routes) + PackageText(package) + ServiceMethodRegexGroup(names, services)
  {
    ListedNames(names, services);
    var pattern := RpcPattern(routes, package, names, services);
    ExpressionText(pattern);
    QuotePackage(package);
    ShowTail(names, services);
    var origins, tail := ApiRpcPathPattern(routes), ServiceMethodRegexGroup(names, services);
    assert origins + (PackageText(package) + tail) == origins + PackageText(package) + tail;
  }

  lemma ShowTail(names: seq<string>, services: Services)
    requires names != [] && forall n :: n in names ==> n in services && services[n] != []
    ensures ShowBranch(Choice(ServiceBranches(names, services))) == ServiceMethodRegexGroup(names, services)
  {
    ShowChoice(ServiceBranches(names, services));
    ShowServices(names, services);
    assert |names| == 1 ==> ShowEach(ServiceBranches(names, services))[0] == ServiceTexts(names, services)[0];
  }

  // ---------------------------------------------------------------- writing the rule

  // The keys in the order of some map iteration, then sorted.
  method ServiceNames(services: Services) returns (names: seq<string>)
    ensures Enumerates(names, services.Keys) && Sorted(names)
  {
    names := [];
    var rest := services.Keys;
    while rest != {}
      invariant rest <= services.Keys && Enumerates(names, services.Keys - rest)
      decreases rest
    {
      var service :| service in rest;
      EnumeratesSnoc(names, services.Keys - rest, service);
      assert services.Keys - rest + {service} == services.Keys - (rest - {service});
      names := names + [service];
      rest := rest - {service};
    }
    assert services.Keys - rest == services.Keys;
    SortKeepsElements(names);
    names := SortStrings(names);
  }

  lemma SortKeepsElements(s: seq<string>)
    requires NoDuplicates(s)
    ensures Sorted(SortStrings(s)) && Enumerates(SortStrings(s), Elements(s))
  {
    var t := SortStrings(s);
    SortStringsSorts(s);
    assert |multiset(s)| == |s| && |multiset(t)| == |t|;
    forall x ensures x in s <==> x in t {
      assert x in multiset(s) <==> x in multiset(t);
    }
    assert Elements(s) == Elements(t);
    DistinctCount(s);
    NoDuplicatesFromCount(t);
  }

  lemma OneSortedListing(names: seq<string>, other: seq<string>, keys: set<string>)
    requires Enumerates(names, keys) && Sorted(names) && Enumerates(other, keys) && Sorted(other)
    ensures names == other
  {
    forall x ensures multiset(names)[x] == multiset(other)[x] {
      CountOfDistinct(names, x);
      CountOfDistinct(other, x);
      assert x in names <==> x in Elements(names);
      assert x in other <==> x in Elements(other);
    }
    SortedUnique(names, other);
  }

  lemma {:induction false} CountOfDistinct(s: seq<string>, x: string)
    requires NoDuplicates(s)
    ensures multiset(s)[x] == if x in s then 1 else 0
  {
    if s != [] {
      assert s == [s[0]] + s[1..];
      CountOfDistinct(s[1..], x);
    }
  }

  // The text of the expression over the sorted services.
  ghost predicate IsRoleUrl(routes: Routes, services: Services, names: seq<string>, text: string) {
    && Listed(names, services) && Sorted(names)
    && text == "<" + UrlText(RpcPattern(routes, "manage", names, services)) + ">"
  }

  // writeRoleRule, its matcher: whatever order the map is visited in.
  method WriteRoleUrl(routes: Routes, services: Services) returns (text: string)
    requires NonEmpty(services)
    ensures exists names :: IsRoleUrl(routes, services, names, text)
  {
    var names := ServiceNames(services);
    ListedNames(names, services);
    text := "<" + (ApiRpcPathPattern(routes) + PackageText("manage") + ServiceMethodRegexGroup(names, services)) + ">";
    ManageWritten(routes, names, services, text);
  }

  lemma ManagePlain()
    ensures forall c :: c in "manage" ==> !IsMeta(c)
  {
  }

  lemma ManageWritten(routes: Routes, names: seq<string>, services: Services, text: string)
    requires Listed(names, services) && Sorted(names) && forall n :: n in names ==> n in services
    requires text == "<" + (ApiRpcPathPattern(routes) + PackageText("manage") + ServiceMethodRegexGroup(names, services)) + ">"
    ensures IsRoleUrl(routes, services, names, text)
  {
    ManagePlain();
    WrittenText(routes, "manage", names, services, text);
  }

  lemma WrittenText(routes: Routes, package: string, names: seq<string>, services: Services, text: string)
    requires Listed(names, services) && forall n :: n in names ==> n in services
    requires forall c :: c in package ==> !IsMeta(c)
    requires text == "<" + (ApiRpcPathPattern(routes) + PackageText(package) + ServiceMethodRegexGroup(names, services)) + ">"
    ensures text == "<" + UrlText(RpcPattern(routes, package, names, services)) + ">"
  {
    RpcPatternText(routes, package, names, services);
  }

  // ---------------------------------------------------------------- the language

  ghost predicate Declares(services: Services, service: string, name: string) {
    service in services && name in services[service]
  }

  function ProcedurePath(package: string, service: string, name: string): string {
    PackagePath(package) + (service + "/" + name)
  }

  lemma MatchWords(words: seq<string>, s: string)
    requires words != []
    ensures MatchBranch(Choice(Words(words)), s) <==> s in words
    ensures MatchAlts(AltsOf(Words(words)), s) <==> s in words
  {
    MatchChoice(Words(words), s);
    MatchAltsOf(Words(words), s);
    forall i | 0 <= i < |words| ensures MatchBranch(Words(words)[i], s) <==> s == words[i] {
      MatchWord(words[i], End, s);
    }
  }

  lemma MatchSlash(methods: seq<string>, rest: string)
    requires methods != []
    ensures MatchBranch(Then(Chr('/'), Choice(Words(methods))), rest) <==>
            exists name :: name in methods && rest == "/" + name
  {
    MatchChr('/', Choice(Words(methods)), rest);
    if rest != "" {
      MatchWords(methods, rest[1..]);
      assert rest[0] == '/' ==> rest == "/" + rest[1..];
    }
    forall name | rest == "/" + name ensures rest[1..] == name {
    }
  }

  lemma AfterWord(service: string, name: string, s: string)
    ensures s == service + "/" + name <==> service <= s && s[|service|..] == "/" + name
  {
    if service <= s {
      assert s == service + s[|service|..];
    }
    if s == service + "/" + name {
      assert s == service + ("/" + name);
    }
  }

  lemma MatchService(service: string, methods: seq<string>, s: string)
    requires methods != []
    ensures MatchBranch(ServiceBranch(service, methods), s) <==>
            exists name :: name in methods && s == service + "/" + name
  {
    MatchWord(service, Then(Chr('/'), Choice(Words(methods))), s);
    if service <= s {
      MatchSlash(methods, s[|service|..]);
    }
    forall name ensures s == service + "/" + name <==> service <= s && s[|service|..] == "/" + name {
      AfterWord(service, name, s);
    }
  }

  lemma MatchServices(names: seq<string>, services: Services, s: string)
    requires Listed(names, services)
    ensures (names != [] && forall n :: n in names ==> n in services && services[n] != []) &&
            (MatchBranch(Choice(ServiceBranches(names, services)), s) <==>
             exists service, name :: Declares(services, service, name) && s == service + "/" + name)
  {
    ListedNames(names, services);
    var branches := ServiceBranches(names, services);
    MatchChoice(branches, s);
    if MatchBranch(Choice(branches), s) {
      var i :| 0 <= i < |names| && MatchBranch(branches[i], s);
      MatchService(names[i], services[names[i]], s);
      var name :| name in services[names[i]] && s == names[i] + "/" + name;
      assert Declares(services, names[i], name);
    }
    forall service, name | Declares(services, service, name) && s == service + "/" + name
      ensures MatchBranch(Choice(branches), s) {
      assert service in names;
      var i :| 0 <= i < |names| && names[i] == service;
      MatchService(service, services[service], s);
      assert MatchBranch(branches[i], s);
    }
  }

  ghost predicate IsProcedure(services: Services, package: string, path: string) {
    exists service, name :: Declares(services, service, name) &&
                            path == "/api/rpc" + ProcedurePath(package, service, name)
  }

  // On its path a role rule admits exactly the declared procedures.
  lemma RolePath(routes: Routes, package: string, names: seq<string>, services: Services, path: string)
    requires Listed(names, services)
    ensures OnPath(RpcPattern(routes, package, names, services), path) <==> IsProcedure(services, package, path)
  {
    var fixed := "/api/rpc" + PackagePath(package);
    if fixed <= path {
      var rest := path[|fixed|..];
      assert path == fixed + rest;
      MatchServices(names, services, rest);
      forall service, name ensures rest == service + "/" + name <==>
                                   path == "/api/rpc" + ProcedurePath(package, service, name) {
        assert "/api/rpc" + ProcedurePath(package, service, name) == fixed + (service + "/" + name);
        assert (fixed + (service + "/" + name))[|fixed|..] == service + "/" + name;
      }
    }
    forall service, name | path == "/api/rpc" + ProcedurePath(package, service, name)
      ensures fixed <= path {
      assert path == fixed + (service + "/" + name);
    }
  }

  lemma RoleTailOk(names: seq<string>, services: Services)
    requires Listed(names, services)
    ensures (names != [] && forall n :: n in names ==> n in services && services[n] != []) &&
            BranchOk(Choice(ServiceBranches(names, services)))
  {
    ListedNames(names, services);
    var branches := ServiceBranches(names, services);
    forall i | 0 <= i < |branches| ensures BranchOk(branches[i]) {
      WordsOk(services[names[i]]);
    }
    AltsOfOk(branches);
  }

  lemma WordsOk(words: seq<string>)
    requires words != []
    ensures AltsOk(AltsOf(Words(words))) && BranchOk(Choice(Words(words)))
  {
    forall i | 0 <= i < |words| ensures BranchOk(Words(words)[i]) {
      assert AtomOk(Literal(words[i])) && BranchOk(End);
    }
    AltsOfOk(Words(words));
  }

  // The whole language of the written text: the public or the internal API origin, then the path
  // of a declared procedure.
  lemma RoleLanguage(routes: Routes, package: string, names: seq<string>, services: Services, url: string)
    requires Listed(names, services)
    ensures MatchesUrl(RpcPattern(routes, package, names, services), url) <==>
            exists origin :: origin in [TrimSpace(routes.api), TrimSpace(routes.apiInternal)] && origin <= url &&
                             IsProcedure(services, package, url[|origin|..])
  {
    var pattern := RpcPattern(routes, package, names, services);
    RoleTailOk(names, services);
    PatternLanguage(pattern, url);
    forall origin | origin in Origins(pattern.source) && origin <= url
      ensures OnPath(pattern, url[|origin|..]) <==> IsProcedure(services, package, url[|origin|..]) {
      RolePath(routes, package, names, services, url[|origin|..]);
    }
  }
}
