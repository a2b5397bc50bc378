// A deployment that meets every condition of the rule template, and the wrong
// file it is given when one header name is the placeholder of the other.

module RuleSample {
  import opened Prelude
  import opened Text
  import opened Regexes
  import opened RoleTables
  import opened RoleRules
  import opened AccessRules
  import opened Substitution
  import opened Renderer
  import opened Marks
  import opened AuthBoundary
  import opened RuleFile
  import opened RuleTemplate

  // For any file the placeholder of the authentication header is an accepted
  // internal name, and the renderer returns the file with the authentication
  // header in both places.
  lemma PlaceholderAsInternalName(w: Wording, table: RoleTable, names: Names, sessionCookie: string, order: seq<string>)
    requires NoEmptyEntry(table) && ClearTexts(FileLayout(w, table, names.internal))
    requires TrimSpace(names.site) == names.site && '\\' !in names.site && Unmarked(names.site)
    requires NewNames(names.authHeader, AUTH_HEADER, sessionCookie).Ok? && Unmarked(names.authHeader)
    requires names.internalHeader == AUTH_HEADER
    requires Enumerates(order, Values(names).Keys) && LongestFirst(order)
    ensures forall p :: p in order ==> p != "" && p in Values(names)
    ensures var wrong := File(w, table, names.(internalHeader := names.authHeader));
            && Rendered(File(w, table, Template(names.internal)), order, Values(names)) == Ok(wrong)
            && wrong != File(w, table, names)
  {
    AcceptedNames(names.authHeader, AUTH_HEADER, sessionCookie);
    forall p | p in LEFTOVERS && p != AUTH_HEADER ensures !Contains(AUTH_HEADER, p) {
      LeftoversAreMarks(p);
      HeaderHoldsNoMark(AUTH_HEADER, p);
    }
    ReplaceWhole(AUTH_HEADER, names.authHeader);
    assert Twice(names) == names.(internalHeader := names.authHeader);
    HeaderNameIsSubstitutedTwice(w, table, names, order);
    assert Contains(AUTH_HEADER, AUTH_HEADER) by { SelfContained(AUTH_HEADER); }
  }

  lemma SelfContained(s: string)
    ensures Contains(s, s)
  {
    assert s <= s;
  }

  // ---------------------------------------------------------------- texts without an underscore or an x

  predicate PlainText(s: string) {
    '_' !in s && 'x' !in s
  }

  // Each mark has an underscore or the x of "example".
  lemma PlainIsClear(s: string)
    requires PlainText(s)
    ensures Clear(s)
  {
    forall p | p in MARKS ensures !Contains(s, p) {
      EachMark(p);
      if p in NAMED {
        NamedCapitals(p);
        CharMissing(s, p, '_');
      } else {
        assert SITE_ORIGIN[14] == 'x' && ISSUER_ORIGIN[13] == 'x' && QUOTED_SITE[15] == 'x';
        CharMissing(s, p, 'x');
      }
    }
  }

  lemma {:induction false} QuotedPlainText(s: string)
    requires PlainText(s)
    ensures PlainText(QuoteMeta(s))
  {
    if s != "" {
      assert s[0] in s;
      QuotedPlainText(s[1..]);
    }
  }

  predicate PlainAtom(a: Atom) {
    match a
    case Chr(c) => c != '_' && c != 'x'
    case Literal(text) => PlainText(text)
    case AnyStar => true
    case SegmentPlus => true
    case Group(alts) => PlainAlts(alts)
    case Named(name, alts) => PlainText(name) && PlainAlts(alts)
    case Optional(alts) => PlainAlts(alts)
  }

  predicate PlainBranch(b: Branch) {
    match b
    case End => true
    case Then(head, tail) => PlainAtom(head) && PlainBranch(tail)
  }

  predicate PlainAlts(alts: Alts) {
    match alts
    case One(b) => PlainBranch(b)
    case Or(b, rest) => PlainBranch(b) && PlainAlts(rest)
  }

  lemma {:induction false} ShownAtomPlain(a: Atom)
    requires PlainAtom(a)
    ensures PlainText(ShowAtom(a))
    decreases a, 0
  {
    match a
    case Chr(c) => QuotedPlainText([c]);
    case Literal(text) => QuotedPlainText(text);
    case Group(alts) => ShownAltsPlain(alts);
    case Named(name, alts) => ShownAltsPlain(alts);
    case Optional(alts) => ShownAltsPlain(alts);
    case _ =>
  }

  lemma {:induction false} ShownBranchPlain(b: Branch)
    requires PlainBranch(b)
    ensures PlainText(ShowBranch(b))
    decreases b, 0
  {
    match b
    case End =>
    case Then(head, tail) =>
      ShownAtomPlain(head);
      ShownBranchPlain(tail);
  }

  lemma {:induction false} ShownAltsPlain(alts: Alts)
    requires PlainAlts(alts)
    ensures PlainText(ShowAlts(alts))
    decreases alts, 0
  {
    match alts
    case One(b) => ShownBranchPlain(b);
    case Or(b, rest) =>
      ShownBranchPlain(b);
      ShownAltsPlain(rest);
  }

  lemma {:induction false} WordsPlain(words: seq<string>)
    requires words != [] && forall i :: 0 <= i < |words| ==> PlainText(words[i])
    ensures PlainAlts(OneOf(words))
  {
    if |words| > 1 {
      WordsPlain(words[1..]);
      assert Words(words)[1..] == Words(words[1..]);
    }
  }

  lemma DocumentsPlain()
    ensures PlainAlts(OneOf(DOCUMENTS))
  {
    WordsPlain(DOCUMENTS);
  }

  lemma FirstAdminDocumentsPlain()
    ensures PlainText("page") && PlainText("menu") && PlainText("campaign") && PlainText("email-template")
    ensures PlainText("email-layout")
  {
  }

  lemma OtherAdminDocumentsPlain()
    ensures PlainText("terms-history") && PlainText("privacy-history") && PlainText("map-theme")
    ensures PlainText("program-event")
  {
  }

  lemma AdminDocumentsPlain()
    ensures PlainAlts(OneOf(ADMIN_DOCUMENTS))
  {
    FirstAdminDocumentsPlain();
    OtherAdminDocumentsPlain();
    WordsPlain(ADMIN_DOCUMENTS);
  }

  lemma DocumentTailPlain(types: seq<string>)
    requires types != [] && PlainAlts(OneOf(types))
    ensures PlainBranch(DocumentTail(types))
  {
    assert PlainAlts(SEGMENT);
  }

  lemma FlowsPlain()
    ensures PlainAlts(OneOf(FLOWS)) && PlainAlts(OneOf(["browser", "flows"]))
  {
    WordsPlain(FLOWS);
    WordsPlain(["browser", "flows"]);
  }

  lemma RoutesPlain()
    ensures PlainAlts(OneOf(["/browser"])) && PlainAlts(OneOf(["/flows"])) && PlainAlts(OneOf(["open", "manage"]))
  {
    WordsPlain(["/browser"]);
    WordsPlain(["/flows"]);
    WordsPlain(["open", "manage"]);
  }

  lemma WordPlain(word: string, rest: Branch)
    requires PlainText(word) && PlainBranch(rest)
    ensures PlainBranch(Word(word, rest))
  {
    assert PlainAtom(Literal(word));
  }

  lemma OtherFlowsPlain()
    ensures PlainAlts(OtherFlows())
  {
    RoutesPlain();
    WordPlain("logout", Then(Optional(OneOf(["/browser"])), End));
    WordPlain("errors", End);
    WordPlain("methods/oidc/callback/", Then(SegmentPlus, End));
  }

  lemma SelfServicePlain()
    ensures PlainAlts(SelfServiceReads()) && PlainAlts(SelfServiceAll())
  {
    FlowsPlain();
    OtherFlowsPlain();
    var leg := Then(Group(OneOf(["browser", "flows"])), End);
    assert PlainBranch(leg) && PlainBranch(Then(Chr('/'), leg));
    assert PlainAlts(One(Then(Chr('/'), leg)));
    assert PlainBranch(Suffixed(FLOWS, Optional(One(Then(Chr('/'), leg)))));
  }

  lemma OtherRoutesPlain()
    ensures PlainAlts(Or(Word("/sessions/", ANYTHING),
                         Or(Word("/schemas/", ANYTHING),
                            Or(Word("/health/", ANYTHING), One(Word("/.well-known/ory/webauthn.js", End))))))
  {
    assert PlainBranch(ANYTHING);
    WordPlain("/sessions/", ANYTHING);
    WordPlain("/schemas/", ANYTHING);
    WordPlain("/health/", ANYTHING);
    WordPlain("/.well-known/ory/webauthn.js", End);
  }

  lemma AuthRoutesPlain()
    ensures PlainAlts(AuthRoutes())
  {
    RoutesPlain();
    SelfServicePlain();
    OtherRoutesPlain();
    WordPlain("/login", Then(Optional(OneOf(["/flows"])), End));
    WordPlain("/self-service/", Then(Group(SelfServiceAll()), End));
  }

  lemma TailPlain(kind: Kind)
    ensures PlainBranch(TailOf(kind))
  {
    match kind
    case Collab => DocumentsPlain(); DocumentTailPlain(DOCUMENTS);
    case CollabAdmin => AdminDocumentsPlain(); DocumentTailPlain(ADMIN_DOCUMENTS);
    case RpcPreflight => RoutesPlain(); assert PlainBranch(Word(".v1.", ANYTHING));
    case AuthPreflight => AuthRoutesPlain();
    case AuthSelfServiceRead => SelfServicePlain();
    case AuthSelfServiceSubmit => FlowsPlain();
    case _ =>
  }

  lemma AuthPrefixPlain(kind: Kind)
    requires IsAuth(kind) && !kind.AuthWebauthn?
    ensures PlainText(PrefixOf(kind))
  {
  }

  lemma WebauthnPlain()
    ensures PlainText(PrefixOf(AuthWebauthn))
  {
  }

  lemma PrefixPlain(kind: Kind)
    ensures PlainText(PrefixOf(kind))
  {
    if kind == AuthWebauthn {
      WebauthnPlain();
    } else if IsAuth(kind) {
      AuthPrefixPlain(kind);
    } else {
      OtherPrefixPlain(kind);
    }
  }

  lemma OtherPrefixPlain(kind: Kind)
    requires !IsAuth(kind)
    ensures PlainText(PrefixOf(kind))
  {
  }

  lemma UrlEndPlain(kind: Kind)
    ensures PlainText(UrlEnd(RuleUrl(kind)))
  {
    PrefixPlain(kind);
    TailPlain(kind);
    EndPlain(RuleUrl(kind));
  }

  lemma EndPlain(url: Part)
    requires url.Url? && PlainText(url.prefix) && PlainBranch(url.tail)
    ensures PlainText(UrlEnd(url))
  {
    QuotedPlainText(url.prefix);
    ShownBranchPlain(url.tail);
  }

  ghost predicate PlainLayout(layout: seq<Segment>) {
    forall segment :: segment in layout && segment.Fixed? ==> PlainText(segment.text)
  }

  lemma PlainConcat(a: seq<Segment>, b: seq<Segment>)
    requires PlainLayout(a) && PlainLayout(b)
    ensures PlainLayout(a + b)
  {
    forall segment: Segment | segment in a + b && segment.Fixed? ensures PlainText(segment.text) {
      assert segment in a || segment in b;
    }
  }

  lemma BasePlain()
    ensures PlainText(QuoteMeta("/api/rpc"))
  {
    var base := "/api/rpc";
    assert PlainText(base);
    QuotedPlainText(base);
  }

  lemma UrlLayoutPlain(url: Part, marks: Placeholders, internal: string)
    requires url.Url? && PlainText(UrlEnd(url)) && PlainText(TrimSpace(internal))
    ensures PlainLayout(PartLayout(url, marks, internal))
  {
    BasePlain();
    QuotedPlainText(TrimSpace(internal));
    BothPlain(QuoteMeta("/api/rpc"), QuoteMeta(TrimSpace(internal)), UrlEnd(url));
    assert PlainText("<") && PlainText("<(?:");
    var layout := PartLayout(url, marks, internal);
    assert PlainText(layout[0].text) && PlainText(layout[2].text);
  }

  lemma BothPlain(base: string, internal: string, end: string)
    requires PlainText(base) && PlainText(internal) && PlainText(end)
    ensures PlainText(base + "|" + (internal + base) + ")" + end)
  {
    PlainJoin(internal, base);
    PlainJoin(base, "|");
    PlainJoin(base + "|", internal + base);
    PlainJoin(base + "|" + (internal + base), ")");
    PlainJoin(base + "|" + (internal + base) + ")", end);
  }

  lemma PlainJoin(a: string, b: string)
    requires PlainText(a) && PlainText(b)
    ensures PlainText(a + b)
  {
  }

  lemma FollowPlain(cell: Cell)
    ensures PlainText(Follow(cell))
  {
    var path, rest := "/.well-known/oauth-", "protected-resource/mcp'";
    assert PlainText(path) && PlainText(rest);
    PlainJoin(path, rest);
    assert Follow(SiteUrl) == path + rest;
  }

  lemma PartPlain(cell: Cell, marks: Placeholders, internal: string)
    requires CellOf(map[], cell) && PlainText(TrimSpace(internal))
    ensures PlainLayout(PartLayout(CellPart(map[], cell), marks, internal))
  {
    if cell.Rule? {
      UrlEndPlain(cell.id.kind);
      UrlLayoutPlain(RuleUrl(cell.id.kind), marks, internal);
    }
  }

  ghost predicate PlainWording(w: Wording) {
    PlainText(w.closing) && forall cell :: PlainText(w.before(cell))
  }

  lemma {:induction false} CellsPlain(w: Wording, lead: string, cells: seq<Cell>, marks: Placeholders, internal: string)
    requires PlainWording(w) && PlainText(lead) && PlainText(TrimSpace(internal))
    requires CellsOf(map[], cells)
    ensures PlainLayout(Layout(PartsFrom(w, map[], lead, cells), marks, internal))
    decreases |cells|
  {
    if cells == [] {
      var last := [Plain(lead + w.closing)];
      assert last[1..] == [];
      assert Layout(last, marks, internal) == [Fixed(lead + w.closing)] + [];
      PlainJoin(lead, w.closing);
    } else {
      var cell := cells[0];
      FollowPlain(cell);
      CellsPlain(w, Follow(cell), cells[1..], marks, internal);
      OneCellPlain(w, lead, cell, PartsFrom(w, map[], Follow(cell), cells[1..]), marks, internal);
    }
  }

  lemma OneCellPlain(w: Wording, lead: string, cell: Cell, rest: seq<Part>, marks: Placeholders, internal: string)
    requires PlainWording(w) && PlainText(lead) && PlainText(TrimSpace(internal)) && CellOf(map[], cell)
    requires PlainLayout(Layout(rest, marks, internal))
    ensures PlainLayout(Layout([Plain(lead + w.before(cell) + "'"), CellPart(map[], cell)] + rest, marks, internal))
  {
    var text, part := lead + w.before(cell) + "'", PartLayout(CellPart(map[], cell), marks, internal);
    PlainJoin(lead, w.before(cell));
    PlainJoin(lead + w.before(cell), "'");
    LayoutOfTwo(text, CellPart(map[], cell), rest, marks, internal);
    PartPlain(cell, marks, internal);
    PlainConcat(part, Layout(rest, marks, internal));
    PlainConcat([Fixed(text)], part + Layout(rest, marks, internal));
  }

  // ---------------------------------------------------------------- one deployment

  const SITE := "https://geul.org"
  const GATEWAY := "http://gateway:4455"
  const MEMBER := "X-Member"

  lemma LayoutClear(w: Wording, internal: string)
    requires PlainWording(w) && PlainText(TrimSpace(internal))
    ensures ClearTexts(FileLayout(w, map[], internal))
  {
    CellsOfTable(map[]);
    CellsPlain(w, "", Cells(map[]), SITE_MARKS, internal);
    var layout := FileLayout(w, map[], internal);
    forall j | 0 <= j < |layout| && layout[j].Fixed? ensures Clear(layout[j].text) {
      assert layout[j] in layout;
      PlainIsClear(layout[j].text);
    }
  }

  lemma SitePlain()
    ensures PlainText(SITE) && '\\' !in SITE
  {
  }

  lemma SiteTrimmed()
    ensures TrimSpace(SITE) == SITE
  {
    KeepsTrimmed(SITE);
  }

  lemma GatewayPlain()
    ensures PlainText(GATEWAY)
  {
  }

  lemma GatewayTrimmed()
    ensures TrimSpace(GATEWAY) == GATEWAY
  {
    KeepsTrimmed(GATEWAY);
  }

  lemma MemberToken()
    ensures IsToken(MEMBER) && PlainText(MEMBER)
  {
  }

  lemma MemberFree()
    ensures !IsReserved(MEMBER) && !EqualFold(MEMBER, AUTH_HEADER)
  {
    assert |ToLower(MEMBER)| == 8;
    assert forall r :: r in RESERVED ==> |ToLower(r)| != 8;
  }

  lemma PlainUnmarked(s: string)
    requires PlainText(s)
    ensures Unmarked(s)
  {
    PlainIsClear(s);
    ClearMeaning(s);
  }

  lemma SampleNames() returns (site: string, internal: string, member: string)
    ensures TrimSpace(site) == site && PlainText(site) && '\\' !in site
    ensures PlainText(TrimSpace(internal))
    ensures IsToken(member) && PlainText(member) && !IsReserved(member) && !EqualFold(member, AUTH_HEADER)
  {
    site, internal, member := SITE, GATEWAY, MEMBER;
    SitePlain();
    SiteTrimmed();
    GatewayPlain();
    GatewayTrimmed();
    MemberToken();
    MemberFree();
  }

  // A deployment that meets all conditions, with the placeholder of the
  // authentication header as internal name.
  lemma SampleConditions() returns (w: Wording, names: Names, sessionCookie: string)
    ensures ClearTexts(FileLayout(w, map[], names.internal))
    ensures TrimSpace(names.site) == names.site && '\\' !in names.site && Unmarked(names.site)
    ensures NewNames(names.authHeader, AUTH_HEADER, sessionCookie).Ok? && Unmarked(names.authHeader)
    ensures names.internalHeader == AUTH_HEADER
  {
    w := Wording((cell: Cell) => "", "");
    var site, internal, member := SampleNames();
    names, sessionCookie := Names(site, internal, member, AUTH_HEADER), member;
    LayoutClear(w, internal);
    PlainUnmarked(site);
    PlainUnmarked(member);
    PlaceholderIsFree();
    AcceptedNames(member, AUTH_HEADER, sessionCookie);
  }

  lemma SomeLongestFirst(names: Names) returns (order: seq<string>)
    ensures Enumerates(order, Values(names).Keys) && LongestFirst(order)
  {
    order := LONGEST_FIRST;
    KeyLengths();
    ValuesKeyed(names);
    assert forall key :: key in LONGEST_FIRST <==> key in KEYS;
    assert Elements(order) == Values(names).Keys;
  }

  // All conditions can be met, and then Render writes the wrong file.
  lemma SampleFails() returns (w: Wording, names: Names, sessionCookie: string, order: seq<string>)
    ensures NewNames(names.authHeader, names.internalHeader, sessionCookie).Ok?
    ensures Enumerates(order, Values(names).Keys) && LongestFirst(order)
    ensures forall p :: p in order ==> p != "" && p in Values(names)
    ensures var r := Rendered(File(w, map[], Template(names.internal)), order, Values(names));
            r.Ok? && r.value != File(w, map[], names)
  {
    w, names, sessionCookie := SampleConditions();
    order := SomeLongestFirst(names);
    PlaceholderAsInternalName(w, map[], names, sessionCookie, order);
  }
}
