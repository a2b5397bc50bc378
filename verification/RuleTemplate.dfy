// The generated rule file as a whole, and what rendering makes of it: exactly
// when the result is the file generated for the deployment, and what it is
// when one header name holds the placeholder of the other.

module RuleTemplate {
  import opened Prelude
  import opened Text
  import opened Regexes
  import opened Sorting
  import opened RoleTables
  import opened RoleRules
  import opened AccessRules
  import opened Substitution
  import opened Renderer
  import opened Marks
  import opened AuthBoundary
  import opened RuleFile

  // ---------------------------------------------------------------- the file

  // The places that depend on the names, each between two stretches of text.
  datatype Cell = Rule(id: RuleId) | SiteUrl | AuthHeaderKey | InternalHeaderKey

  // The text before each cell, without the quotes, and after the last one.
  datatype Wording = Wording(before: Cell -> string, closing: string)

  const BASE_KINDS := [ApiHealth, SesCallback, Collab, CollabAdmin, RpcPreflight, UploadPreflight, BlockInternal,
                       AuthPreflight, AuthLogin, AuthLoginFlows, AuthSelfServiceRead, AuthSelfServiceSubmit,
                       AuthSessions, AuthSchemas, AuthHealth, AuthWebauthn]
  const ROLE_ORDER := [Admin, Author, User]
  const TAIL_CELLS := [Rule(Static(McpPreflight)), Rule(Static(Mcp)), SiteUrl, AuthHeaderKey, InternalHeaderKey,
                       Rule(Static(OpenApi)), Rule(Static(UploadSource)), Rule(Static(UploadEndpoint))]

  function StaticCells(kinds: seq<Kind>): seq<Cell> {
    seq(|kinds|, i requires 0 <= i < |kinds| => Rule(Static(kinds[i])))
  }

  // Only roles with a procedure have a rule.
  function RoleCells(table: RoleTable, roles: seq<Role>): seq<Cell> {
    if roles == [] then []
    else (if roles[0] in table then [Rule(Manage(roles[0]))] else []) + RoleCells(table, roles[1..])
  }

  function Cells(table: RoleTable): seq<Cell> {
    StaticCells(BASE_KINDS) + RoleCells(table, ROLE_ORDER) + TAIL_CELLS
  }

  predicate CellOf(table: RoleTable, cell: Cell) {
    cell.Rule? && cell.id.Manage? ==> cell.id.role in table
  }

  ghost predicate CellsOf(table: RoleTable, cells: seq<Cell>) {
    forall i :: 0 <= i < |cells| ==> CellOf(table, cells[i])
  }

  // The sorted services of a role, as writeRoleRule lists them.
  ghost function SortedNames(services: Services): (names: seq<string>)
    requires NonEmpty(services)
    ensures Listed(names, services) && Sorted(names)
  {
    ListingExists(services);
    var names :| Listed(names, services) && Sorted(names);
    names
  }

  lemma ListingExists(services: Services)
    requires NonEmpty(services)
    ensures exists names :: Listed(names, services) && Sorted(names)
  {
    var names := SortedListing(services.Keys);
    assert Listed(names, services);
  }

  ghost function RoleUrl(services: Services): Part
    requires NonEmpty(services)
  {
    var names := SortedNames(services);
    ListedNames(names, services);
    Url(true, PackagePath("manage"), Choice(ServiceBranches(names, services)))
  }

  lemma TableEntry(table: RoleTable, role: Role)
    requires NoEmptyEntry(table) && role in table
    ensures NonEmpty(table[role])
  {
    var service :| service in table[role];
    assert service in table[role].Keys;
  }

  ghost function CellPart(table: RoleTable, cell: Cell): Part
    requires NoEmptyEntry(table) && CellOf(table, cell)
  {
    match cell
    case Rule(Static(kind)) => RuleUrl(kind)
    case Rule(Manage(role)) => TableEntry(table, role); RoleUrl(table[role])
    case SiteUrl => Site
    case AuthHeaderKey => AuthHeader
    case InternalHeaderKey => InternalHeader
  }

  // Each part is the URL matcher of its rule.
  lemma CellPattern(table: RoleTable, cell: Cell, names: Names)
    requires NoEmptyEntry(table) && CellOf(table, cell) && cell.Rule?
    ensures CellPart(table, cell).Url?
    ensures match cell.id
            case Static(kind) => UrlPattern(CellPart(table, cell), names) == StaticPattern(RoutesOf(names), kind)
            case Manage(role) =>
              exists listed :: Listed(listed, table[role]) && Sorted(listed) &&
                UrlPattern(CellPart(table, cell), names) == RpcPattern(RoutesOf(names), "manage", listed, table[role])
  {
    if cell.id.Manage? {
      TableEntry(table, cell.id.role);
      var listed := SortedNames(table[cell.id.role]);
      RoleUrlPattern(names, listed, table[cell.id.role]);
    } else {
      RuleUrlPattern(cell.id.kind, names);
    }
  }

  // What follows a cell: the closing quote, or the rest of a URL and the quote.
  function Follow(cell: Cell): string {
    if cell == SiteUrl then "/.well-known/oauth-protected-resource/mcp'" else "'"
  }

  ghost function PartsFrom(w: Wording, table: RoleTable, lead: string, cells: seq<Cell>): seq<Part>
    requires NoEmptyEntry(table) && CellsOf(table, cells)
    decreases |cells|
  {
    if cells == [] then [Plain(lead + w.closing)]
    else
      [Plain(lead + w.before(cells[0]) + "'"), CellPart(table, cells[0])]
      + PartsFrom(w, table, Follow(cells[0]), cells[1..])
  }

  lemma {:induction false} RoleCellsOf(table: RoleTable, roles: seq<Role>)
    ensures CellsOf(table, RoleCells(table, roles))
  {
    if roles != [] {
      RoleCellsOf(table, roles[1..]);
    }
  }

  lemma CellsOfTable(table: RoleTable)
    ensures CellsOf(table, Cells(table))
  {
    RoleCellsOf(table, ROLE_ORDER);
  }

  ghost function FileParts(w: Wording, table: RoleTable): seq<Part>
    requires NoEmptyEntry(table)
  {
    CellsOfTable(table);
    PartsFrom(w, table, "", Cells(table))
  }

  // The file for a deployment, and for the template.
  ghost function File(w: Wording, table: RoleTable, names: Names): string
    requires NoEmptyEntry(table)
  {
    Generated(FileParts(w, table), names)
  }

  function Template(internal: string): Names {
    Names(SITE_ORIGIN, internal, AUTH_HEADER, INTERNAL_HEADER)
  }

  const SITE_MARKS := Placeholders(QUOTED_SITE, SITE_ORIGIN, AUTH_HEADER, INTERNAL_HEADER)

  function Values(names: Names): map<string, string> {
    Replacements(SITE_MARKS, names)
  }

  ghost function FileLayout(w: Wording, table: RoleTable, internal: string): seq<Segment>
    requires NoEmptyEntry(table)
  {
    Layout(FileParts(w, table), SITE_MARKS, internal)
  }

  // ---------------------------------------------------------------- seams of the file

  ghost predicate Joined(a: Segment, b: Segment, values: map<string, string>) {
    forall x, y :: Reads(a, values, x) && Reads(b, values, y) ==> EndsSafely(x) || StartsSafely(y)
  }

  ghost predicate AllJoined(layout: seq<Segment>, values: map<string, string>) {
    forall j :: 0 <= j < |layout| - 1 ==> Joined(layout[j], layout[j + 1], values)
  }

  lemma JoinTwo(a: seq<Segment>, b: seq<Segment>, values: map<string, string>)
    requires a != [] && b != [] && AllJoined(a, values) && AllJoined(b, values)
    requires Joined(a[|a| - 1], b[0], values)
    ensures AllJoined(a + b, values)
  {
    var both := a + b;
    forall j | 0 <= j < |both| - 1 ensures Joined(both[j], both[j + 1], values) {
      if j >= |a| {
        assert both[j] == b[j - |a|] && both[j + 1] == b[j - |a| + 1];
      }
    }
  }

  // Text that ends with a quote may stand before anything, and a hole or the
  // end of a matcher before what follows a cell.
  lemma AfterQuote(text: string, b: Segment, values: map<string, string>)
    requires text != "" && text[|text| - 1] in {'\'', '<', '>'}
    ensures Joined(Fixed(text), b, values)
  {
  }

  lemma BeforeSafe(a: Segment, text: string, values: map<string, string>)
    requires StartsSafely(text)
    ensures Joined(a, Fixed(text), values)
  {
  }

  predicate SafePrefix(s: string) {
    |s| > 1 && s[0] == '/' && s[1] in {'a', 'c', 'h', 'm'}
  }

  predicate SafeUrl(part: Part) {
    part.Url? ==> SafePrefix(part.prefix)
  }

  lemma PrefixSafe(kind: Kind)
    ensures SafePrefix(PrefixOf(kind))
  {
  }

  lemma CellPartSafe(table: RoleTable, cell: Cell)
    requires NoEmptyEntry(table) && CellOf(table, cell)
    ensures SafeUrl(CellPart(table, cell)) && !CellPart(table, cell).Plain?
  {
    if cell.Rule? {
      if cell.id.Static? {
        PrefixSafe(cell.id.kind);
      } else {
        ManagePartSafe(table, cell.id.role);
      }
    }
  }

  lemma ManagePartSafe(table: RoleTable, role: Role)
    requires NoEmptyEntry(table) && role in table
    ensures SafeUrl(CellPart(table, Rule(Manage(role)))) && CellPart(table, Rule(Manage(role))).Url?
  {
    assert CellPart(table, Rule(Manage(role))).prefix == PackagePath("manage");
    assert PackagePath("manage")[1] == 'a';
  }

  lemma UrlEndSafe(part: Part)
    requires part.Url? && SafeUrl(part)
    ensures StartsSafely(UrlEnd(part)) && UrlEnd(part)[|UrlEnd(part)| - 1] == '>'
  {
    var quoted := QuoteMeta(part.prefix);
    assert quoted == QuoteChr(part.prefix[0]) + QuoteMeta(part.prefix[1..]);
    assert QuoteMeta(part.prefix[1..]) == QuoteChr(part.prefix[1]) + QuoteMeta(part.prefix[1..][1..]);
    assert quoted[0] == '/' && quoted[1] == part.prefix[1];
  }

  lemma PartJoined(part: Part, marks: Placeholders, internal: string, values: map<string, string>)
    requires SafeUrl(part) && !part.Plain?
    ensures PartLayout(part, marks, internal) != [] && AllJoined(PartLayout(part, marks, internal), values)
  {
    if part.Url? {
      UrlJoined(part, marks, internal, values);
    }
  }

  lemma UrlJoined(part: Part, marks: Placeholders, internal: string, values: map<string, string>)
    requires part.Url? && SafeUrl(part)
    ensures AllJoined(PartLayout(part, marks, internal), values)
  {
    var layout := PartLayout(part, marks, internal);
    if part.internalToo {
      var other := QuoteMeta(TrimSpace(internal)) + QuoteMeta("/api/rpc");
      BaseSafe(other, UrlEnd(part));
      ThreeJoined("<(?:", layout[1], layout[2].text, values);
    } else {
      UrlEndSafe(part);
      ThreeJoined("<", layout[1], layout[2].text, values);
    }
  }

  lemma BaseSafe(other: string, end: string)
    ensures StartsSafely(QuoteMeta("/api/rpc") + "|" + other + ")" + end)
  {
    var base := "/api/rpc";
    assert QuoteMeta(base) == base by { QuotePlain(base); }
  }

  lemma ThreeJoined(open: string, hole: Segment, end: string, values: map<string, string>)
    requires EndsSafely(open) && StartsSafely(end)
    ensures AllJoined([Fixed(open), hole, Fixed(end)], values)
  {
    var layout := [Fixed(open), hole, Fixed(end)];
    assert Joined(layout[0], layout[1], values);
    assert Joined(layout[1], layout[2], values);
  }

  lemma FollowJoined(table: RoleTable, cell: Cell, text: string, marks: Placeholders, internal: string, values: map<string, string>)
    requires NoEmptyEntry(table) && CellOf(table, cell) && Follow(cell) <= text
    ensures var layout := PartLayout(CellPart(table, cell), marks, internal);
            layout != [] && Joined(layout[|layout| - 1], Fixed(text), values)
  {
    var follow := Follow(cell);
    assert text[0] == follow[0] && (|follow| > 1 ==> text[1] == follow[1]);
    assert StartsSafely(text);
  }

  lemma InFront(text: string, part: seq<Segment>, tail: seq<Segment>, values: map<string, string>)
    requires text != "" && text[|text| - 1] == '\''
    requires part != [] && tail != [] && AllJoined(part, values) && AllJoined(tail, values)
    requires Joined(part[|part| - 1], tail[0], values)
    ensures AllJoined([Fixed(text)] + (part + tail), values)
  {
    JoinTwo(part, tail, values);
    AfterQuote(text, part[0], values);
    JoinTwo([Fixed(text)], part + tail, values);
  }

  ghost predicate JoinedFrom(layout: seq<Segment>, lead: string, values: map<string, string>) {
    layout != [] && layout[0].Fixed? && lead <= layout[0].text && AllJoined(layout, values)
  }

  lemma {:induction false} CellsJoined(w: Wording, table: RoleTable, lead: string, cells: seq<Cell>, marks: Placeholders, internal: string,
                                       values: map<string, string>)
    requires NoEmptyEntry(table) && CellsOf(table, cells)
    ensures JoinedFrom(Layout(PartsFrom(w, table, lead, cells), marks, internal), lead, values)
    decreases |cells|
  {
    if cells == [] {
      var last := [Plain(lead + w.closing)];
      assert last[1..] == [];
      assert Layout(last, marks, internal) == [Fixed(lead + w.closing)] + [];
    } else {
      var cell := cells[0];
      var rest := PartsFrom(w, table, Follow(cell), cells[1..]);
      CellsJoined(w, table, Follow(cell), cells[1..], marks, internal, values);
      OneCellJoined(w, table, lead, cell, rest, marks, internal, values);
    }
  }

  lemma OneCellJoined(w: Wording, table: RoleTable, lead: string, cell: Cell, rest: seq<Part>, marks: Placeholders, internal: string,
                      values: map<string, string>)
    requires NoEmptyEntry(table) && CellOf(table, cell) && JoinedFrom(Layout(rest, marks, internal), Follow(cell), values)
    ensures JoinedFrom(Layout([Plain(lead + w.before(cell) + "'"), CellPart(table, cell)] + rest, marks, internal), lead, values)
  {
    var text, part, tail := lead + w.before(cell) + "'", CellPart(table, cell), Layout(rest, marks, internal);
    LayoutOfTwo(text, part, rest, marks, internal);
    CellPartSafe(table, cell);
    PartJoined(part, marks, internal, values);
    FollowJoined(table, cell, tail[0].text, marks, internal, values);
    InFront(text, PartLayout(part, marks, internal), tail, values);
    assert lead <= text;
  }

  lemma LayoutOfTwo(text: string, part: Part, rest: seq<Part>, marks: Placeholders, internal: string)
    ensures Layout([Plain(text), part] + rest, marks, internal) ==
            [Fixed(text)] + (PartLayout(part, marks, internal) + Layout(rest, marks, internal))
  {
    var parts := [Plain(text), part] + rest;
    assert parts[1..] == [part] + rest && parts[1..][1..] == rest;
  }

  // ---------------------------------------------------------------- holes of the file

  ghost predicate KeyedBy(layout: seq<Segment>, keys: seq<string>) {
    forall segment :: segment in layout && segment.Hole? ==> segment.key in keys
  }

  lemma {:induction false} LayoutKeyed(parts: seq<Part>, marks: Placeholders, internal: string)
    ensures KeyedBy(Layout(parts, marks, internal), marks.All())
  {
    if parts != [] {
      LayoutKeyed(parts[1..], marks, internal);
      PartKeyed(parts[0], marks, internal);
      KeyedConcat(PartLayout(parts[0], marks, internal), Layout(parts[1..], marks, internal), marks.All());
    }
  }

  lemma PartKeyed(part: Part, marks: Placeholders, internal: string)
    ensures KeyedBy(PartLayout(part, marks, internal), marks.All())
  {
    var all := marks.All();
    assert all[0] in all && all[1] in all && all[2] in all && all[3] in all;
  }

  lemma KeyedConcat(a: seq<Segment>, b: seq<Segment>, keys: seq<string>)
    requires KeyedBy(a, keys) && KeyedBy(b, keys)
    ensures KeyedBy(a + b, keys)
  {
    forall segment: Segment | segment in a + b && segment.Hole? ensures segment.key in keys {
      assert segment in a || segment in b;
    }
  }

  lemma {:induction false} PartInLayout(parts: seq<Part>, marks: Placeholders, internal: string, part: Part, segment: Segment)
    requires part in parts && segment in PartLayout(part, marks, internal)
    ensures segment in Layout(parts, marks, internal)
  {
    var first, rest := PartLayout(parts[0], marks, internal), Layout(parts[1..], marks, internal);
    if part != parts[0] {
      assert part in parts[1..] by { assert parts == [parts[0]] + parts[1..]; }
      PartInLayout(parts[1..], marks, internal, part, segment);
    }
    assert segment in first + rest;
  }

  lemma {:induction false} CellInParts(w: Wording, table: RoleTable, lead: string, cells: seq<Cell>, cell: Cell)
    requires NoEmptyEntry(table) && CellsOf(table, cells) && cell in cells
    ensures CellOf(table, cell) && CellPart(table, cell) in PartsFrom(w, table, lead, cells)
    decreases |cells|
  {
    var first := [Plain(lead + w.before(cells[0]) + "'"), CellPart(table, cells[0])];
    var rest := PartsFrom(w, table, Follow(cells[0]), cells[1..]);
    if cell == cells[0] {
      assert first[1] in first;
    } else {
      assert cell in cells[1..] by { assert cells == [cells[0]] + cells[1..]; }
      CellInParts(w, table, Follow(cells[0]), cells[1..], cell);
      assert CellPart(table, cell) in rest;
    }
    assert CellPart(table, cell) in first + rest;
  }

  function CellKey(cell: Cell, marks: Placeholders): string {
    match cell
    case Rule(_) => marks.quotedSite
    case SiteUrl => marks.site
    case AuthHeaderKey => marks.authHeader
    case InternalHeaderKey => marks.internalHeader
  }

  lemma CellHole(table: RoleTable, cell: Cell, marks: Placeholders, internal: string)
    requires NoEmptyEntry(table) && CellOf(table, cell)
    ensures Hole(CellKey(cell, marks)) in PartLayout(CellPart(table, cell), marks, internal)
  {
    var part, hole := CellPart(table, cell), Hole(CellKey(cell, marks));
    assert PartLayout(part, marks, internal)[if cell.Rule? then 1 else 0] == hole;
  }

  lemma CellShown(w: Wording, table: RoleTable, marks: Placeholders, internal: string, cell: Cell)
    requires NoEmptyEntry(table) && cell in Cells(table)
    ensures Hole(CellKey(cell, marks)) in Layout(FileParts(w, table), marks, internal)
  {
    CellsOfTable(table);
    CellInParts(w, table, "", Cells(table), cell);
    CellHole(table, cell, marks, internal);
    PartInLayout(FileParts(w, table), marks, internal, CellPart(table, cell), Hole(CellKey(cell, marks)));
  }

  // Every placeholder has a use in the file.
  lemma EachKeyUsed(w: Wording, table: RoleTable, marks: Placeholders, internal: string)
    requires NoEmptyEntry(table)
    ensures forall key :: key in marks.All() ==> Hole(key) in Layout(FileParts(w, table), marks, internal)
  {
    forall cell | cell in TAIL_CELLS ensures Hole(CellKey(cell, marks)) in Layout(FileParts(w, table), marks, internal) {
      assert cell in Cells(table);
      CellShown(w, table, marks, internal, cell);
    }
    AllKeys(marks);
  }

  lemma AllKeys(marks: Placeholders)
    ensures forall key :: key in marks.All() ==> exists cell :: cell in TAIL_CELLS && CellKey(cell, marks) == key
  {
    assert TAIL_CELLS[0].Rule? && TAIL_CELLS[2] == SiteUrl;
    assert TAIL_CELLS[3] == AuthHeaderKey && TAIL_CELLS[4] == InternalHeaderKey;
    assert CellKey(TAIL_CELLS[0], marks) == marks.quotedSite;
    assert CellKey(SiteUrl, marks) == marks.site;
    assert CellKey(AuthHeaderKey, marks) == marks.authHeader && CellKey(InternalHeaderKey, marks) == marks.internalHeader;
  }

  // ---------------------------------------------------------------- values

  lemma MarksDiffer()
    ensures NoDuplicates(SITE_MARKS.All())
  {
    assert |QUOTED_SITE| == 30 && |SITE_ORIGIN| == 28 && |AUTH_HEADER| == 20 && |INTERNAL_HEADER| == 32;
  }

  // The first key is the quoted template origin.
  lemma TemplateMarks(internal: string)
    ensures TemplateOf(Template(internal), SITE_MARKS, internal)
  {
    QuotedSiteIs();
    TrimmedSite();
  }

  lemma TrimmedSite()
    ensures TrimSpace(SITE_ORIGIN) == SITE_ORIGIN
  {
    KeepsTrimmed(SITE_ORIGIN);
  }

  lemma KeepsTrimmed(s: string)
    requires s != "" && !IsSpace(s[0]) && !IsSpace(s[|s| - 1])
    ensures TrimSpace(s) == s
  {
  }

  // What a deployer chooses: a trimmed origin without a backslash, and tokens.
  predicate Deployable(names: Names) {
    && TrimSpace(names.site) == names.site && '\\' !in names.site
    && IsToken(names.authHeader) && IsToken(names.internalHeader)
  }

  ghost predicate UnmarkedNames(names: Names) {
    Unmarked(names.site) && Unmarked(names.authHeader) && Unmarked(names.internalHeader)
  }

  ghost predicate ClearValues(values: map<string, string>) {
    forall key :: key in values ==> Clear(values[key])
  }

  lemma TokenClear(name: string)
    requires IsToken(name) && Unmarked(name)
    ensures Clear(name)
  {
    assert QUOTED_SITE[6] == '/';
    CharMissing(name, QUOTED_SITE, '/');
    ClearMeaning(name);
  }

  lemma SiteClear(site: string)
    requires '\\' !in site && Unmarked(site)
    ensures Clear(site)
  {
    assert QUOTED_SITE[12] == '\\';
    CharMissing(site, QUOTED_SITE, '\\');
    ClearMeaning(site);
  }

  lemma ValuesClear(marks: Placeholders, names: Names)
    requires Deployable(names) && UnmarkedNames(names)
    ensures ClearValues(Replacements(marks, names))
  {
    SiteClear(names.site);
    QuotedIsClear(names.site);
    TokenClear(names.authHeader);
    TokenClear(names.internalHeader);
  }

  ghost predicate ClearTexts(layout: seq<Segment>) {
    forall j :: 0 <= j < |layout| && layout[j].Fixed? ==> Clear(layout[j].text)
  }

  // ---------------------------------------------------------------- the file is well formed

  lemma ReadingQuiet(segment: Segment, values: map<string, string>, p: string)
    requires p in MARKS && segment != Hole(p)
    requires segment.Fixed? ==> Clear(segment.text)
    requires segment.Hole? ==> segment.key in KEYS
    requires ClearValues(values)
    ensures Quiet(segment, values, p)
  {
    if segment.Hole? {
      KeyHoldsNoMark(segment.key, p);
    }
  }

  lemma JoinedIsParted(a: Segment, b: Segment, values: map<string, string>, p: string)
    requires p in MARKS && Joined(a, b, values)
    ensures Parted(a, b, values, p)
  {
    MarksSafe(p);
    forall x, y | Reads(a, values, x) && Reads(b, values, y) ensures CleanSeam(x, y, p) {
      SafeIsClean(x, y, p);
    }
  }

  lemma ClearOfMark(layout: seq<Segment>, values: map<string, string>, p: string)
    requires p in MARKS && AllJoined(layout, values) && ClearTexts(layout) && ClearValues(values)
    requires KeyedBy(layout, KEYS)
    ensures ClearOf(layout, values, p)
  {
    forall j | 0 <= j < |layout| && layout[j] != Hole(p) ensures Quiet(layout[j], values, p) {
      assert layout[j] in layout;
      ReadingQuiet(layout[j], values, p);
    }
    forall j | 0 <= j < |layout| - 1 && layout[j] != Hole(p) ensures Parted(layout[j], layout[j + 1], values, p) {
      JoinedIsParted(layout[j], layout[j + 1], values, p);
    }
  }

  lemma SeamlessFile(layout: seq<Segment>, values: map<string, string>, done: map<string, string>, p: string)
    requires p in MARKS && AllJoined(layout, values) && Within(done, values)
    ensures Seamless(layout, done, p)
  {
    MarksSafe(p);
    forall j | 0 <= j < |layout| - 1 ensures CleanSeam(Shown(layout[j], done), Shown(layout[j + 1], done), p) {
      ShownIsRead(layout[j], done, values);
      ShownIsRead(layout[j + 1], done, values);
      assert Joined(layout[j], layout[j + 1], values);
      SafeIsClean(Shown(layout[j], done), Shown(layout[j + 1], done), p);
    }
  }

  // What is used of the file: its seams, its texts and its holes.
  ghost predicate Laid(layout: seq<Segment>, values: map<string, string>) {
    && AllJoined(layout, values) && ClearTexts(layout) && KeyedBy(layout, KEYS)
    && (forall key :: key in KEYS ==> Hole(key) in layout)
  }

  lemma FileIsLaid(w: Wording, table: RoleTable, internal: string, values: map<string, string>)
    requires NoEmptyEntry(table) && ClearTexts(FileLayout(w, table, internal))
    ensures Laid(FileLayout(w, table, internal), values)
  {
    CellsOfTable(table);
    CellsJoined(w, table, "", Cells(table), SITE_MARKS, internal, values);
    LayoutKeyed(FileParts(w, table), SITE_MARKS, internal);
    EachKeyUsed(w, table, SITE_MARKS, internal);
    assert SITE_MARKS.All() == KEYS;
  }

  lemma ValuesKeyed(names: Names)
    ensures forall key :: key in Values(names) <==> key in KEYS
    ensures forall key :: key in KEYS ==> key in MARKS && key != ""
  {
    assert SITE_MARKS.All() == KEYS;
    assert LEFTOVERS[0] == SITE_ORIGIN && LEFTOVERS[5] == AUTH_HEADER && LEFTOVERS[6] == INTERNAL_HEADER;
    assert MARKS[8] == QUOTED_SITE;
    assert forall p :: p in LEFTOVERS ==> p in MARKS;
  }

  lemma LaidIsWellFormed(layout: seq<Segment>, names: Names)
    requires Laid(layout, Values(names)) && ClearValues(Values(names))
    ensures WellFormed(layout, Values(names))
  {
    var values := Values(names);
    ValuesKeyed(names);
    forall p | p in values ensures p != "" && ClearOf(layout, values, p) {
      ClearOfMark(layout, values, p);
    }
    forall j | 0 <= j < |layout| && layout[j].Hole? ensures layout[j].key in values {
      assert layout[j] in layout;
    }
  }

  // ---------------------------------------------------------------- rendering commutes with generation

  lemma LaidShowsNoMark(layout: seq<Segment>, names: Names, p: string)
    requires Laid(layout, Values(names)) && ClearValues(Values(names)) && p in MARKS && p != ""
    ensures !Contains(Show(layout, Values(names)), p)
  {
    var values := Values(names);
    ValuesKeyed(names);
    SeamlessFile(layout, values, values, p);
    forall j | 0 <= j < |layout| ensures !Contains(Shown(layout[j], values), p) {
      assert layout[j] in layout;
    }
    NowhereShown(layout, values, p);
  }

  lemma LeftoversAreMarks(p: string)
    requires p in LEFTOVERS
    ensures p in MARKS && p != ""
  {
    assert p in MARKS;
    MarksSafe(p);
  }

  lemma FileUnmarked(w: Wording, table: RoleTable, names: Names)
    requires NoEmptyEntry(table) && ClearTexts(FileLayout(w, table, names.internal))
    requires Deployable(names) && UnmarkedNames(names)
    ensures Unmarked(File(w, table, names))
  {
    var layout := FileLayout(w, table, names.internal);
    FileIsLaid(w, table, names.internal, Values(names));
    ValuesClear(SITE_MARKS, names);
    MarksDiffer();
    ReadsAsNames(SITE_MARKS, names);
    FileShown(FileParts(w, table), SITE_MARKS, Values(names), names);
    forall p | p in LEFTOVERS ensures !Contains(File(w, table, names), p) {
      LeftoversAreMarks(p);
      LaidShowsNoMark(layout, names, p);
    }
  }

  // With names free of placeholders the template is rendered to the file
  // generated for them, in any order of the replacements.
  lemma UnmarkedNamesRender(w: Wording, table: RoleTable, names: Names, order: seq<string>)
    requires NoEmptyEntry(table) && ClearTexts(FileLayout(w, table, names.internal))
    requires Deployable(names) && UnmarkedNames(names)
    requires Enumerates(order, Values(names).Keys)
    ensures forall p :: p in order ==> p != "" && p in Values(names)
    ensures Rendered(File(w, table, Template(names.internal)), order, Values(names)) == Ok(File(w, table, names))
  {
    var layout := FileLayout(w, table, names.internal);
    FileIsLaid(w, table, names.internal, Values(names));
    ValuesClear(SITE_MARKS, names);
    LaidIsWellFormed(layout, names);
    TemplateMarks(names.internal);
    MarksDiffer();
    RenderingCommutesWithGeneration(FileParts(w, table), Template(names.internal), SITE_MARKS, names, order);
    ValuesKeyed(names);
    FileUnmarked(w, table, names);
  }

  // A file that holds a name with a placeholder in it is never the result.
  lemma MarkedNamesDoNot(w: Wording, table: RoleTable, names: Names, p: string)
    requires NoEmptyEntry(table) && Deployable(names)
    requires p in LEFTOVERS
    requires Contains(names.site, p) || Contains(names.authHeader, p) || Contains(names.internalHeader, p)
    ensures Contains(File(w, table, names), p)
  {
    var layout, values := FileLayout(w, table, names.internal), Values(names);
    MarksDiffer();
    ReadsAsNames(SITE_MARKS, names);
    FileShown(FileParts(w, table), SITE_MARKS, values, names);
    EachKeyUsed(w, table, SITE_MARKS, names.internal);
    var key := if Contains(names.site, p) then SITE_MARKS.site
               else if Contains(names.authHeader, p) then SITE_MARKS.authHeader else SITE_MARKS.internalHeader;
    assert key in SITE_MARKS.All() by { KeyAmong(SITE_MARKS); }
    var j :| 0 <= j < |layout| && layout[j] == Hole(key);
    ShownInside(layout, values, j, p);
  }

  lemma KeyAmong(marks: Placeholders)
    ensures marks.site in marks.All() && marks.authHeader in marks.All() && marks.internalHeader in marks.All()
  {
    assert marks.All()[1] == marks.site && marks.All()[2] == marks.authHeader && marks.All()[3] == marks.internalHeader;
  }

  // The two stages agree exactly for names free of placeholders: whatever the
  // texts between the cells and the internal origin, as long as they hold none,
  // and in every order of the replacements.
  lemma RenderingTheRuleFile(w: Wording, table: RoleTable, names: Names, order: seq<string>)
    requires NoEmptyEntry(table) && ClearTexts(FileLayout(w, table, names.internal)) && Deployable(names)
    requires Enumerates(order, Values(names).Keys)
    ensures forall p :: p in order ==> p != "" && p in Values(names)
    ensures Rendered(File(w, table, Template(names.internal)), order, Values(names)) == Ok(File(w, table, names)) <==>
            UnmarkedNames(names)
  {
    OrderedKeys(names, order);
    if UnmarkedNames(names) {
      UnmarkedNamesRender(w, table, names, order);
    } else {
      var p :| p in LEFTOVERS &&
               (Contains(names.site, p) || Contains(names.authHeader, p) || Contains(names.internalHeader, p));
      MarkedNamesDoNot(w, table, names, p);
      LeftoverMeaning(File(w, table, names), LEFTOVERS);
    }
  }

  lemma OrderedKeys(names: Names, order: seq<string>)
    requires Enumerates(order, Values(names).Keys)
    ensures forall p :: p in order ==> p != "" && p in Values(names)
  {
    ValuesKeyed(names);
    assert forall p :: p in order ==> p in Elements(order);
  }

  // ---------------------------------------------------------------- a header name with a placeholder in it

  const LONGEST_FIRST := [INTERNAL_HEADER, QUOTED_SITE, SITE_ORIGIN, AUTH_HEADER]

  // No two placeholders are equally long, so the sort leaves one order.
  lemma OneLongestFirst(names: Names, order: seq<string>)
    requires Enumerates(order, Values(names).Keys) && LongestFirst(order)
    ensures order == LONGEST_FIRST
  {
    KeyLengths();
    ValuesKeyed(names);
    FourKeys(names, order);
    OnlySorting(order);
  }

  lemma KeyLengths()
    ensures |INTERNAL_HEADER| == 32 && |QUOTED_SITE| == 30 && |SITE_ORIGIN| == 28 && |AUTH_HEADER| == 20
  {
  }

  lemma FourKeys(names: Names, order: seq<string>)
    requires Enumerates(order, Values(names).Keys)
    ensures |order| == 4 && forall key :: key in order <==> key in KEYS
  {
    ValuesKeyed(names);
    assert forall key :: key in order <==> key in Elements(order);
    assert forall key :: key in KEYS <==> key in Elements(KEYS);
    assert Elements(order) == Elements(KEYS);
    DistinctCount(order);
    MarksDiffer();
    assert SITE_MARKS.All() == KEYS;
    DistinctCount(KEYS);
  }

  lemma OnlySorting(order: seq<string>)
    requires |order| == 4 && NoDuplicates(order) && LongestFirst(order) && forall key :: key in order <==> key in KEYS
    requires |INTERNAL_HEADER| == 32 && |QUOTED_SITE| == 30 && |SITE_ORIGIN| == 28 && |AUTH_HEADER| == 20
    ensures order == LONGEST_FIRST
  {
    assert forall i :: 0 <= i < 4 ==> order[i] in order && order[i] in KEYS;
    assert KEYS[0] in order && KEYS[1] in order && KEYS[2] in order && KEYS[3] in order;
    assert order[0] == INTERNAL_HEADER;
    assert order[3] == AUTH_HEADER;
  }

  // One replacement over the file, told by what it does to the four holes.
  lemma ReplaceInFile(layout: seq<Segment>, values: map<string, string>, done: map<string, string>, p: string, v: string,
                      filled: map<string, string>)
    requires Laid(layout, values) && Within(done, values) && p in KEYS && p in MARKS && p != "" && p !in done
    requires forall key :: key in KEYS ==> ReplaceAll(Shown(Hole(key), done), p, v) == Shown(Hole(key), filled)
    ensures Contains(Show(layout, done), p) && ReplaceAll(Show(layout, done), p, v) == Show(layout, filled)
  {
    SeamlessFile(layout, values, done, p);
    forall j | 0 <= j < |layout| ensures ReplaceAll(Shown(layout[j], done), p, v) == Shown(layout[j], filled) {
      assert layout[j] in layout;
      if layout[j].Fixed? {
        ReplaceNone(layout[j].text, p, v);
      }
    }
    ReplaceSegments(layout, done, p, v, filled);
    var j :| 0 <= j < |layout| && layout[j] == Hole(p);
    assert p <= p;
    ShownInside(layout, done, j, p);
  }

  // The first three placeholders meet no text that holds them.
  lemma PlainStep(layout: seq<Segment>, values: map<string, string>, done: map<string, string>, p: string)
    requires Laid(layout, values) && Within(done, values) && p in KEYS && p in MARKS && p != "" && p in values && p !in done
    requires forall key :: key in done ==> !Contains(done[key], p)
    ensures Contains(Show(layout, done), p)
    ensures ReplaceAll(Show(layout, done), p, values[p]) == Show(layout, done[p := values[p]])
  {
    var filled := done[p := values[p]];
    forall key | key in KEYS ensures ReplaceAll(Shown(Hole(key), done), p, values[p]) == Shown(Hole(key), filled) {
      if key == p {
        ReplaceWhole(p, values[p]);
      } else {
        KeyHoldsNoMark(key, p);
        ReplaceNone(Shown(Hole(key), done), p, values[p]);
      }
    }
    ReplaceInFile(layout, values, done, p, values[p], filled);
  }

  // No mark but that of the authentication header.
  ghost predicate OnlyAuthMark(name: string) {
    forall p :: p in LEFTOVERS && p != AUTH_HEADER ==> !Contains(name, p)
  }

  function Twice(names: Names): Names {
    names.(internalHeader := ReplaceAll(names.internalHeader, AUTH_HEADER, names.authHeader))
  }

  lemma ReplaceFour(t: string, t1: string, t2: string, t3: string, values: map<string, string>)
    requires forall p :: p in LONGEST_FIRST ==> p != "" && p in values
    requires Contains(t, INTERNAL_HEADER) && t1 == ReplaceAll(t, INTERNAL_HEADER, values[INTERNAL_HEADER])
    requires Contains(t1, QUOTED_SITE) && t2 == ReplaceAll(t1, QUOTED_SITE, values[QUOTED_SITE])
    requires Contains(t2, SITE_ORIGIN) && t3 == ReplaceAll(t2, SITE_ORIGIN, values[SITE_ORIGIN])
    requires Contains(t3, AUTH_HEADER)
    ensures ReplaceInOrder(t, LONGEST_FIRST, values) == Ok(ReplaceAll(t3, AUTH_HEADER, values[AUTH_HEADER]))
  {
    var none: seq<string> := [];
    var last, two, three := [AUTH_HEADER], [SITE_ORIGIN, AUTH_HEADER], [QUOTED_SITE, SITE_ORIGIN, AUTH_HEADER];
    assert LONGEST_FIRST[1..] == three && three[1..] == two && two[1..] == last && last[1..] == none;
    assert ReplaceInOrder(t3, last, values) == Ok(ReplaceAll(t3, AUTH_HEADER, values[AUTH_HEADER]));
    assert ReplaceInOrder(t2, two, values) == ReplaceInOrder(t3, last, values);
    assert ReplaceInOrder(t1, three, values) == ReplaceInOrder(t2, two, values);
  }

  // After three replacements, with the internal name as it was given.
  function DoneBefore(names: Names): map<string, string> {
    map[INTERNAL_HEADER := names.internalHeader][QUOTED_SITE := QuoteMeta(names.site)][SITE_ORIGIN := names.site]
  }

  lemma DoneWithin(names: Names)
    ensures Within(DoneBefore(names), Values(names)) && AUTH_HEADER !in DoneBefore(names)
    ensures DoneBefore(names)[INTERNAL_HEADER] == names.internalHeader
    ensures DoneBefore(names)[QUOTED_SITE] == QuoteMeta(names.site) && DoneBefore(names)[SITE_ORIGIN] == names.site
  {
    KeyLengths();
  }

  lemma FirstTwo(layout: seq<Segment>, names: Names)
    requires Laid(layout, Values(names)) && Deployable(names) && OnlyAuthMark(names.internalHeader)
    ensures var none: map<string, string> := map[];
            var one := none[INTERNAL_HEADER := names.internalHeader];
            && Contains(Show(layout, none), INTERNAL_HEADER)
            && ReplaceAll(Show(layout, none), INTERNAL_HEADER, names.internalHeader) == Show(layout, one)
            && Contains(Show(layout, one), QUOTED_SITE)
            && ReplaceAll(Show(layout, one), QUOTED_SITE, QuoteMeta(names.site)) ==
               Show(layout, one[QUOTED_SITE := QuoteMeta(names.site)])
  {
    ValuesKeyed(names);
    ValuesOf(names);
    TokenHoldsNoOrigin(names.internalHeader);
    var none: map<string, string> := map[];
    PlainStep(layout, Values(names), none, INTERNAL_HEADER);
    PlainStep(layout, Values(names), none[INTERNAL_HEADER := names.internalHeader], QUOTED_SITE);
  }

  lemma ThirdStep(layout: seq<Segment>, names: Names)
    requires Laid(layout, Values(names)) && Deployable(names) && Unmarked(names.site) && OnlyAuthMark(names.internalHeader)
    ensures var two := map[INTERNAL_HEADER := names.internalHeader][QUOTED_SITE := QuoteMeta(names.site)];
            && Contains(Show(layout, two), SITE_ORIGIN)
            && ReplaceAll(Show(layout, two), SITE_ORIGIN, names.site) == Show(layout, DoneBefore(names))
  {
    ValuesKeyed(names);
    ValuesOf(names);
    HeldMarks(names);
    PlainStep(layout, Values(names), map[INTERNAL_HEADER := names.internalHeader][QUOTED_SITE := QuoteMeta(names.site)],
              SITE_ORIGIN);
  }

  lemma ValuesOf(names: Names)
    ensures forall p :: p in LONGEST_FIRST ==> p in Values(names)
    ensures Values(names)[QUOTED_SITE] == QuoteMeta(names.site) && Values(names)[SITE_ORIGIN] == names.site
    ensures Values(names)[AUTH_HEADER] == names.authHeader && Values(names)[INTERNAL_HEADER] == names.internalHeader
  {
    KeyLengths();
  }

  lemma HeldMarks(names: Names)
    requires Deployable(names) && Unmarked(names.site) && OnlyAuthMark(names.internalHeader)
    ensures !Contains(names.internalHeader, QUOTED_SITE) && !Contains(names.internalHeader, SITE_ORIGIN)
    ensures !Contains(QuoteMeta(names.site), SITE_ORIGIN)
    ensures !Contains(QuoteMeta(names.site), AUTH_HEADER) && !Contains(names.site, AUTH_HEADER)
  {
    TokenHoldsNoOrigin(names.internalHeader);
    SiteHoldsNoKey(names.site);
  }

  lemma TokenHoldsNoOrigin(name: string)
    requires IsToken(name)
    ensures !Contains(name, QUOTED_SITE) && !Contains(name, SITE_ORIGIN)
  {
    assert QUOTED_SITE[6] == '/' && SITE_ORIGIN[6] == '/';
    CharMissing(name, QUOTED_SITE, '/');
    CharMissing(name, SITE_ORIGIN, '/');
  }

  lemma SiteHoldsNoKey(site: string)
    requires Unmarked(site)
    ensures !Contains(QuoteMeta(site), SITE_ORIGIN)
    ensures !Contains(QuoteMeta(site), AUTH_HEADER) && !Contains(site, AUTH_HEADER)
  {
    QuotedIsClear(site);
    assert LEFTOVERS[0] == SITE_ORIGIN && LEFTOVERS[5] == AUTH_HEADER;
    assert forall p :: p in LEFTOVERS ==> p in MARKS;
  }

  // What comes out is the file with the internal name after a replacement of
  // its own.
  lemma OutcomeLongestFirst(w: Wording, table: RoleTable, names: Names)
    requires NoEmptyEntry(table) && ClearTexts(FileLayout(w, table, names.internal)) && Deployable(names)
    requires Unmarked(names.site) && OnlyAuthMark(names.internalHeader)
    ensures forall p :: p in LONGEST_FIRST ==> p != "" && p in Values(names)
    ensures ReplaceInOrder(File(w, table, Template(names.internal)), LONGEST_FIRST, Values(names)) ==
            Ok(File(w, table, Twice(names)))
  {
    FileIsLaid(w, table, names.internal, Values(names));
    LayoutOutcome(FileLayout(w, table, names.internal), names);
    TemplateMarks(names.internal);
    ReadsAsTemplate(Template(names.internal), SITE_MARKS, names.internal);
    FileShown(FileParts(w, table), SITE_MARKS, map[], Template(names.internal));
    MarksDiffer();
    ReadsAsNames(SITE_MARKS, Twice(names));
    FileShown(FileParts(w, table), SITE_MARKS, Values(Twice(names)), Twice(names));
  }

  lemma LayoutOutcome(layout: seq<Segment>, names: Names)
    requires Laid(layout, Values(names)) && Deployable(names) && Unmarked(names.site) && OnlyAuthMark(names.internalHeader)
    ensures forall p :: p in LONGEST_FIRST ==> p != "" && p in Values(names)
    ensures ReplaceInOrder(Show(layout, map[]), LONGEST_FIRST, Values(names)) == Ok(Show(layout, Values(Twice(names))))
  {
    ValuesKeyed(names);
    ValuesOf(names);
    FirstTwo(layout, names);
    ThirdStep(layout, names);
    LastStep(layout, names);
    var none: map<string, string> := map[];
    var one := none[INTERNAL_HEADER := names.internalHeader];
    ReplaceFour(Show(layout, none), Show(layout, one), Show(layout, one[QUOTED_SITE := QuoteMeta(names.site)]),
                Show(layout, DoneBefore(names)), Values(names));
  }

  lemma LastStep(layout: seq<Segment>, names: Names)
    requires Laid(layout, Values(names)) && Deployable(names) && Unmarked(names.site) && OnlyAuthMark(names.internalHeader)
    ensures Contains(Show(layout, DoneBefore(names)), AUTH_HEADER)
    ensures ReplaceAll(Show(layout, DoneBefore(names)), AUTH_HEADER, names.authHeader) == Show(layout, Values(Twice(names)))
  {
    var done, filled := DoneBefore(names), Values(Twice(names));
    DoneWithin(names);
    ValuesKeyed(names);
    ValuesOf(Twice(names));
    HeldMarks(names);
    assert AUTH_HEADER == KEYS[2];
    forall key | key in KEYS
      ensures ReplaceAll(Shown(Hole(key), done), AUTH_HEADER, names.authHeader) == Shown(Hole(key), filled) {
      if key == AUTH_HEADER {
        ReplaceWhole(AUTH_HEADER, names.authHeader);
      } else if key != INTERNAL_HEADER {
        ReplaceNone(done[key], AUTH_HEADER, names.authHeader);
      }
    }
    ReplaceInFile(layout, Values(names), done, AUTH_HEADER, names.authHeader, filled);
  }

  // Files for different internal names differ.
  lemma {:induction false} InternalNameShows(parts: seq<Part>, names: Names, other: string)
    requires InternalHeader in parts && other != names.internalHeader
    ensures Generated(parts, names) != Generated(parts, names.(internalHeader := other))
  {
    var changed := names.(internalHeader := other);
    if |names.internalHeader| < |other| {
      LongerName(parts, names, other);
    } else if |other| < |names.internalHeader| {
      LongerName(parts, changed, names.internalHeader);
    } else {
      SameLengthDiffers(parts, names, other);
    }
  }

  lemma {:induction false} LongerName(parts: seq<Part>, names: Names, other: string)
    requires |names.internalHeader| < |other|
    ensures var long := Generated(parts, names.(internalHeader := other));
            |Generated(parts, names)| <= |long| && (InternalHeader in parts ==> |Generated(parts, names)| < |long|)
  {
    if parts != [] {
      LongerName(parts[1..], names, other);
      OtherParts(parts[0], names, other);
      assert parts == [parts[0]] + parts[1..];
    }
  }

  lemma OtherParts(part: Part, names: Names, other: string)
    ensures part != InternalHeader ==> PartText(part, names) == PartText(part, names.(internalHeader := other))
  {
  }

  lemma {:induction false} SameLengthDiffers(parts: seq<Part>, names: Names, other: string)
    requires InternalHeader in parts && other != names.internalHeader && |other| == |names.internalHeader|
    ensures Generated(parts, names) != Generated(parts, names.(internalHeader := other))
  {
    var changed, rest := names.(internalHeader := other), parts[1..];
    var head, head' := PartText(parts[0], names), PartText(parts[0], changed);
    OtherParts(parts[0], names, other);
    if parts[0] != InternalHeader {
      assert InternalHeader in rest by { assert parts == [parts[0]] + rest; }
      SameLengthDiffers(rest, names, other);
    }
    SplitAlike(head, Generated(rest, names), head', Generated(rest, changed));
  }

  lemma SplitAlike(a: string, b: string, a': string, b': string)
    requires |a| == |a'| && (a != a' || b != b')
    ensures a + b != a' + b'
  {
    assert a == (a + b)[..|a|] && a' == (a' + b')[..|a|];
    assert b == (a + b)[|a|..] && b' == (a' + b')[|a|..];
  }

  lemma InternalHeaderInFile(w: Wording, table: RoleTable)
    requires NoEmptyEntry(table)
    ensures InternalHeader in FileParts(w, table)
  {
    CellsOfTable(table);
    assert TAIL_CELLS[4] == InternalHeaderKey;
    assert InternalHeaderKey in Cells(table);
    CellInParts(w, table, "", Cells(table), InternalHeaderKey);
  }

  lemma {:induction false} TokenAfterReplace(s: string, p: string, v: string)
    requires p != "" && IsToken(v) && forall c :: c in s ==> IsTokenChar(c)
    ensures forall c :: c in ReplaceAll(s, p, v) ==> IsTokenChar(c)
    ensures s != "" ==> ReplaceAll(s, p, v) != ""
    decreases |s|
  {
    if s == "" {
    } else if p <= s {
      TokenAfterReplace(s[|p|..], p, v);
    } else {
      assert s[0] in s;
      TokenAfterReplace(s[1..], p, v);
    }
  }

  // The order that the sort leaves puts the other name into an internal name
  // that holds its placeholder. The renderer accepts the result unless that
  // made a mark, and it is the wanted file only when the placeholder was not
  // there.
  lemma HeaderNameIsSubstitutedTwice(w: Wording, table: RoleTable, names: Names, order: seq<string>)
    requires NoEmptyEntry(table) && ClearTexts(FileLayout(w, table, names.internal)) && Deployable(names)
    requires Unmarked(names.site) && Unmarked(names.authHeader) && OnlyAuthMark(names.internalHeader)
    requires Enumerates(order, Values(names).Keys) && LongestFirst(order)
    ensures forall p :: p in order ==> p != "" && p in Values(names)
    ensures ReplaceInOrder(File(w, table, Template(names.internal)), order, Values(names)) ==
            Ok(File(w, table, Twice(names)))
    ensures Rendered(File(w, table, Template(names.internal)), order, Values(names)) == Ok(File(w, table, Twice(names))) <==>
            Unmarked(Twice(names).internalHeader)
    ensures File(w, table, Twice(names)) == File(w, table, names) <==> !Contains(names.internalHeader, AUTH_HEADER)
  {
    OneLongestFirst(names, order);
    OutcomeLongestFirst(w, table, names);
    TwiceUnmarked(w, table, names);
    TwiceDiffers(w, table, names);
  }

  lemma TwiceUnmarked(w: Wording, table: RoleTable, names: Names)
    requires NoEmptyEntry(table) && ClearTexts(FileLayout(w, table, names.internal)) && Deployable(names)
    requires Unmarked(names.site) && Unmarked(names.authHeader)
    ensures Leftover(File(w, table, Twice(names)), LEFTOVERS) == None <==> Unmarked(Twice(names).internalHeader)
  {
    var twice := Twice(names);
    TokenAfterReplace(names.internalHeader, AUTH_HEADER, names.authHeader);
    LeftoverMeaning(File(w, table, twice), LEFTOVERS);
    if Unmarked(twice.internalHeader) {
      FileUnmarked(w, table, twice);
    } else {
      var p :| p in LEFTOVERS && Contains(twice.internalHeader, p);
      MarkedNamesDoNot(w, table, twice, p);
    }
  }

  lemma TwiceDiffers(w: Wording, table: RoleTable, names: Names)
    requires NoEmptyEntry(table) && Unmarked(names.authHeader)
    ensures File(w, table, Twice(names)) == File(w, table, names) <==> !Contains(names.internalHeader, AUTH_HEADER)
  {
    HoldsItself(names.authHeader);
    ReplaceNothing(names.internalHeader, AUTH_HEADER, names.authHeader);
    InternalHeaderInFile(w, table);
    if Contains(names.internalHeader, AUTH_HEADER) {
      InternalNameShows(FileParts(w, table), names, Twice(names).internalHeader);
    }
  }

  lemma HoldsItself(name: string)
    requires Unmarked(name)
    ensures name != AUTH_HEADER
  {
    assert LEFTOVERS[5] == AUTH_HEADER;
    assert Contains(name, name) by { assert name <= name; }
  }
}
