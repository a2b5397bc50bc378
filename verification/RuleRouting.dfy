// Routing by the rule file as it is written: the matchers between its angle
// brackets, in the order of the file, before and after rendering.

module RuleRouting {
  import opened Prelude
  import opened Text
  import opened Regexes
  import opened RulePatterns
  import opened Sorting
  import opened RoleTables
  import opened RoleRules
  import opened AccessRules
  import opened StaticRules
  import opened Renderer
  import opened RuleFile
  import opened RuleTemplate

  function VerbsOf(id: RuleId): set<Verb> {
    match id
    case Static(kind) => Verbs(kind)
    case Manage(_) => {POST}
  }

  // The text that stands at this place of the file matches the request.
  ghost predicate CellMatches(table: RoleTable, names: Names, cell: Cell, verb: Verb, url: string)
    requires NoEmptyEntry(table) && CellOf(table, cell)
  {
    && cell.Rule? && verb in VerbsOf(cell.id)
    && exists text :: PartText(CellPart(table, cell), names) == "<" + text + ">" && TextMatches(text, url)
  }

  lemma BetweenBrackets(text: string, other: string)
    requires "<" + text + ">" == "<" + other + ">"
    ensures text == other
  {
    assert text == ("<" + text + ">")[1..|text| + 1];
    assert other == ("<" + other + ">")[1..|other| + 1];
  }

  lemma CellText(table: RoleTable, names: Names, cell: Cell, verb: Verb, url: string)
    requires NoEmptyEntry(table) && CellOf(table, cell) && cell.Rule?
    ensures CellPart(table, cell).Url?
    ensures CellMatches(table, names, cell, verb, url) <==>
            verb in VerbsOf(cell.id) && MatchesUrl(UrlPattern(CellPart(table, cell), names), url)
  {
    CellPattern(table, cell, names);
    var part := CellPart(table, cell);
    var text := UrlText(UrlPattern(part, names));
    assert PartText(part, names) == "<" + text + ">";
    forall other | PartText(part, names) == "<" + other + ">" ensures other == text {
      BetweenBrackets(other, text);
    }
  }

  // A place of the file matches what the rule of its kind or role matches.
  lemma CellIsRule(table: RoleTable, names: Names, cell: Cell, verb: Verb, url: string)
    requires NoEmptyEntry(table) && CellOf(table, cell) && cell.Rule?
    ensures CellMatches(table, names, cell, verb, url) <==> Matches(RoutesOf(names), table, cell.id, verb, url)
  {
    CellText(table, names, cell, verb, url);
    if cell.id.Manage? {
      RoleCellIsRule(table, names, cell.id.role, url);
    } else {
      StaticCellPattern(table, names, cell.id.kind);
    }
  }

  lemma StaticCellPattern(table: RoleTable, names: Names, kind: Kind)
    requires NoEmptyEntry(table)
    ensures CellPart(table, Rule(Static(kind))).Url?
    ensures UrlPattern(CellPart(table, Rule(Static(kind))), names) == StaticPattern(RoutesOf(names), kind)
  {
    CellPattern(table, Rule(Static(kind)), names);
  }

  lemma RoleCellIsRule(table: RoleTable, names: Names, role: Role, url: string)
    requires NoEmptyEntry(table) && role in table
    ensures CellPart(table, Rule(Manage(role))).Url?
    ensures MatchesUrl(UrlPattern(CellPart(table, Rule(Manage(role))), names), url) <==>
            RoleMatches(RoutesOf(names), table[role], url)
  {
    CellPattern(table, Rule(Manage(role)), names);
    var listed :| Listed(listed, table[role]) && Sorted(listed) &&
                  UrlPattern(CellPart(table, Rule(Manage(role))), names) ==
                  RpcPattern(RoutesOf(names), "manage", listed, table[role]);
    forall other | Listed(other, table[role]) && Sorted(other) ensures other == listed {
      OneSortedListing(other, listed, table[role].Keys);
    }
  }

  // ---------------------------------------------------------------- the order of the file

  function KindRank(kind: Kind): nat {
    match kind
    case ApiHealth => 0
    case SesCallback => 1
    case Collab => 2
    case CollabAdmin => 3
    case RpcPreflight => 4
    case UploadPreflight => 5
    case BlockInternal => 6
    case AuthPreflight => 7
    case AuthLogin => 8
    case AuthLoginFlows => 9
    case AuthSelfServiceRead => 10
    case AuthSelfServiceSubmit => 11
    case AuthSessions => 12
    case AuthSchemas => 13
    case AuthHealth => 14
    case AuthWebauthn => 15
    case McpPreflight => 19
    case Mcp => 20
    case OpenApi => 24
    case UploadSource => 25
    case UploadEndpoint => 26
  }

  // Later places of the file have higher ranks.
  function Rank(cell: Cell): nat {
    match cell
    case Rule(Static(kind)) => KindRank(kind)
    case Rule(Manage(role)) => if role == Admin then 16 else if role == Author then 17 else 18
    case SiteUrl => 21
    case AuthHeaderKey => 22
    case InternalHeaderKey => 23
  }

  ghost predicate Ascending(cells: seq<Cell>, low: nat, high: nat) {
    && (forall i :: 0 <= i < |cells| ==> low <= Rank(cells[i]) < high)
    && (forall i, j :: 0 <= i < j < |cells| ==> Rank(cells[i]) < Rank(cells[j]))
  }

  lemma AscendingConcat(a: seq<Cell>, b: seq<Cell>, low: nat, middle: nat, high: nat)
    requires Ascending(a, low, middle) && Ascending(b, middle, high) && low <= middle <= high
    ensures Ascending(a + b, low, high)
  {
  }

  lemma BaseAscending()
    ensures Ascending(StaticCells(BASE_KINDS), 0, 16)
  {
    assert forall i :: 0 <= i < |BASE_KINDS| ==> KindRank(BASE_KINDS[i]) == i;
    assert forall i :: 0 <= i < |BASE_KINDS| ==> Rank(StaticCells(BASE_KINDS)[i]) == i;
  }

  lemma {:induction false} RolesAscending(table: RoleTable, roles: seq<Role>, low: nat)
    requires forall i :: 0 <= i < |roles| ==> Rank(Rule(Manage(roles[i]))) == low + i
    ensures Ascending(RoleCells(table, roles), low, low + |roles|)
  {
    if roles != [] {
      RolesAscending(table, roles[1..], low + 1);
      var first := if roles[0] in table then [Rule(Manage(roles[0]))] else [];
      AscendingConcat(first, RoleCells(table, roles[1..]), low, low + 1, low + |roles|);
    }
  }

  lemma TailAscending()
    ensures Ascending(TAIL_CELLS, 19, 27)
  {
    assert forall i :: 0 <= i < |TAIL_CELLS| ==> Rank(TAIL_CELLS[i]) == 19 + i;
  }

  // No rule stands twice in the file.
  lemma CellsDiffer(table: RoleTable)
    ensures NoDuplicates(Cells(table))
  {
    BaseAscending();
    RolesAscending(table, ROLE_ORDER, 16);
    TailAscending();
    AscendingConcat(StaticCells(BASE_KINDS), RoleCells(table, ROLE_ORDER), 0, 16, 19);
    AscendingConcat(StaticCells(BASE_KINDS) + RoleCells(table, ROLE_ORDER), TAIL_CELLS, 0, 19, 27);
  }

  // ---------------------------------------------------------------- one rule for a request

  ghost predicate MatchesAt(table: RoleTable, names: Names, i: nat, verb: Verb, url: string)
    requires NoEmptyEntry(table) && i < |Cells(table)|
  {
    CellsOfTable(table);
    CellMatches(table, names, Cells(table)[i], verb, url)
  }

  // No request is matched at two places of the file.
  lemma OnePlaceMatches(table: RoleTable, declared: seq<Declaration>, names: Names, verb: Verb, url: string,
                        i: nat, j: nat)
    requires RoutesOk(RoutesOf(names)) && Tabulates(table, declared) && OneRoleEach(declared)
    requires i < |Cells(table)| && j < |Cells(table)|
    requires MatchesAt(table, names, i, verb, url) && MatchesAt(table, names, j, verb, url)
    ensures i == j
  {
    CellsOfTable(table);
    var cell, other := Cells(table)[i], Cells(table)[j];
    CellIsRule(table, names, cell, verb, url);
    CellIsRule(table, names, other, verb, url);
    AtMostOneRule(RoutesOf(names), table, declared, verb, url, cell.id, other.id);
    CellsDiffer(table);
  }

  lemma {:induction false} RoleHasCell(table: RoleTable, roles: seq<Role>, role: Role)
    requires role in roles && role in table
    ensures Rule(Manage(role)) in RoleCells(table, roles)
  {
    var first := if roles[0] in table then [Rule(Manage(roles[0]))] else [];
    if role == roles[0] {
      assert first[0] == Rule(Manage(role));
    } else {
      assert role in roles[1..] by { assert roles == [roles[0]] + roles[1..]; }
      RoleHasCell(table, roles[1..], role);
    }
    assert Rule(Manage(role)) in first + RoleCells(table, roles[1..]);
  }

  // POST to a declared procedure, on either API origin, is matched at exactly
  // one place of the file, the rule of its role.
  lemma ProcedureHasOnePlace(table: RoleTable, declared: seq<Declaration>, names: Names, d: Declaration,
                             origin: string) returns (i: nat)
    requires RoutesOk(RoutesOf(names)) && Tabulates(table, declared) && OneRoleEach(declared)
    requires AllAllowed(declared) && d in declared
    requires origin in [TrimSpace(names.site), TrimSpace(names.internal)]
    ensures i < |Cells(table)| && d.access.Some? && Cells(table)[i] == Rule(Manage(d.access.value))
    ensures var url := origin + ("/api/rpc" + ProcedurePath("manage", d.service, d.name));
            forall j: nat :: j < |Cells(table)| ==> (MatchesAt(table, names, j, POST, url) <==> j == i)
  {
    var url := origin + ("/api/rpc" + ProcedurePath("manage", d.service, d.name));
    assert Allowed(d.access);
    var role := d.access.value;
    EveryProcedureIsRouted(RoutesOf(names), table, declared, d, origin, Manage(role));
    RoleHasCell(table, ROLE_ORDER, role);
    assert Rule(Manage(role)) in Cells(table);
    i :| 0 <= i < |Cells(table)| && Cells(table)[i] == Rule(Manage(role));
    CellIsRule(table, names, Rule(Manage(role)), POST, url);
    forall j: nat | j < |Cells(table)| && MatchesAt(table, names, j, POST, url) ensures j == i {
      OnePlaceMatches(table, declared, names, POST, url, i, j);
    }
  }

  lemma KindHasCell(table: RoleTable, kind: Kind)
    ensures Rule(Static(kind)) in Cells(table)
  {
    if KindRank(kind) < 16 {
      assert BASE_KINDS[KindRank(kind)] == kind;
      assert StaticCells(BASE_KINDS)[KindRank(kind)] == Rule(Static(kind));
      assert Rule(Static(kind)) in StaticCells(BASE_KINDS);
    } else {
      assert TAIL_CELLS[KindRank(kind) - 19] == Rule(Static(kind));
      assert Rule(Static(kind)) in TAIL_CELLS;
    }
  }

  // A request that a fixed rule is for is matched at exactly one place of the
  // file, that rule.
  lemma FixedRequestHasOnePlace(table: RoleTable, declared: seq<Declaration>, names: Names, kind: Kind, verb: Verb,
                                origin: string, path: string) returns (i: nat)
    requires RoutesOk(RoutesOf(names)) && Tabulates(table, declared) && OneRoleEach(declared)
    requires ForVerb(kind, verb) && ForOrigin(RoutesOf(names), kind, origin) && ForPath(kind, path)
    ensures i < |Cells(table)| && Cells(table)[i] == Rule(Static(kind))
    ensures forall j: nat :: j < |Cells(table)| ==> (MatchesAt(table, names, j, verb, origin + path) <==> j == i)
  {
    var url := origin + path;
    assert origin <= url && url[|origin|..] == path;
    StaticRuleExactly(RoutesOf(names), table, kind, verb, url);
    KindHasCell(table, kind);
    i :| 0 <= i < |Cells(table)| && Cells(table)[i] == Rule(Static(kind));
    CellIsRule(table, names, Rule(Static(kind)), verb, url);
    forall j: nat | j < |Cells(table)| && MatchesAt(table, names, j, verb, url) ensures j == i {
      OnePlaceMatches(table, declared, names, verb, url, i, j);
    }
  }

  // The file that rendering gives to a deployment with clean names is that file,
  // so each request of the deployment meets at most one of its rules.
  lemma RenderedFileRoutesOnce(w: Wording, table: RoleTable, declared: seq<Declaration>, names: Names,
                               order: seq<string>, verb: Verb, url: string, i: nat, j: nat)
    requires Tabulates(table, declared) && OneRoleEach(declared) && RoutesOk(RoutesOf(names))
    requires ClearTexts(FileLayout(w, table, names.internal)) && Deployable(names) && UnmarkedNames(names)
    requires Enumerates(order, Values(names).Keys)
    requires i < |Cells(table)| && j < |Cells(table)|
    ensures forall p :: p in order ==> p != "" && p in Values(names)
    ensures Rendered(File(w, table, Template(names.internal)), order, Values(names)) == Ok(File(w, table, names))
    ensures MatchesAt(table, names, i, verb, url) && MatchesAt(table, names, j, verb, url) ==> i == j
  {
    UnmarkedNamesRender(w, table, names, order);
    if MatchesAt(table, names, i, verb, url) && MatchesAt(table, names, j, verb, url) {
      OnePlaceMatches(table, declared, names, verb, url, i, j);
    }
  }
}
