// Collecting the manage-API procedures by access role from the proto files.
// The registry visits files in no fixed order; what is collected depends only
// on what is declared.

module Sorting {
  predicate LexLe(a: string, b: string) {
    a == "" || (b != "" && (a[0] < b[0] || (a[0] == b[0] && LexLe(a[1..], b[1..]))))
  }

  lemma {:induction false} LexTotal(a: string, b: string)
    ensures LexLe(a, b) || LexLe(b, a)
  {
    if a != "" && b != "" && a[0] == b[0] {
      LexTotal(a[1..], b[1..]);
    }
  }

  lemma {:induction false} LexAntisymmetric(a: string, b: string)
    requires LexLe(a, b) && LexLe(b, a)
    ensures a == b
  {
    if a != "" && b != "" {
      LexAntisymmetric(a[1..], b[1..]);
      assert a == [a[0]] + a[1..] && b == [b[0]] + b[1..];
    }
  }

  lemma {:induction false} LexTransitive(a: string, b: string, c: string)
    requires LexLe(a, b) && LexLe(b, c)
    ensures LexLe(a, c)
  {
    if a != "" && a[0] == b[0] == c[0] {
      LexTransitive(a[1..], b[1..], c[1..]);
    }
  }

  ghost predicate Sorted(s: seq<string>) {
    forall i, j :: 0 <= i < j < |s| ==> LexLe(s[i], s[j])
  }

  // sort.Strings, up to its choice of algorithm.
  function SortStrings(s: seq<string>): seq<string> {
    if s == [] then [] else InsertString(s[0], SortStrings(s[1..]))
  }

  function InsertString(x: string, s: seq<string>): seq<string> {
    if s == [] || LexLe(x, s[0]) then [x] + s else [s[0]] + InsertString(x, s[1..])
  }

  lemma {:induction false} InsertKeepsSorted(x: string, s: seq<string>)
    requires Sorted(s)
    ensures Sorted(InsertString(x, s)) && multiset(InsertString(x, s)) == multiset{x} + multiset(s)
  {
    if s == [] {
    } else if LexLe(x, s[0]) {
      forall i | 0 <= i < |s| ensures LexLe(x, s[i]) {
        if i > 0 { LexTransitive(x, s[0], s[i]); }
      }
    } else {
      LexTotal(x, s[0]);
      var rest := InsertString(x, s[1..]);
      InsertKeepsSorted(x, s[1..]);
      assert s == [s[0]] + s[1..];
      forall i | 0 <= i < |rest| ensures LexLe(s[0], rest[i]) {
        assert rest[i] in multiset(rest);
        assert rest[i] == x || rest[i] in s[1..];
      }
    }
  }

  lemma {:induction false} SortStringsSorts(s: seq<string>)
    ensures Sorted(SortStrings(s)) && multiset(SortStrings(s)) == multiset(s)
  {
    if s != [] {
      SortStringsSorts(s[1..]);
      InsertKeepsSorted(s[0], SortStrings(s[1..]));
      assert s == [s[0]] + s[1..];
    }
  }

  // Only one sorted arrangement of the same strings exists.
  lemma {:induction false} SortedUnique(s: seq<string>, t: seq<string>)
    requires Sorted(s) && Sorted(t) && multiset(s) == multiset(t)
    ensures s == t
  {
    assert |multiset(s)| == |s| && |multiset(t)| == |t|;
    if s != [] {
      FirstBelow(s, t);
      FirstBelow(t, s);
      LexAntisymmetric(s[0], t[0]);
      TailMultiset(s);
      TailMultiset(t);
      SortedUnique(s[1..], t[1..]);
      assert s == [s[0]] + s[1..] && t == [t[0]] + t[1..];
    }
  }

  lemma TailMultiset(s: seq<string>)
    requires s != []
    ensures multiset(s[1..]) == multiset(s) - multiset{s[0]}
  {
    assert s == [s[0]] + s[1..];
  }

  lemma FirstBelow(s: seq<string>, t: seq<string>)
    requires s != [] && t != [] && Sorted(s) && multiset(s) == multiset(t)
    ensures LexLe(s[0], t[0])
  {
    assert t[0] in multiset(s);
    var j :| 0 <= j < |s| && s[j] == t[0];
    FirstIsLeast(s, j);
  }

  lemma FirstIsLeast(s: seq<string>, i: nat)
    requires Sorted(s) && i < |s|
    ensures LexLe(s[0], s[i])
  {
    LexTotal(s[0], s[0]);
  }
}

module RoleTables {
  import opened Prelude
  import opened Sorting

  datatype Role = Unspecified | Anonymous | User | Author | Admin | UnknownRole(number: nat)

  datatype MethodDescriptor = MethodDescriptor(name: string, access: Option<Role>)
  datatype ServiceDescriptor = ServiceDescriptor(name: string, methods: seq<MethodDescriptor>)
  datatype FileDescriptor = FileDescriptor(package: string, services: seq<ServiceDescriptor>)

  // One procedure of the manage API with its access option.
  datatype Declaration = Declaration(service: string, name: string, access: Option<Role>)

  type RoleTable = map<Role, map<string, seq<string>>>

  const MANAGE_PACKAGE := "api.manage.v1"

  predicate Allowed(access: Option<Role>) {
    access.Some? && access.value in [User, Author, Admin]
  }

  predicate AllAllowed(declared: seq<Declaration>) {
    forall i :: 0 <= i < |declared| ==> Allowed(declared[i].access)
  }

  function OfService(service: string, methods: seq<MethodDescriptor>): seq<Declaration> {
    seq(|methods|, i requires 0 <= i < |methods| => Declaration(service, methods[i].name, methods[i].access))
  }

  function OfServices(services: seq<ServiceDescriptor>): seq<Declaration> {
    if services == [] then []
    else
      var last := services[|services| - 1];
      OfServices(services[..|services| - 1]) + OfService(last.name, last.methods)
  }

  function OfFile(file: FileDescriptor): seq<Declaration> {
    if file.package != MANAGE_PACKAGE then [] else OfServices(file.services)
  }

  // Everything the files declare, in the order of the visit.
  function Declared(files: seq<FileDescriptor>): seq<Declaration> {
    if files == [] then [] else Declared(files[..|files| - 1]) + OfFile(files[|files| - 1])
  }

  function MethodsOf(declared: seq<Declaration>, role: Role, service: string): seq<string> {
    if declared == [] then []
    else
      var d := declared[|declared| - 1];
      MethodsOf(declared[..|declared| - 1], role, service) +
      if d.access == Some(role) && d.service == service then [d.name] else []
  }

  function Entry(table: RoleTable, role: Role, service: string): seq<string> {
    if role in table && service in table[role] then table[role][service] else []
  }

  // Nothing is kept under a role or service without a method.
  ghost predicate NoEmptyEntry(table: RoleTable) {
    && (forall role :: role in table ==> exists service :: service in table[role])
    && (forall role, service :: role in table && service in table[role] ==> table[role][service] != [])
  }

  // The table while it is being filled.
  ghost predicate Filled(table: RoleTable, declared: seq<Declaration>) {
    && NoEmptyEntry(table)
    && forall role, service :: Entry(table, role, service) == MethodsOf(declared, role, service)
  }

  // The finished table: each entry holds the declared methods, sorted.
  ghost predicate Tabulates(table: RoleTable, declared: seq<Declaration>) {
    && NoEmptyEntry(table)
    && forall role, service ::
         Sorted(Entry(table, role, service)) &&
         multiset(Entry(table, role, service)) == multiset(MethodsOf(declared, role, service))
  }

  function Append(table: RoleTable, role: Role, service: string, name: string): RoleTable {
    table[role := (if role in table then table[role] else map[])[service := Entry(table, role, service) + [name]]]
  }

  lemma EntryOfAppend(table: RoleTable, role: Role, service: string, name: string)
    ensures var after := Append(table, role, service, name);
            forall r, s :: Entry(after, r, s) ==
                           Entry(table, r, s) + if r == role && s == service then [name] else []
  {
  }

  lemma AppendKeepsEntries(table: RoleTable, role: Role, service: string, name: string)
    requires NoEmptyEntry(table)
    ensures NoEmptyEntry(Append(table, role, service, name))
  {
    var after := Append(table, role, service, name);
    assert service in after[role];
    forall r | r in after ensures exists s :: s in after[r] {
      if r != role {
        var s :| s in table[r];
        assert s in after[r];
      }
    }
  }

  lemma AppendFills(table: RoleTable, declared: seq<Declaration>, d: Declaration)
    requires Filled(table, declared) && d.access.Some?
    ensures Filled(Append(table, d.access.value, d.service, d.name), declared + [d])
  {
    assert (declared + [d])[..|declared|] == declared;
    EntryOfAppend(table, d.access.value, d.service, d.name);
    AppendKeepsEntries(table, d.access.value, d.service, d.name);
  }

  // Creating the inner map on demand and appending the method.
  method AddMethod(table: RoleTable, role: Role, service: string, name: string, ghost declared: seq<Declaration>)
    returns (filled: RoleTable)
    requires Filled(table, declared)
    ensures Filled(filled, declared + [Declaration(service, name, Some(role))])
  {
    AppendFills(table, declared, Declaration(service, name, Some(role)));
    filled := table;
    if role !in filled {
      filled := filled[role := map[]];
    }
    var methods := if service in filled[role] then filled[role][service] else [];
    filled := filled[role := filled[role][service := methods + [name]]];
    assert filled == Append(table, role, service, name);
  }

  // Each method of a service in turn; false on the first bad access option.
  method CollectService(service: ServiceDescriptor, table: RoleTable, ghost declared: seq<Declaration>)
    returns (ok: bool, filled: RoleTable)
    requires Filled(table, declared)
    ensures ok <==> AllAllowed(OfService(service.name, service.methods))
    ensures ok ==> Filled(filled, declared + OfService(service.name, service.methods))
  {
    ghost var all := OfService(service.name, service.methods);
    filled := table;
    assert declared + all[..0] == declared;
    for i := 0 to |service.methods|
      invariant Filled(filled, declared + all[..i])
      invariant AllAllowed(all[..i])
    {
      var current := service.methods[i];
      assert all[i] == Declaration(service.name, current.name, current.access);
      if !Allowed(current.access) {
        return false, filled;
      }
      filled := AddMethod(filled, current.access.value, service.name, current.name, declared + all[..i]);
      assert declared + all[..i + 1] == declared + all[..i] + [all[i]];
    }
    assert all[..|service.methods|] == all;
    ok := true;
  }

  method CollectFile(file: FileDescriptor, table: RoleTable, ghost declared: seq<Declaration>)
    returns (ok: bool, filled: RoleTable)
    requires Filled(table, declared)
    ensures ok <==> AllAllowed(OfFile(file))
    ensures ok ==> Filled(filled, declared + OfFile(file))
  {
    filled := table;
    if file.package != MANAGE_PACKAGE {
      assert declared + OfFile(file) == declared;
      return true, filled;
    }
    assert declared + OfServices(file.services[..0]) == declared;
    for i := 0 to |file.services|
      invariant Filled(filled, declared + OfServices(file.services[..i]))
      invariant AllAllowed(OfServices(file.services[..i]))
    {
      var service := file.services[i];
      ghost var before, here := OfServices(file.services[..i]), OfService(service.name, service.methods);
      assert file.services[..i + 1][..i] == file.services[..i];
      assert OfServices(file.services[..i + 1]) == before + here;
      PrefixAllowed(before, here);
      ok, filled := CollectService(service, filled, declared + before);
      if !ok {
        ServicesGrow(file.services, i + 1);
        return;
      }
      assert declared + (before + here) == declared + before + here;
    }
    assert file.services[..|file.services|] == file.services;
    ok := true;
  }

  lemma PrefixAllowed(a: seq<Declaration>, b: seq<Declaration>)
    ensures AllAllowed(a + b) <==> AllAllowed(a) && AllAllowed(b)
  {
    assert forall i :: 0 <= i < |a| ==> (a + b)[i] == a[i];
    assert forall i :: 0 <= i < |b| ==> (a + b)[|a| + i] == b[i];
  }

  lemma {:induction false} ServicesGrow(services: seq<ServiceDescriptor>, n: nat)
    requires n <= |services|
    ensures AllAllowed(OfServices(services)) ==> AllAllowed(OfServices(services[..n]))
  {
    if n == |services| {
      assert services[..n] == services;
    } else {
      assert services[..|services| - 1][..n] == services[..n];
      PrefixAllowed(OfServices(services[..|services| - 1]),
                    OfService(services[|services| - 1].name, services[|services| - 1].methods));
      ServicesGrow(services[..|services| - 1], n);
    }
  }

  lemma {:induction false} DeclaredGrows(files: seq<FileDescriptor>, n: nat)
    requires n <= |files|
    ensures AllAllowed(Declared(files)) ==> AllAllowed(Declared(files[..n]))
  {
    if n == |files| {
      assert files[..n] == files;
    } else {
      assert files[..|files| - 1][..n] == files[..n];
      PrefixAllowed(Declared(files[..|files| - 1]), OfFile(files[|files| - 1]));
      DeclaredGrows(files[..|files| - 1], n);
    }
  }

  // collectManageAuthorizationRolesFrom, `files` being the order of the visit.
  method CollectRoles(files: seq<FileDescriptor>) returns (r: Option<RoleTable>)
    ensures r.Some? <==> AllAllowed(Declared(files))
    ensures r.Some? ==> Tabulates(r.value, Declared(files))
    ensures Collected(r, files)
  {
    var table: RoleTable := map[];
    for i := 0 to |files|
      invariant Filled(table, Declared(files[..i]))
      invariant AllAllowed(Declared(files[..i]))
    {
      assert files[..i + 1][..i] == files[..i];
      assert Declared(files[..i + 1]) == Declared(files[..i]) + OfFile(files[i]);
      PrefixAllowed(Declared(files[..i]), OfFile(files[i]));
      var ok, filled := CollectFile(files[i], table, Declared(files[..i]));
      if !ok {
        DeclaredGrows(files, i + 1);
        CollectedMeaning(None, files);
        return None;
      }
      table := filled;
    }
    assert files[..|files|] == files;
    var sorted := SortEntries(table);
    SortedTabulates(table, sorted, Declared(files));
    r := Some(sorted);
    CollectedMeaning(r, files);
  }

  lemma SortedTabulates(table: RoleTable, sorted: RoleTable, declared: seq<Declaration>)
    requires Filled(table, declared) && NoEmptyEntry(sorted)
    requires forall role, service :: Entry(sorted, role, service) == SortStrings(Entry(table, role, service))
    ensures Tabulates(sorted, declared)
  {
    forall role, service ensures Sorted(Entry(sorted, role, service)) &&
        multiset(Entry(sorted, role, service)) == multiset(MethodsOf(declared, role, service)) {
      SortStringsSorts(Entry(table, role, service));
      assert Entry(table, role, service) == MethodsOf(declared, role, service);
    }
  }

  // The final loops: each method list is replaced by its sorted form.
  method SortEntries(table: RoleTable) returns (sorted: RoleTable)
    requires NoEmptyEntry(table)
    ensures NoEmptyEntry(sorted)
    ensures forall role, service :: Entry(sorted, role, service) == SortStrings(Entry(table, role, service))
  {
    sorted := table;
    var roles := table.Keys;
    while roles != {}
      invariant roles <= table.Keys == sorted.Keys
      invariant forall role :: role in roles ==> sorted[role] == table[role]
      invariant forall role :: role in table.Keys - roles ==> SortedServices(table[role], sorted[role])
      decreases roles
    {
      var role :| role in roles;
      var services := SortServices(table[role]);
      sorted := sorted[role := services];
      roles := roles - {role};
    }
    EntriesSorted(table, sorted);
  }

  lemma SortedNotEmpty(s: seq<string>)
    requires s != []
    ensures SortStrings(s) != []
  {
    SortStringsSorts(s);
    assert |multiset(SortStrings(s))| == |multiset(s)|;
  }

  lemma EntriesSorted(table: RoleTable, sorted: RoleTable)
    requires NoEmptyEntry(table) && table.Keys == sorted.Keys
    requires forall role :: role in table ==> SortedServices(table[role], sorted[role])
    ensures NoEmptyEntry(sorted)
    ensures forall role, service :: Entry(sorted, role, service) == SortStrings(Entry(table, role, service))
  {
    forall role | role in sorted ensures exists service :: service in sorted[role] {
      var service :| service in table[role];
      assert SortedServices(table[role], sorted[role]) && service in sorted[role];
    }
    forall role, service | role in sorted && service in sorted[role] ensures sorted[role][service] != [] {
      assert SortedServices(table[role], sorted[role]);
      SortedNotEmpty(table[role][service]);
    }
    forall role, service
      ensures Entry(sorted, role, service) == SortStrings(Entry(table, role, service)) {
      assert role in table ==> SortedServices(table[role], sorted[role]);
    }
  }

  ghost predicate SortedServices(services: map<string, seq<string>>, sorted: map<string, seq<string>>) {
    sorted.Keys == services.Keys && forall s :: s in services ==> sorted[s] == SortStrings(services[s])
  }

  method SortServices(services: map<string, seq<string>>) returns (sorted: map<string, seq<string>>)
    ensures SortedServices(services, sorted)
  {
    sorted := services;
    var names := services.Keys;
    while names != {}
      invariant names <= services.Keys == sorted.Keys
      invariant forall s :: s in names ==> sorted[s] == services[s]
      invariant forall s :: s in services.Keys - names ==> sorted[s] == SortStrings(services[s])
      decreases names
    {
      var service :| service in names;
      sorted := sorted[service := SortStrings(sorted[service])];
      names := names - {service};
    }
  }

  // ---------------------------------------------------------------- which files are collected

  // The places that hold this procedure: file, service in it, method in that.
  // Only files of the manage package count.
  function Places(files: seq<FileDescriptor>, d: Declaration): set<(nat, (nat, nat))> {
    set f, s, m |
      && 0 <= f < |files| && files[f].package == "api.manage.v1"
      && 0 <= s < |files[f].services| && files[f].services[s].name == d.service
      && 0 <= m < |files[f].services[s].methods|
      && files[f].services[s].methods[m] == MethodDescriptor(d.name, d.access) ::
        (f, (s, m))
  }

  function PlacesInServices(services: seq<ServiceDescriptor>, d: Declaration): set<(nat, nat)> {
    set s, m |
      && 0 <= s < |services| && services[s].name == d.service
      && 0 <= m < |services[s].methods| && services[s].methods[m] == MethodDescriptor(d.name, d.access) ::
        (s, m)
  }

  function PlacesInMethods(methods: seq<MethodDescriptor>, d: Declaration): set<nat> {
    set m | 0 <= m < |methods| && methods[m] == MethodDescriptor(d.name, d.access)
  }

  // Some method of a manage file lacks the option or has one that is not for
  // users, authors or administrators.
  ghost predicate BadAccess(files: seq<FileDescriptor>) {
    exists f, s, m ::
      && 0 <= f < |files| && files[f].package == "api.manage.v1"
      && 0 <= s < |files[f].services| && 0 <= m < |files[f].services[s].methods|
      && files[f].services[s].methods[m].access !in [Some(User), Some(Author), Some(Admin)]
  }

  // Every entry lists each method as often as it stands in the manage files.
  ghost predicate Collects(table: RoleTable, files: seq<FileDescriptor>) {
    && NoEmptyEntry(table)
    && forall role, service ::
         && Sorted(Entry(table, role, service))
         && forall name :: multiset(Entry(table, role, service))[name] ==
                           |Places(files, Declaration(service, name, Some(role)))|
  }

  // What the collection answers: the table, or nothing at a bad access option.
  ghost predicate Collected(r: Option<RoleTable>, files: seq<FileDescriptor>) {
    match r
    case None => BadAccess(files)
    case Some(table) => !BadAccess(files) && Collects(table, files)
  }

  function TagAll<T>(tag: nat, places: set<T>): set<(nat, T)> {
    set p | p in places :: (tag, p)
  }

  lemma {:induction false} TaggedCount<T>(tag: nat, places: set<T>)
    ensures |TagAll(tag, places)| == |places|
  {
    if places != {} {
      var q :| q in places;
      var rest := places - {q};
      TaggedCount(tag, rest);
      assert TagAll(tag, places) == TagAll(tag, rest) + {(tag, q)};
    }
  }

  // Places of the earlier ones, and of the last one under its number.
  lemma OneMore<T>(all: set<(nat, T)>, front: set<(nat, T)>, n: nat, here: set<T>)
    requires forall p :: p in front ==> p.0 < n
    requires forall k, p :: (k, p) in all <==> (k, p) in front || (k == n && p in here)
    ensures |all| == |front| + |here|
  {
    TaggedCount(n, here);
    var tagged := TagAll(n, here);
    forall q ensures q in all <==> q in front + tagged {
      assert q == (q.0, q.1);
    }
    assert all == front + tagged && front !! tagged;
  }

  lemma {:induction false} CountInMethods(service: string, methods: seq<MethodDescriptor>, d: Declaration)
    ensures multiset(OfService(service, methods))[d] == if service == d.service then |PlacesInMethods(methods, d)| else 0
  {
    if methods == [] {
      assert PlacesInMethods(methods, d) == {};
    } else {
      var n := |methods| - 1;
      var front := methods[..n];
      CountInMethods(service, front, d);
      assert OfService(service, methods) ==
             OfService(service, front) + [Declaration(service, methods[n].name, methods[n].access)];
      assert PlacesInMethods(methods, d) == PlacesInMethods(front, d) +
             if methods[n] == MethodDescriptor(d.name, d.access) then {n} else {};
    }
  }

  lemma ServicePlacesGrow(front: seq<ServiceDescriptor>, last: ServiceDescriptor, d: Declaration)
    ensures var here := if last.name == d.service then PlacesInMethods(last.methods, d) else {};
            |PlacesInServices(front + [last], d)| == |PlacesInServices(front, d)| + |here|
  {
    var here := if last.name == d.service then PlacesInMethods(last.methods, d) else {};
    OneMore(PlacesInServices(front + [last], d), PlacesInServices(front, d), |front|, here);
  }

  lemma {:induction false} CountInServices(services: seq<ServiceDescriptor>, d: Declaration)
    ensures multiset(OfServices(services))[d] == |PlacesInServices(services, d)|
  {
    if services == [] {
      assert PlacesInServices(services, d) == {};
    } else {
      var front, last := services[..|services| - 1], services[|services| - 1];
      assert services == front + [last];
      CountInServices(front, d);
      CountInMethods(last.name, last.methods, d);
      ServicePlacesGrow(front, last, d);
    }
  }

  lemma FilePlacesGrow(front: seq<FileDescriptor>, last: FileDescriptor, d: Declaration)
    ensures var here := if last.package == "api.manage.v1" then PlacesInServices(last.services, d) else {};
            |Places(front + [last], d)| == |Places(front, d)| + |here|
  {
    var files, n := front + [last], |front|;
    var here := if last.package == "api.manage.v1" then PlacesInServices(last.services, d) else {};
    forall f: nat, p ensures (f, p) in Places(files, d) <==> (f, p) in Places(front, d) || (f == n && p in here) {
      assert p == (p.0, p.1);
      if f < n {
        assert files[f] == front[f];
      }
    }
    OneMore(Places(files, d), Places(front, d), n, here);
  }

  lemma {:induction false} CountInFiles(files: seq<FileDescriptor>, d: Declaration)
    ensures multiset(Declared(files))[d] == |Places(files, d)|
  {
    if files == [] {
      assert Places(files, d) == {};
    } else {
      var front, last := files[..|files| - 1], files[|files| - 1];
      assert files == front + [last];
      CountInFiles(front, d);
      CountInServices(last.services, d);
      FilePlacesGrow(front, last, d);
    }
  }

  lemma {:induction false} AllowedInServices(services: seq<ServiceDescriptor>)
    ensures AllAllowed(OfServices(services)) <==>
            forall s, m :: 0 <= s < |services| && 0 <= m < |services[s].methods| ==> Allowed(services[s].methods[m].access)
  {
    if services != [] {
      var n := |services| - 1;
      var front, last := services[..n], services[n];
      AllowedInServices(front);
      PrefixAllowed(OfServices(front), OfService(last.name, last.methods));
      AllowedInMethods(last);
      assert forall s :: 0 <= s < n ==> services[s] == front[s];
    }
  }

  lemma AllowedInMethods(service: ServiceDescriptor)
    ensures AllAllowed(OfService(service.name, service.methods)) <==>
            forall m :: 0 <= m < |service.methods| ==> Allowed(service.methods[m].access)
  {
    var all := OfService(service.name, service.methods);
    assert forall m :: 0 <= m < |service.methods| ==> all[m].access == service.methods[m].access;
  }

  // The file is a manage file with a bad access option.
  ghost predicate BadFile(file: FileDescriptor) {
    file.package == "api.manage.v1" &&
    exists s, m :: 0 <= s < |file.services| && 0 <= m < |file.services[s].methods| &&
                   !Allowed(file.services[s].methods[m].access)
  }

  lemma AllowedInFile(file: FileDescriptor)
    ensures AllAllowed(OfFile(file)) <==> !BadFile(file)
  {
    AllowedInServices(file.services);
  }

  lemma {:induction false} AllowedInFiles(files: seq<FileDescriptor>)
    ensures AllAllowed(Declared(files)) <==> !BadAccess(files)
  {
    if files != [] {
      var front, last := files[..|files| - 1], files[|files| - 1];
      AllowedInFiles(front);
      AllowedInFile(last);
      PrefixAllowed(Declared(front), OfFile(last));
      BadAccessGrows(front, last);
      assert files == front + [last];
    }
  }

  lemma BadAccessGrows(front: seq<FileDescriptor>, last: FileDescriptor)
    ensures BadAccess(front + [last]) <==> BadAccess(front) || BadFile(last)
  {
    var files := front + [last];
    if f, s, m :|
      && 0 <= f < |front| && front[f].package == "api.manage.v1"
      && 0 <= s < |front[f].services| && 0 <= m < |front[f].services[s].methods|
      && front[f].services[s].methods[m].access !in [Some(User), Some(Author), Some(Admin)] {
      assert files[f] == front[f];
    }
    if last.package == "api.manage.v1" {
      if s, m :| 0 <= s < |last.services| && 0 <= m < |last.services[s].methods| &&
                 !Allowed(last.services[s].methods[m].access) {
        assert files[|front|].services[s].methods[m].access !in [Some(User), Some(Author), Some(Admin)];
      }
    }
  }

  // The table of what is declared is the table of the manage files.
  lemma TabulatesExactly(table: RoleTable, files: seq<FileDescriptor>)
    ensures Tabulates(table, Declared(files)) <==> Collects(table, files)
  {
    forall role, service, name
      ensures multiset(MethodsOf(Declared(files), role, service))[name] ==
              |Places(files, Declaration(service, name, Some(role)))| {
      CountMethods(Declared(files), role, service, name);
      CountInFiles(files, Declaration(service, name, Some(role)));
    }
    if Collects(table, files) {
      forall role, service
        ensures multiset(Entry(table, role, service)) == multiset(MethodsOf(Declared(files), role, service)) {
      }
    }
  }

  lemma CollectedMeaning(r: Option<RoleTable>, files: seq<FileDescriptor>)
    requires r.Some? <==> AllAllowed(Declared(files))
    requires r.Some? ==> Tabulates(r.value, Declared(files))
    ensures Collected(r, files)
  {
    AllowedInFiles(files);
    if r.Some? {
      TabulatesExactly(r.value, files);
    }
  }

  // ---------------------------------------------------------------- the visiting order does not matter

  lemma TableUnique(t: RoleTable, u: RoleTable, declared: seq<Declaration>, other: seq<Declaration>)
    requires Tabulates(t, declared) && Tabulates(u, other)
    requires multiset(declared) == multiset(other)
    ensures t == u
  {
    forall role, service ensures Entry(t, role, service) == Entry(u, role, service) {
      MethodsOfMultiset(declared, other, role, service);
      SortedUnique(Entry(t, role, service), Entry(u, role, service));
    }
    SameEntries(t, u);
    SameEntries(u, t);
    assert t.Keys == u.Keys;
    forall role | role in t ensures t[role] == u[role] {
      forall service ensures service in t[role] <==> service in u[role] {
        assert Entry(t, role, service) == Entry(u, role, service);
      }
      forall service | service in t[role] ensures t[role][service] == u[role][service] {
        assert Entry(t, role, service) == Entry(u, role, service);
      }
    }
  }

  lemma SameEntries(t: RoleTable, u: RoleTable)
    requires NoEmptyEntry(t) && forall role, service :: Entry(t, role, service) == Entry(u, role, service)
    ensures t.Keys <= u.Keys
  {
    forall role | role in t ensures role in u {
      var service :| service in t[role];
      assert Entry(t, role, service) != [];
      assert Entry(u, role, service) != [];
    }
  }

  lemma MethodsOfMultiset(a: seq<Declaration>, b: seq<Declaration>, role: Role, service: string)
    requires multiset(a) == multiset(b)
    ensures multiset(MethodsOf(a, role, service)) == multiset(MethodsOf(b, role, service))
  {
    forall name ensures multiset(MethodsOf(a, role, service))[name] == multiset(MethodsOf(b, role, service))[name] {
      CountMethods(a, role, service, name);
      CountMethods(b, role, service, name);
    }
  }

  // A name occurs among the methods as often as its declaration does.
  lemma {:induction false} CountMethods(declared: seq<Declaration>, role: Role, service: string, name: string)
    ensures multiset(MethodsOf(declared, role, service))[name] ==
            multiset(declared)[Declaration(service, name, Some(role))]
  {
    if declared != [] {
      var front, d := declared[..|declared| - 1], declared[|declared| - 1];
      assert declared == front + [d];
      CountMethods(front, role, service, name);
    }
  }

  // Visiting the same files in another order declares the same multiset.
  lemma {:induction false} DeclaredPermutes(files: seq<FileDescriptor>, other: seq<FileDescriptor>)
    requires multiset(files) == multiset(other)
    ensures multiset(Declared(files)) == multiset(Declared(other))
  {
    if files == [] {
      assert |multiset(other)| == 0;
      assert other == [];
    } else {
      var front, last := files[..|files| - 1], files[|files| - 1];
      assert files == front + [last];
      assert last in multiset(other);
      var k :| 0 <= k < |other| && other[k] == last;
      var rest := other[..k] + other[k + 1..];
      assert other == other[..k] + [last] + other[k + 1..];
      assert multiset(other) == multiset(other[..k]) + multiset{last} + multiset(other[k + 1..]);
      assert multiset(files) == multiset(front) + multiset{last};
      assert multiset(rest) == multiset(other) - multiset{last} == multiset(front);
      DeclaredPermutes(front, rest);
      MoveOut(other[..k], last, other[k + 1..]);
      assert (front + [last])[..|front|] == front;
    }
  }

  lemma {:induction false} MoveOut(before: seq<FileDescriptor>, file: FileDescriptor, after: seq<FileDescriptor>)
    ensures multiset(Declared(before + [file] + after)) == multiset(Declared(before + after)) + multiset(OfFile(file))
    decreases |after|
  {
    if after == [] {
      DeclaredMore(before, [], file);
      assert before + ([] + [file]) == before + [file] + after;
      assert before + [] == before + after;
    } else {
      var front, last := SplitLast(after);
      MoveOut(before, file, front);
      MoveOutMore(before, file, front, last);
    }
  }

  lemma SplitLast(files: seq<FileDescriptor>) returns (front: seq<FileDescriptor>, last: FileDescriptor)
    requires files != []
    ensures files == front + [last] && |front| < |files|
  {
    front, last := files[..|files| - 1], files[|files| - 1];
  }

  lemma MoveOutMore(before: seq<FileDescriptor>, file: FileDescriptor, front: seq<FileDescriptor>, last: FileDescriptor)
    requires multiset(Declared(before + [file] + front)) == multiset(Declared(before + front)) + multiset(OfFile(file))
    ensures multiset(Declared(before + [file] + (front + [last]))) ==
            multiset(Declared(before + (front + [last]))) + multiset(OfFile(file))
  {
    DeclaredMore(before + [file], front, last);
    DeclaredMore(before, front, last);
    AddLast(multiset(Declared(before + front)), multiset(OfFile(file)), multiset(OfFile(last)));
  }

  lemma AddLast(a: multiset<Declaration>, b: multiset<Declaration>, c: multiset<Declaration>)
    ensures a + b + c == a + c + b
  {
  }

  lemma DeclaredMore(files: seq<FileDescriptor>, front: seq<FileDescriptor>, last: FileDescriptor)
    ensures multiset(Declared(files + (front + [last]))) == multiset(Declared(files + front)) + multiset(OfFile(last))
  {
    var all := files + (front + [last]);
    assert all[..|all| - 1] == files + front;
    assert all[|all| - 1] == last;
    assert Declared(all) == Declared(files + front) + OfFile(last);
  }

  lemma AllowedFromMultiset(a: seq<Declaration>, b: seq<Declaration>)
    requires multiset(a) == multiset(b) && AllAllowed(a)
    ensures AllAllowed(b)
  {
    forall i | 0 <= i < |b| ensures Allowed(b[i].access) {
      assert b[i] in multiset(a);
    }
  }

  // Both visits fail, or both give the same table.
  lemma VisitOrderIrrelevant(files: seq<FileDescriptor>, other: seq<FileDescriptor>, t: RoleTable, u: RoleTable)
    requires multiset(files) == multiset(other)
    ensures AllAllowed(Declared(files)) <==> AllAllowed(Declared(other))
    ensures Tabulates(t, Declared(files)) && Tabulates(u, Declared(other)) ==> t == u
  {
    DeclaredPermutes(files, other);
    if AllAllowed(Declared(files)) { AllowedFromMultiset(Declared(files), Declared(other)); }
    if AllAllowed(Declared(other)) { AllowedFromMultiset(Declared(other), Declared(files)); }
    if Tabulates(t, Declared(files)) && Tabulates(u, Declared(other)) {
      TableUnique(t, u, Declared(files), Declared(other));
    }
  }
}
