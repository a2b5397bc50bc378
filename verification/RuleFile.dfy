// Generating the rule file for the template origin and rendering it for a
// deployment gives the file generated for the deployment.

module RuleFile {
  import opened Prelude
  import opened Text
  import opened Regexes
  import opened RulePatterns
  import opened RoleRules
  import opened AccessRules
  import opened Substitution
  import opened Renderer

  // The names a rule file is generated with. The public API, the
  // authentication and the collaboration origin are one site.
  datatype Names = Names(site: string, internal: string, authHeader: string, internalHeader: string)

  // A piece of the file: text that no name enters, a URL matcher, the site
  // origin as it is, or one of the two header names.
  datatype Part =
    | Plain(text: string)
    | Url(internalToo: bool, prefix: string, tail: Branch)
    | Site
    | AuthHeader
    | InternalHeader

  function UrlPattern(url: Part, names: Names): Pattern
    requires url.Url?
  {
    var site, internal := TrimSpace(names.site), TrimSpace(names.internal);
    Pattern(if url.internalToo then Either(site, internal, "/api/rpc") else Exact(site), url.prefix, url.tail)
  }

  function PartText(part: Part, names: Names): string {
    match part
    case Plain(text) => text
    case Url(_, _, _) => "<" + UrlText(UrlPattern(part, names)) + ">"
    case Site => names.site
    case AuthHeader => names.authHeader
    case InternalHeader => names.internalHeader
  }

  function Generated(parts: seq<Part>, names: Names): string {
    if parts == [] then "" else PartText(parts[0], names) + Generated(parts[1..], names)
  }

  // The URL parts are the rules of AccessRules on the site's origins.
  function RoutesOf(names: Names): Routes {
    Routes(names.site, names.internal, names.site, names.site)
  }

  function RuleUrl(kind: Kind): Part {
    Url(kind == BlockInternal || kind == OpenApi, PrefixOf(kind), TailOf(kind))
  }

  lemma RuleUrlPattern(kind: Kind, names: Names)
    ensures UrlPattern(RuleUrl(kind), names) == StaticPattern(RoutesOf(names), kind)
  {
  }

  lemma RoleUrlPattern(names: Names, listed: seq<string>, services: Services)
    requires Listed(listed, services)
    ensures var pattern := RpcPattern(RoutesOf(names), "manage", listed, services);
            UrlPattern(Url(true, pattern.prefix, pattern.tail), names) == pattern
  {
  }

  // ---------------------------------------------------------------- the generated file as a template

  function UrlEnd(url: Part): string
    requires url.Url?
  {
    QuoteMeta(url.prefix) + ShowBranch(url.tail) + ">"
  }

  // What stands in the template for the quoted site, the site and the headers.
  datatype Placeholders = Placeholders(quotedSite: string, site: string, authHeader: string, internalHeader: string)
  {
    function All(): seq<string> { [quotedSite, site, authHeader, internalHeader] }
  }

  // The internal API origin is not replaced.
  function PartLayout(part: Part, marks: Placeholders, internal: string): seq<Segment> {
    match part
    case Plain(text) => [Fixed(text)]
    case Url(internalToo, _, _) =>
      if !internalToo then [Fixed("<"), Hole(marks.quotedSite), Fixed(UrlEnd(part))]
      else
        var other := QuoteMeta(TrimSpace(internal)) + QuoteMeta("/api/rpc");
        [Fixed("<(?:"), Hole(marks.quotedSite), Fixed(QuoteMeta("/api/rpc") + "|" + other + ")" + UrlEnd(part))]
    case Site => [Hole(marks.site)]
    case AuthHeader => [Hole(marks.authHeader)]
    case InternalHeader => [Hole(marks.internalHeader)]
  }

  function Layout(parts: seq<Part>, marks: Placeholders, internal: string): seq<Segment> {
    if parts == [] then [] else PartLayout(parts[0], marks, internal) + Layout(parts[1..], marks, internal)
  }

  // The replacements Render makes in the rule file.
  function Replacements(marks: Placeholders, names: Names): map<string, string> {
    map[marks.quotedSite := QuoteMeta(names.site), marks.site := names.site,
        marks.authHeader := names.authHeader, marks.internalHeader := names.internalHeader]
  }

  // The names under which the template is generated: its placeholders.
  predicate TemplateOf(template: Names, marks: Placeholders, internal: string) {
    && template.internal == internal && TrimSpace(template.site) == template.site
    && marks == Placeholders(QuoteMeta(template.site), template.site, template.authHeader, template.internalHeader)
  }

  // With `done` replaced, the layout reads as if generated with `names`.
  ghost predicate ReadsAs(marks: Placeholders, done: map<string, string>, names: Names) {
    && TrimSpace(names.site) == names.site
    && Shown(Hole(marks.quotedSite), done) == QuoteMeta(names.site)
    && Shown(Hole(marks.site), done) == names.site
    && Shown(Hole(marks.authHeader), done) == names.authHeader
    && Shown(Hole(marks.internalHeader), done) == names.internalHeader
  }

  lemma ReadsAsTemplate(template: Names, marks: Placeholders, internal: string)
    requires TemplateOf(template, marks, internal)
    ensures ReadsAs(marks, map[], template)
  {
  }

  lemma ReadsAsNames(marks: Placeholders, names: Names)
    requires NoDuplicates(marks.All()) && TrimSpace(names.site) == names.site
    ensures ReadsAs(marks, Replacements(marks, names), names)
  {
    var keys := marks.All();
    assert keys[0] != keys[1] && keys[0] != keys[2] && keys[0] != keys[3];
    assert keys[1] != keys[2] && keys[1] != keys[3] && keys[2] != keys[3];
  }

  lemma ShowThree(a: Segment, b: Segment, c: Segment, done: map<string, string>)
    ensures Show([a, b, c], done) == Shown(a, done) + Shown(b, done) + Shown(c, done)
  {
    assert [a, b, c][1..] == [b, c] && [b, c][1..] == [c] && [c][1..] == [];
    assert Show([c], done) == Shown(c, done) + "" == Shown(c, done);
    assert Show([b, c], done) == Shown(b, done) + Shown(c, done);
    assert Shown(a, done) + (Shown(b, done) + Shown(c, done)) == Shown(a, done) + Shown(b, done) + Shown(c, done);
  }

  lemma UrlShown(url: Part, marks: Placeholders, done: map<string, string>, names: Names)
    requires url.Url? && ReadsAs(marks, done, names)
    ensures Show(PartLayout(url, marks, names.internal), done) == PartText(url, names)
  {
    var layout := PartLayout(url, marks, names.internal);
    ShowThree(layout[0], layout[1], layout[2], done);
    ExpressionText(UrlPattern(url, names));
    var site, end := QuoteMeta(names.site), QuoteMeta(url.prefix) + ShowBranch(url.tail);
    if url.internalToo {
      var base, internal := QuoteMeta("/api/rpc"), QuoteMeta(TrimSpace(names.internal));
      assert UrlText(UrlPattern(url, names)) == "(?:" + (site + base) + "|" + (internal + base) + ")" + end;
      BothOrigins(site, base, internal, end);
    } else {
      assert UrlText(UrlPattern(url, names)) == site + end;
      OneOrigin(site, end);
    }
  }

  lemma OneOrigin(site: string, end: string)
    ensures "<" + (site + end) + ">" == "<" + site + (end + ">")
  {
  }

  lemma BothOrigins(site: string, base: string, internal: string, end: string)
    ensures "<" + ("(?:" + (site + base) + "|" + (internal + base) + ")" + end) + ">" ==
            "<(?:" + site + (base + "|" + (internal + base) + ")" + (end + ">"))
  {
  }

  lemma PartShown(part: Part, marks: Placeholders, done: map<string, string>, names: Names)
    requires ReadsAs(marks, done, names)
    ensures Show(PartLayout(part, marks, names.internal), done) == PartText(part, names)
  {
    if part.Url? {
      UrlShown(part, marks, done, names);
    } else {
      var segment := PartLayout(part, marks, names.internal)[0];
      assert PartLayout(part, marks, names.internal) == [segment] && [segment][1..] == [];
      assert Show([segment], done) == Shown(segment, done) + "" == Shown(segment, done);
    }
  }

  // Filling the layout of a part list gives the text it is generated to.
  lemma {:induction false} FileShown(parts: seq<Part>, marks: Placeholders, done: map<string, string>, names: Names)
    requires ReadsAs(marks, done, names)
    ensures Show(Layout(parts, marks, names.internal), done) == Generated(parts, names)
  {
    if parts != [] {
      PartShown(parts[0], marks, done, names);
      FileShown(parts[1..], marks, done, names);
      ShowConcat(PartLayout(parts[0], marks, names.internal), Layout(parts[1..], marks, names.internal), done);
    }
  }

  // For any part list with a well-formed layout the two stages agree: whatever
  // the order of the replacements, what rendering makes of the template file is
  // the file generated directly, and it fails only for a placeholder without a
  // use or one left over.
  lemma RenderingCommutesWithGeneration(parts: seq<Part>, template: Names, marks: Placeholders, names: Names,
                                        order: seq<string>)
    requires TemplateOf(template, marks, names.internal) && NoDuplicates(marks.All())
    requires TrimSpace(names.site) == names.site
    requires WellFormed(Layout(parts, marks, names.internal), Replacements(marks, names))
    requires Enumerates(order, Replacements(marks, names).Keys)
    ensures forall p :: p in order ==> p != "" && p in Replacements(marks, names)
    ensures var r := Rendered(Generated(parts, template), order, Replacements(marks, names));
            && (r.Ok? ==> r.value == Generated(parts, names))
            && (r.Ok? <==>
                && (forall p :: p in Replacements(marks, names) ==> Hole(p) in Layout(parts, marks, names.internal))
                && (forall p :: p in LEFTOVERS ==> !Contains(Generated(parts, names), p)))
  {
    var replacements := Replacements(marks, names);
    ReadsAsTemplate(template, marks, names.internal);
    ReadsAsNames(marks, names);
    FileShown(parts, marks, map[], template);
    FileShown(parts, marks, replacements, names);
    RenderedAtOnce(Layout(parts, marks, names.internal), replacements, order);
  }
}
