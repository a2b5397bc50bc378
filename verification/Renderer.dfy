// The deployment renderer: renderFile over a map of replacements, with the
// checks for what must not be left over.

module Renderer {
  import opened Prelude
  import opened Text
  import opened Substitution

  const SITE_ORIGIN := "https://site.example.invalid"
  const ISSUER_ORIGIN := "https://sso.example.invalid"
  const AUTH_HEADER := "__AUTH_HEADER_NAME__"
  const INTERNAL_HEADER := "__INTERNAL_SERVICE_HEADER_NAME__"

  // What must not be left in a rendered file, in the order of the checks.
  const LEFTOVERS := [SITE_ORIGIN, ISSUER_ORIGIN, "__KRATOS_PUBLIC_URL__", "__HYDRA_ADMIN_URL__",
                      "__AUTHORIZATION_URL__", AUTH_HEADER, INTERNAL_HEADER, "__SESSION_COOKIE_NAME__"]

  ghost predicate LongestFirst(order: seq<string>) {
    forall i, j :: 0 <= i < j < |order| ==> |order[i]| >= |order[j]|
  }

  // The first leftover found, if any.
  function Leftover(s: string, leftovers: seq<string>): Option<string> {
    if leftovers == [] then None
    else if Contains(s, leftovers[0]) then Some(leftovers[0])
    else Leftover(s, leftovers[1..])
  }

  lemma {:induction false} LeftoverMeaning(s: string, leftovers: seq<string>)
    ensures Leftover(s, leftovers) == None <==> forall p :: p in leftovers ==> !Contains(s, p)
  {
    if leftovers != [] {
      LeftoverMeaning(s, leftovers[1..]);
      assert leftovers[0] in leftovers;
      forall p ensures p in leftovers <==> p == leftovers[0] || p in leftovers[1..] {
        assert leftovers == [leftovers[0]] + leftovers[1..];
      }
    }
  }

  function Rendered(contents: string, order: seq<string>, replacements: map<string, string>): Result<string, RenderError>
    requires forall p :: p in order ==> p != "" && p in replacements
  {
    match ReplaceInOrder(contents, order, replacements)
    case Err(e) => Err(e)
    case Ok(s) => match Leftover(s, LEFTOVERS)
      case None => Ok(s)
      case Some(p) => Err(Unresolved(p))
  }

  // None of the stand-ins of the templates is left.
  predicate FreeOfStandIns(s: string) {
    && !Contains(s, "https://site.example.invalid") && !Contains(s, "https://sso.example.invalid")
    && !Contains(s, "__KRATOS_PUBLIC_URL__") && !Contains(s, "__HYDRA_ADMIN_URL__")
    && !Contains(s, "__AUTHORIZATION_URL__") && !Contains(s, "__AUTH_HEADER_NAME__")
    && !Contains(s, "__INTERNAL_SERVICE_HEADER_NAME__") && !Contains(s, "__SESSION_COOKIE_NAME__")
  }

  lemma EightLeftovers(s: string, a: string, b: string, c: string, d: string, e: string, f: string, g: string, h: string)
    ensures Leftover(s, [a, b, c, d, e, f, g, h]) == None <==>
            && !Contains(s, a) && !Contains(s, b) && !Contains(s, c) && !Contains(s, d)
            && !Contains(s, e) && !Contains(s, f) && !Contains(s, g) && !Contains(s, h)
  {
    LeftoverMeaning(s, [a, b, c, d, e, f, g, h]);
  }

  lemma LeftoversAreStandIns(s: string)
    ensures Leftover(s, LEFTOVERS) == None <==> FreeOfStandIns(s)
  {
    EightLeftovers(s, SITE_ORIGIN, ISSUER_ORIGIN, "__KRATOS_PUBLIC_URL__", "__HYDRA_ADMIN_URL__",
                   "__AUTHORIZATION_URL__", AUTH_HEADER, INTERNAL_HEADER, "__SESSION_COOKIE_NAME__");
  }

  // The checks let exactly the texts without a stand-in through, so whatever the
  // template, nothing else is ever published.
  lemma PublishedIsFree(contents: string, order: seq<string>, replacements: map<string, string>)
    requires forall p :: p in order ==> p != "" && p in replacements
    ensures match ReplaceInOrder(contents, order, replacements)
            case Err(e) => Rendered(contents, order, replacements) == Err(e)
            case Ok(s) => if FreeOfStandIns(s) then Rendered(contents, order, replacements) == Ok(s)
                          else Rendered(contents, order, replacements).Err?
  {
    match ReplaceInOrder(contents, order, replacements)
    case Err(_) =>
    case Ok(s) => LeftoversAreStandIns(s);
  }

  // ---------------------------------------------------------------- the loops

  // The keys in the order of some map iteration.
  method Placeholders(replacements: map<string, string>) returns (placeholders: seq<string>)
    ensures Enumerates(placeholders, replacements.Keys)
  {
    placeholders := [];
    var rest := replacements.Keys;
    while rest != {}
      invariant rest <= replacements.Keys && Enumerates(placeholders, replacements.Keys - rest)
      decreases rest
    {
      var p :| p in rest;
      EnumeratesSnoc(placeholders, replacements.Keys - rest, p);
      assert replacements.Keys - rest + {p} == replacements.Keys - (rest - {p});
      placeholders := placeholders + [p];
      rest := rest - {p};
    }
    assert replacements.Keys - rest == replacements.Keys;
  }

  // Sorting by decreasing length; where equal lengths end up is left open.
  method SortByLength(placeholders: seq<string>) returns (sorted: seq<string>)
    ensures multiset(sorted) == multiset(placeholders) && LongestFirst(sorted)
  {
    sorted := [];
    for i := 0 to |placeholders|
      invariant multiset(sorted) == multiset(placeholders[..i]) && LongestFirst(sorted)
    {
      var p := placeholders[i];
      var j := 0;
      while j < |sorted| && |sorted[j]| > |p|
        invariant 0 <= j <= |sorted| && forall k :: 0 <= k < j ==> |sorted[k]| > |p|
      {
        j := j + 1;
      }
      Inserted(sorted, j, p);
      assert placeholders[..i + 1] == placeholders[..i] + [p];
      sorted := InsertAt(sorted, j, p);
    }
    assert placeholders[..|placeholders|] == placeholders;
  }

  function InsertAt(sorted: seq<string>, j: nat, p: string): seq<string>
    requires j <= |sorted|
  {
    sorted[..j] + [p] + sorted[j..]
  }

  lemma InsertedAt(sorted: seq<string>, j: nat, p: string, k: nat)
    requires j <= |sorted| && k <= |sorted|
    ensures InsertAt(sorted, j, p)[k] == if k < j then sorted[k] else if k == j then p else sorted[k - 1]
  {
  }

  lemma Inserted(sorted: seq<string>, j: nat, p: string)
    requires LongestFirst(sorted) && j <= |sorted|
    requires forall k :: 0 <= k < j ==> |sorted[k]| > |p|
    requires j < |sorted| ==> |sorted[j]| <= |p|
    ensures LongestFirst(InsertAt(sorted, j, p))
    ensures multiset(InsertAt(sorted, j, p)) == multiset(sorted) + multiset{p}
  {
    assert sorted == sorted[..j] + sorted[j..];
    forall a, b | 0 <= a < b <= |sorted| ensures |InsertAt(sorted, j, p)[a]| >= |InsertAt(sorted, j, p)[b]| {
      InsertedAt(sorted, j, p, a);
      InsertedAt(sorted, j, p, b);
      if b > j {
        assert |p| >= |sorted[j]| >= |sorted[b - 1]|;
      }
    }
  }

  lemma SameElements(a: seq<string>, b: seq<string>, s: set<string>)
    requires multiset(a) == multiset(b) && Enumerates(a, s)
    ensures Enumerates(b, s)
  {
    forall x ensures x in a <==> x in b {
      assert x in a <==> x in multiset(a);
      assert x in b <==> x in multiset(b);
    }
    assert |multiset(a)| == |a| && |multiset(b)| == |b|;
    PigeonHole(a, b);
  }

  // renderFile between reading the template and writing the result.
  method RenderFile(contents: string, replacements: map<string, string>)
    returns (r: Result<string, RenderError>)
    requires "" !in replacements
    ensures exists order :: RendersTo(contents, order, replacements, r)
  {
    var placeholders := Placeholders(replacements);
    var sorted := SortByLength(placeholders);
    SameElements(placeholders, sorted, replacements.Keys);
    assert forall p :: p in sorted ==> p in Elements(sorted);
    r := ReplaceAndCheck(contents, sorted, replacements);
    assert RendersTo(contents, sorted, replacements, r);
  }

  // `r` is the outcome for this order, which the sort allows.
  ghost predicate RendersTo(contents: string, order: seq<string>, replacements: map<string, string>, r: Result<string, RenderError>) {
    && Enumerates(order, replacements.Keys) && LongestFirst(order)
    && (forall p :: p in order ==> p != "" && p in replacements)
    && r == Rendered(contents, order, replacements)
  }

  method ReplaceAndCheck(contents: string, sorted: seq<string>, replacements: map<string, string>)
    returns (r: Result<string, RenderError>)
    requires forall p :: p in sorted ==> p != "" && p in replacements
    ensures r == Rendered(contents, sorted, replacements)
  {
    var text := contents;
    assert sorted[0..] == sorted;
    for i := 0 to |sorted|
      invariant forall p :: p in sorted[i..] ==> p in sorted
      invariant ReplaceInOrder(contents, sorted, replacements) == ReplaceInOrder(text, sorted[i..], replacements)
    {
      var p := sorted[i];
      assert sorted[i..][0] == p && sorted[i..][1..] == sorted[i + 1..];
      if !Contains(text, p) {
        return Err(Missing(p));
      }
      text := ReplaceAll(text, p, replacements[p]);
    }
    assert sorted[|sorted|..] == [];
    var found := FindLeftover(text);
    r := if found.Some? then Err(Unresolved(found.value)) else Ok(text);
  }

  method FindLeftover(text: string) returns (found: Option<string>)
    ensures found == Leftover(text, LEFTOVERS)
  {
    assert LEFTOVERS[0..] == LEFTOVERS;
    for i := 0 to |LEFTOVERS|
      invariant Leftover(text, LEFTOVERS) == Leftover(text, LEFTOVERS[i..])
    {
      assert LEFTOVERS[i..][0] == LEFTOVERS[i] && LEFTOVERS[i..][1..] == LEFTOVERS[i + 1..];
      if Contains(text, LEFTOVERS[i]) {
        return Some(LEFTOVERS[i]);
      }
    }
    found := None;
  }

  // For a well-formed template the outcome depends neither on the iteration
  // of the map nor on how equal lengths are sorted.
  lemma RenderedAtOnce(layout: seq<Segment>, replacements: map<string, string>, order: seq<string>)
    requires WellFormed(layout, replacements) && Enumerates(order, replacements.Keys)
    ensures forall p :: p in order ==> p != "" && p in replacements
    ensures var r := Rendered(Show(layout, map[]), order, replacements);
            var filled := Show(layout, replacements);
            && (r == Ok(filled) <==>
                && (forall p :: p in replacements ==> Hole(p) in layout)
                && (forall p :: p in LEFTOVERS ==> !Contains(filled, p)))
            && (r.Ok? ==> r.value == filled)
  {
    OrderDoesNotMatter(layout, replacements, order);
    LeftoverMeaning(Show(layout, replacements), LEFTOVERS);
  }
}
