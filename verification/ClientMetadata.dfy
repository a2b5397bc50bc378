// Normalisation of OAuth client metadata: which documents are admitted, and
// the canonical record each admitted one becomes.

module ClientMetadata {
  import opened Prelude
  import opened Text
  import opened Urls

  const SCOPE := "mcp"
  const OFFLINE_ACCESS_SCOPE := "offline_access"
  const MAX_CLIENT_NAME_RUNES := 200
  const MAX_REDIRECT_URIS := 10

  const CODE_GRANT := ["authorization_code"]
  const REFRESH_GRANTS := ["authorization_code", "refresh_token"]
  const SYMMETRIC_METHODS := ["client_secret_basic", "client_secret_post", "client_secret_jwt"]
  const SUPPORTED_METHODS := ["none", "private_key_jwt"]

  datatype Metadata = Metadata(
    clientId: string,
    clientName: string,
    redirectUris: seq<string>,
    grantTypes: seq<string>,
    responseTypes: seq<string>,
    authMethod: string,
    authMethodsSupported: Option<seq<string>>,  // None is the absent (nil) list
    authAlg: string,
    jwksUri: string,
    scope: string,
    logoUri: string,
    clientUri: string,
    policyUri: string,
    tosUri: string,
    contacts: seq<string>,
    softwareId: string,
    softwareVersion: string)

  datatype MetadataError =
    | MissingClientId
    | BadClientName
    | RedirectCount
    | BadRedirect(uri: string)
    | DuplicateRedirect(uri: string)
    | BadGrantTypes
    | BadResponseTypes
    | BadAuthMethod
    | NoDeclaredMethod
    | EmptyDeclaredMethod
    | DuplicateDeclaredMethod
    | SymmetricDeclaredMethod
    | PreferenceNotDeclared
    | NoSupportedMethod
    | AmbiguousMethods
    | PublicClientSigning
    | DynamicPrivateKey
    | BadSigningAlg
    | BadJwksUri
    | BadScope

  // ---------------------------------------------------------------- sets of strings

  // `left` and `right` have equal length, `left` repeats nothing, and each of
  // its members is in `right`.
  predicate SameStringSet(left: seq<string>, right: seq<string>) {
    && |left| == |right|
    && forall i :: 0 <= i < |left| ==> left[i] !in left[..i] && left[i] in right
  }

  lemma SameStringSetMeaning(left: seq<string>, right: seq<string>)
    ensures SameStringSet(left, right) <==>
            NoDuplicates(left) && NoDuplicates(right) && Elements(left) == Elements(right)
  {
    if SameStringSet(left, right) {
      forall i, j | 0 <= i < j < |left| ensures left[i] != left[j] {
        assert left[i] in left[..j];
      }
      PigeonHole(left, right);
    }
    if NoDuplicates(left) && NoDuplicates(right) && Elements(left) == Elements(right) {
      DistinctCount(left);
      DistinctCount(right);
      forall i | 0 <= i < |left| ensures left[i] !in left[..i] && left[i] in right {
        assert left[i] in Elements(left);
      }
    }
  }

  // ---------------------------------------------------------------- auth method

  // The first complaint about the declared list, reading it from the left.
  function DeclaredError(declared: seq<string>): Option<MetadataError> {
    if declared == [] then None
    else
      var front, method_ := declared[..|declared| - 1], declared[|declared| - 1];
      match DeclaredError(front)
      case Some(e) => Some(e)
      case None =>
        if method_ == "" then Some(EmptyDeclaredMethod)
        else if method_ in front then Some(DuplicateDeclaredMethod)
        else if method_ in SYMMETRIC_METHODS then Some(SymmetricDeclaredMethod)
        else None
  }

  function Supported(declared: seq<string>): set<string> {
    set x | x in declared && x in SUPPORTED_METHODS
  }

  function SelectMethod(m: Metadata, requireClientId: bool): Result<string, MetadataError> {
    if !requireClientId || m.authMethodsSupported == None then
      if m.authMethod == "" then Ok("none")
      else if m.authMethod in SUPPORTED_METHODS then Ok(m.authMethod)
      else Err(BadAuthMethod)
    else SelectDeclared(m.authMethodsSupported.value, m.authMethod)
  }

  function SelectDeclared(declared: seq<string>, preference: string): Result<string, MetadataError> {
    if declared == [] then Err(NoDeclaredMethod)
    else match DeclaredError(declared)
      case Some(e) => Err(e)
      case None =>
        if preference != "" && preference !in declared then Err(PreferenceNotDeclared)
        else if preference != "" && preference in Supported(declared) then Ok(preference)
        else if Supported(declared) == {} then Err(NoSupportedMethod)
        else if |Supported(declared)| > 1 then Err(AmbiguousMethods)
        else if "none" in Supported(declared) then Ok("none")
        else Ok("private_key_jwt")
  }

  // When the negotiation succeeds with `m`, said without reading the list in
  // any order.
  ghost predicate Negotiated(declared: seq<string>, preference: string, m: string) {
    && declared != []
    && NoDuplicates(declared)
    && "" !in declared
    && (forall x :: x in declared ==> x !in SYMMETRIC_METHODS)
    && (preference != "" ==> preference in declared)
    && m in declared && m in SUPPORTED_METHODS
    && (if preference in SUPPORTED_METHODS then m == preference
        else forall x :: x in declared && x in SUPPORTED_METHODS ==> x == m)
  }

  lemma {:induction false} DeclaredErrorMeaning(declared: seq<string>)
    ensures DeclaredError(declared) == None <==>
            NoDuplicates(declared) && "" !in declared && forall x :: x in declared ==> x !in SYMMETRIC_METHODS
  {
    if declared != [] {
      var front, last := declared[..|declared| - 1], declared[|declared| - 1];
      DeclaredErrorMeaning(front);
      assert declared == front + [last];
    }
  }

  lemma SupportedMembers(declared: seq<string>)
    ensures Supported(declared) <= {"none", "private_key_jwt"}
    ensures |Supported(declared)| > 1 <==> Supported(declared) == {"none", "private_key_jwt"}
  {
    var s := Supported(declared);
    assert s <= {"none", "private_key_jwt"};
    if s != {"none", "private_key_jwt"} {
      assert s == {} || s == {"none"} || s == {"private_key_jwt"};
    }
    assert "none" != "private_key_jwt";
  }

  lemma SelectDeclaredMeaning(declared: seq<string>, preference: string, m: string)
    ensures SelectDeclared(declared, preference) == Ok(m) <==> Negotiated(declared, preference, m)
  {
    DeclaredErrorMeaning(declared);
    SupportedMembers(declared);
    var s := Supported(declared);
    if Negotiated(declared, preference, m) && preference !in SUPPORTED_METHODS {
      assert m in s;
      assert s == {m};
    }
    if SelectDeclared(declared, preference) == Ok(m) {
      assert m in s;
      if preference !in SUPPORTED_METHODS {
        forall x | x in declared && x in SUPPORTED_METHODS ensures x == m {
          assert x in s;
        }
      }
    }
  }

  // Reordering the declared list changes neither success nor the method.
  lemma SelectDeclaredIgnoresOrder(declared: seq<string>, other: seq<string>, preference: string, m: string)
    requires multiset(declared) == multiset(other)
    ensures SelectDeclared(declared, preference) == Ok(m) <==> SelectDeclared(other, preference) == Ok(m)
  {
    SelectDeclaredMeaning(declared, preference, m);
    SelectDeclaredMeaning(other, preference, m);
    MembersFromMultiset(declared, other);
    if NoDuplicates(declared) { DistinctFromMultiset(declared, other); }
    if NoDuplicates(other) { DistinctFromMultiset(other, declared); }
  }

  lemma MembersFromMultiset(a: seq<string>, b: seq<string>)
    requires multiset(a) == multiset(b)
    ensures forall x :: x in a <==> x in b
    ensures |a| == |b|
  {
    forall x ensures x in a <==> x in b {
      assert x in a <==> x in multiset(a);
      assert x in b <==> x in multiset(b);
    }
    assert |multiset(a)| == |a| && |multiset(b)| == |b|;
  }

  lemma DistinctFromMultiset(a: seq<string>, b: seq<string>)
    requires multiset(a) == multiset(b) && NoDuplicates(a)
    ensures NoDuplicates(b)
  {
    MembersFromMultiset(a, b);
    PigeonHole(a, b);
  }

  // The loop of selectTokenEndpointAuthMethod, with the two sets it fills.
  method ScanDeclaredMethods(declared: seq<string>)
    returns (error: Option<MetadataError>, seen: set<string>, intersection: set<string>)
    ensures error == DeclaredError(declared)
    ensures error == None ==> seen == Elements(declared) && intersection == Supported(declared)
  {
    intersection, seen := {}, {};
    for i := 0 to |declared|
      invariant seen == Elements(declared[..i])
      invariant intersection == Supported(declared[..i])
      invariant DeclaredError(declared[..i]) == None
    {
      var next := declared[i];
      assert declared[..i + 1] == declared[..i] + [next];
      assert declared[..i + 1][..i] == declared[..i];
      if next == "" {
        LaterMethodsKeepTheError(declared, i + 1);
        return Some(EmptyDeclaredMethod), seen, intersection;
      }
      if next in seen {
        LaterMethodsKeepTheError(declared, i + 1);
        return Some(DuplicateDeclaredMethod), seen, intersection;
      }
      seen := seen + {next};
      if next in SYMMETRIC_METHODS {
        LaterMethodsKeepTheError(declared, i + 1);
        return Some(SymmetricDeclaredMethod), seen, intersection;
      }
      if next in SUPPORTED_METHODS {
        intersection := intersection + {next};
      }
    }
    assert declared[..|declared|] == declared;
    error := None;
  }

  method SelectTokenEndpointAuthMethod(m: Metadata, requireClientId: bool)
    returns (r: Result<string, MetadataError>)
    ensures r == SelectMethod(m, requireClientId)
  {
    if !requireClientId || m.authMethodsSupported == None {
      if m.authMethod == "" {
        return Ok("none");
      }
      return if m.authMethod in SUPPORTED_METHODS then Ok(m.authMethod) else Err(BadAuthMethod);
    }
    var declared := m.authMethodsSupported.value;
    if |declared| == 0 {
      return Err(NoDeclaredMethod);
    }
    var error, seen, intersection := ScanDeclaredMethods(declared);
    if error.Some? {
      return Err(error.value);
    }
    if m.authMethod != "" {
      if m.authMethod !in seen {
        return Err(PreferenceNotDeclared);
      }
      if m.authMethod in intersection {
        return Ok(m.authMethod);
      }
    }
    if |intersection| == 0 {
      return Err(NoSupportedMethod);
    }
    if |intersection| > 1 {
      return Err(AmbiguousMethods);
    }
    var only :| only in intersection;
    assert intersection == {only} by {
      assert |intersection - {only}| == 0;
    }
    return Ok(only);
  }

  lemma {:induction false} LaterMethodsKeepTheError(declared: seq<string>, n: nat)
    requires n <= |declared| && DeclaredError(declared[..n]).Some?
    ensures DeclaredError(declared) == DeclaredError(declared[..n])
  {
    if n == |declared| {
      assert declared[..n] == declared;
    } else {
      assert declared[..|declared| - 1][..n] == declared[..n];
      LaterMethodsKeepTheError(declared[..|declared| - 1], n);
    }
  }

  // ---------------------------------------------------------------- normalisation

  predicate ClientNameOk(name: string) {
    && name != "" && TrimSpace(name) == name
    && |name| <= MAX_CLIENT_NAME_RUNES
    && forall c :: c in name ==> !IsControl(c)
  }

  function RedirectError(lib: UrlLibrary, uris: seq<string>): Option<MetadataError> {
    if uris == [] then None
    else
      var front, uri := uris[..|uris| - 1], uris[|uris| - 1];
      match RedirectError(lib, front)
      case Some(e) => Some(e)
      case None =>
        if !ValidRedirectUri(lib, uri) then Some(BadRedirect(uri))
        else if uri in front then Some(DuplicateRedirect(uri))
        else None
  }

  lemma {:induction false} RedirectErrorMeaning(lib: UrlLibrary, uris: seq<string>)
    ensures RedirectError(lib, uris) == None <==>
            NoDuplicates(uris) && forall u :: u in uris ==> ValidRedirectUri(lib, u)
  {
    if uris != [] {
      var front, last := uris[..|uris| - 1], uris[|uris| - 1];
      RedirectErrorMeaning(lib, front);
      assert uris == front + [last];
    }
  }

  lemma {:induction false} LaterRedirectsKeepTheError(lib: UrlLibrary, uris: seq<string>, n: nat)
    requires n <= |uris| && RedirectError(lib, uris[..n]).Some?
    ensures RedirectError(lib, uris) == RedirectError(lib, uris[..n])
  {
    if n == |uris| {
      assert uris[..n] == uris;
    } else {
      assert uris[..|uris| - 1][..n] == uris[..n];
      LaterRedirectsKeepTheError(lib, uris[..|uris| - 1], n);
    }
  }

  // One switch for both registration paths: their branches are the same.
  function CanonicalGrants(grants: seq<string>): Option<seq<string>> {
    if SameStringSet(grants, CODE_GRANT) then Some(CODE_GRANT)
    else if SameStringSet(grants, REFRESH_GRANTS) then Some(REFRESH_GRANTS)
    else None
  }

  predicate ScopeOk(scope: string) {
    var scopes := Fields(scope);
    SameStringSet(scopes, [SCOPE]) || SameStringSet(scopes, [SCOPE, OFFLINE_ACCESS_SCOPE])
  }

  function Normalized(lib: UrlLibrary, m: Metadata, requireClientId: bool): Result<Metadata, MetadataError> {
    if requireClientId && m.clientId == "" then Err(MissingClientId)
    else if !ClientNameOk(m.clientName) then Err(BadClientName)
    else if m.redirectUris == [] || |m.redirectUris| > MAX_REDIRECT_URIS then Err(RedirectCount)
    else match RedirectError(lib, m.redirectUris)
      case Some(e) => Err(e)
      case None =>
        match CanonicalGrants(if m.grantTypes == [] then CODE_GRANT else m.grantTypes)
        case None => Err(BadGrantTypes)
        case Some(grants) =>
          if m.responseTypes != [] && !SameStringSet(m.responseTypes, ["code"]) then Err(BadResponseTypes)
          else NormalizedAuth(lib, m.(grantTypes := grants, responseTypes := ["code"]), requireClientId)
  }

  // The token endpoint part, the scope, and the fields that are dropped.
  function NormalizedAuth(lib: UrlLibrary, m: Metadata, requireClientId: bool): Result<Metadata, MetadataError> {
    match SelectMethod(m, requireClientId)
    case Err(e) => Err(e)
    case Ok(selected) =>
      var signs := requireClientId && m.authMethodsSupported.Some? && "private_key_jwt" in m.authMethodsSupported.value;
      if selected == "none" && !signs && (m.authAlg != "" || m.jwksUri != "") then Err(PublicClientSigning)
      else if selected != "none" && !requireClientId then Err(DynamicPrivateKey)
      else if selected != "none" && m.authAlg != "RS256" then Err(BadSigningAlg)
      else if selected != "none" && !ValidJwksUri(lib, m.jwksUri) then Err(BadJwksUri)
      else
        var scope := if m.scope == "" then SCOPE else m.scope;
        if !ScopeOk(scope) then Err(BadScope)
        else Ok(m.(authMethod := selected, authMethodsSupported := None,
                   authAlg := if selected == "none" then "" else m.authAlg,
                   jwksUri := if selected == "none" then "" else m.jwksUri,
                   scope := scope, logoUri := "", clientUri := "", policyUri := "", tosUri := "",
                   contacts := [], softwareId := "", softwareVersion := ""))
  }

  // The redirect loop of normalizeClientMetadata, with its seen-set.
  method CheckRedirects(lib: UrlLibrary, uris: seq<string>) returns (error: Option<MetadataError>)
    ensures error == RedirectError(lib, uris)
  {
    var seenRedirects: set<string> := {};
    for i := 0 to |uris|
      invariant seenRedirects == Elements(uris[..i])
      invariant RedirectError(lib, uris[..i]) == None
    {
      assert uris[..i + 1] == uris[..i] + [uris[i]];
      assert uris[..i + 1][..i] == uris[..i];
      if !ValidRedirectUri(lib, uris[i]) {
        LaterRedirectsKeepTheError(lib, uris, i + 1);
        return Some(BadRedirect(uris[i]));
      }
      if uris[i] in seenRedirects {
        LaterRedirectsKeepTheError(lib, uris, i + 1);
        return Some(DuplicateRedirect(uris[i]));
      }
      seenRedirects := seenRedirects + {uris[i]};
    }
    assert uris[..|uris|] == uris;
    error := None;
  }

  // normalizeClientMetadata, reassigning the fields of its local copy.
  method NormalizeClientMetadata(lib: UrlLibrary, input: Metadata, requireClientId: bool)
    returns (r: Result<Metadata, MetadataError>)
    ensures r == Normalized(lib, input, requireClientId)
    ensures r.Ok? ==> Canonical(lib, r.value, requireClientId)
  {
    if Normalized(lib, input, requireClientId).Ok? {
      NormalizedIsCanonical(lib, input, requireClientId);
    }
    var metadata := input;
    if requireClientId && metadata.clientId == "" {
      return Err(MissingClientId);
    }
    if !ClientNameOk(metadata.clientName) {
      return Err(BadClientName);
    }
    if |metadata.redirectUris| == 0 || |metadata.redirectUris| > MAX_REDIRECT_URIS {
      return Err(RedirectCount);
    }
    var redirectError := CheckRedirects(lib, metadata.redirectUris);
    if redirectError.Some? {
      return Err(redirectError.value);
    }
    if |metadata.grantTypes| == 0 {
      metadata := metadata.(grantTypes := CODE_GRANT);
    }
    if SameStringSet(metadata.grantTypes, CODE_GRANT) {
      metadata := metadata.(grantTypes := CODE_GRANT);
    } else if SameStringSet(metadata.grantTypes, REFRESH_GRANTS) {
      metadata := metadata.(grantTypes := REFRESH_GRANTS);
    } else {
      return Err(BadGrantTypes);
    }
    if |metadata.responseTypes| == 0 {
      metadata := metadata.(responseTypes := ["code"]);
    }
    if !SameStringSet(metadata.responseTypes, ["code"]) {
      return Err(BadResponseTypes);
    }
    metadata := metadata.(responseTypes := ["code"]);
    var clientSupportsPrivateKeyJwt :=
      requireClientId && metadata.authMethodsSupported.Some? && "private_key_jwt" in metadata.authMethodsSupported.value;
    var selected := SelectTokenEndpointAuthMethod(metadata, requireClientId);
    if selected.Err? {
      return Err(selected.error);
    }
    SelectedIsSupported(metadata, requireClientId);
    metadata := metadata.(authMethod := selected.value, authMethodsSupported := None);
    if metadata.authMethod == "none" {
      if !clientSupportsPrivateKeyJwt && (metadata.authAlg != "" || metadata.jwksUri != "") {
        return Err(PublicClientSigning);
      }
      metadata := metadata.(authAlg := "", jwksUri := "");
    } else {
      if !requireClientId {
        return Err(DynamicPrivateKey);
      }
      if metadata.authAlg != "RS256" {
        return Err(BadSigningAlg);
      }
      if !ValidJwksUri(lib, metadata.jwksUri) {
        return Err(BadJwksUri);
      }
    }
    if metadata.scope == "" {
      metadata := metadata.(scope := SCOPE);
    }
    if !ScopeOk(metadata.scope) {
      return Err(BadScope);
    }
    metadata := metadata.(logoUri := "", clientUri := "", policyUri := "", tosUri := "",
                          contacts := [], softwareId := "", softwareVersion := "");
    return Ok(metadata);
  }

  lemma SelectedIsSupported(m: Metadata, requireClientId: bool)
    ensures SelectMethod(m, requireClientId).Ok? ==> SelectMethod(m, requireClientId).value in SUPPORTED_METHODS
  {
    if requireClientId && m.authMethodsSupported.Some? {
      var r := SelectDeclared(m.authMethodsSupported.value, m.authMethod);
      if r.Ok? {
        SelectDeclaredMeaning(m.authMethodsSupported.value, m.authMethod, r.value);
      }
    }
  }

  // What the rest of the facade may assume about an admitted record.
  ghost predicate Canonical(lib: UrlLibrary, m: Metadata, requireClientId: bool) {
    && (requireClientId ==> m.clientId != "")
    && ClientNameOk(m.clientName)
    && 0 < |m.redirectUris| <= MAX_REDIRECT_URIS
    && NoDuplicates(m.redirectUris)
    && (forall u :: u in m.redirectUris ==> ValidRedirectUri(lib, u))
    && m.grantTypes in [CODE_GRANT, REFRESH_GRANTS]
    && m.responseTypes == ["code"]
    && m.authMethodsSupported == None
    && (|| (m.authMethod == "none" && m.authAlg == "" && m.jwksUri == "")
        || (m.authMethod == "private_key_jwt" && requireClientId && m.authAlg == "RS256"
            && ValidJwksUri(lib, m.jwksUri)))
    && ScopeOk(m.scope) && m.scope != ""
    && m.logoUri == "" && m.clientUri == "" && m.policyUri == "" && m.tosUri == ""
    && m.contacts == [] && m.softwareId == "" && m.softwareVersion == ""
  }

  lemma NormalizedIsCanonical(lib: UrlLibrary, m: Metadata, requireClientId: bool)
    requires Normalized(lib, m, requireClientId).Ok?
    ensures Canonical(lib, Normalized(lib, m, requireClientId).value, requireClientId)
  {
    RedirectErrorMeaning(lib, m.redirectUris);
    var grants := CanonicalGrants(if m.grantTypes == [] then CODE_GRANT else m.grantTypes).value;
    var staged := m.(grantTypes := grants, responseTypes := ["code"]);
    SelectedIsSupported(staged, requireClientId);
  }

  lemma NormalizedKeepsNames(lib: UrlLibrary, m: Metadata, requireClientId: bool)
    requires Normalized(lib, m, requireClientId).Ok?
    ensures var normal := Normalized(lib, m, requireClientId).value;
            normal.clientName == m.clientName && normal.redirectUris == m.redirectUris
  {
  }

  lemma NormalizedKeepsId(lib: UrlLibrary, m: Metadata, requireClientId: bool)
    ensures Normalized(lib, m, requireClientId).Ok? ==>
              Normalized(lib, m, requireClientId).value.clientId == m.clientId
  {
  }

  // The canonical records are exactly the ones normalisation leaves alone, so
  // they are also exactly its possible results.
  lemma CanonicalIffFixed(lib: UrlLibrary, m: Metadata, requireClientId: bool)
    ensures Canonical(lib, m, requireClientId) <==> Normalized(lib, m, requireClientId) == Ok(m)
  {
    if Canonical(lib, m, requireClientId) {
      RedirectErrorMeaning(lib, m.redirectUris);
      assert SameStringSet(CODE_GRANT, CODE_GRANT);
      assert SameStringSet(REFRESH_GRANTS, REFRESH_GRANTS);
      assert SameStringSet(["code"], ["code"]);
    }
    if Normalized(lib, m, requireClientId) == Ok(m) {
      NormalizedIsCanonical(lib, m, requireClientId);
    }
  }

  lemma NormalizeIdempotent(lib: UrlLibrary, m: Metadata, requireClientId: bool)
    requires Normalized(lib, m, requireClientId).Ok?
    ensures var n := Normalized(lib, m, requireClientId).value;
            Normalized(lib, n, requireClientId) == Ok(n)
  {
    NormalizedIsCanonical(lib, m, requireClientId);
    CanonicalIffFixed(lib, Normalized(lib, m, requireClientId).value, requireClientId);
  }

  // Declaring the grants in another order gives the same answer, error or not.
  lemma NormalizeIgnoresGrantOrder(lib: UrlLibrary, m: Metadata, grants: seq<string>, requireClientId: bool)
    requires multiset(grants) == multiset(m.grantTypes)
    ensures Normalized(lib, m.(grantTypes := grants), requireClientId) == Normalized(lib, m, requireClientId)
  {
    MembersFromMultiset(grants, m.grantTypes);
    SameSetIgnoresOrder(grants, m.grantTypes, CODE_GRANT);
    SameSetIgnoresOrder(grants, m.grantTypes, REFRESH_GRANTS);
    forall x ensures m.(grantTypes := grants).(grantTypes := x, responseTypes := ["code"]) ==
                     m.(grantTypes := x, responseTypes := ["code"]) {
    }
  }

  lemma SameSetIgnoresOrder(a: seq<string>, b: seq<string>, right: seq<string>)
    requires multiset(a) == multiset(b)
    ensures SameStringSet(a, right) == SameStringSet(b, right)
  {
    SameStringSetMeaning(a, right);
    SameStringSetMeaning(b, right);
    MembersFromMultiset(a, b);
    assert Elements(a) == Elements(b);
    if NoDuplicates(a) { DistinctFromMultiset(a, b); }
    if NoDuplicates(b) { DistinctFromMultiset(b, a); }
  }

  // ---------------------------------------------------------------- unsafe fields

  const UNSAFE_FIELDS := {
    "client_secret", "client_secret_expires_at", "registration_access_token", "registration_client_uri",
    "metadata", "audience", "skip_consent", "skip_logout_consent", "access_token_strategy", "owner"
  }

  // A new registration may not choose its id, an update may only repeat it.
  predicate FieldsAreSafe(fields: set<string>, allowClientId: bool) {
    fields !! UNSAFE_FIELDS && (allowClientId || "client_id" !in fields)
  }
}
